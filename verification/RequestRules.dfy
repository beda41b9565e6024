// Rules that every send keeps, as its order and its exchanges entail them.
module RequestRules {
  import opened Wrappers
  import opened UrlValidation
  import opened RedirectPolicy
  import opened HeaderValidation
  import opened Retry
  import opened RequestHandler
  import opened RequestSafety
  import opened RequestTrace
  import opened RequestProtocol

  // ----- A refusal ends the run -----

  predicate IsRefusal(e: Event) {
    match e
    case Reported(go) => !go
    case Permitted(refusal) => refusal.Some?
    case _ => false
  }

  // The tracker's refusal aborts, the limiter's is passed on.
  function RefusalError(e: Event): Error
    requires IsRefusal(e)
  {
    if e.Permitted? then e.refusal.value else RequestAborted
  }

  ghost predicate StopsAtRefusal(run: Run) {
    forall i :: 0 <= i < |run.trace| && IsRefusal(run.trace[i]) ==>
      i == |run.trace| - 1 && run.result == Err(RefusalError(run.trace[i]))
  }

  ghost predicate NoRefusal(trace: Trace) {
    forall i :: 0 <= i < |trace| ==> !IsRefusal(trace[i])
  }

  lemma TellsStop(request: HttpRequest, before: Trace, response: Response, run: Run)
    requires NoRefusal(before) && Tells(request, before, response, run)
    ensures StopsAtRefusal(run)
  {}

  lemma FetchedIsUnrefused(request: HttpRequest, tag: Option<string>, trace: Trace)
    requires Adds(request, tag, Opening(request, tag), trace)
    ensures NoRefusal(trace)
  {
    var opening := Opening(request, tag);
    forall i | 0 <= i < |trace| ensures !IsRefusal(trace[i]) {
      if i < |opening| {
        assert trace[i] == opening[i];
      } else {
        assert AddsAt(request, tag, trace, i);
      }
    }
  }

  lemma ConcludesStop(request: HttpRequest, before: Trace, answer: Response, run: Run)
    requires NoRefusal(before) && Concludes(request, before, answer, run)
    ensures StopsAtRefusal(run)
  {
    if answer.status == 429 || 500 <= answer.status < 600 {
    } else if UsesCache(request) && 200 <= answer.status < 300 {
      TellsStop(request, before + [CacheWrite(Cleaned(answer))], Cleaned(answer), run);
    } else if UsesCache(request) && answer.status == 304 {
      var hit: Option<Response> :| Tells(request, before + [CacheRead(hit)], Revalidated(hit, answer), run);
      TellsStop(request, before + [CacheRead(hit)], Revalidated(hit, answer), run);
    } else {
      TellsStop(request, before, Cleaned(answer), run);
    }
  }

  lemma StoryStops(request: HttpRequest, join: (Url, string) -> Option<Url>, run: Run, tag: Option<string>,
                   fetched: Run)
    requires IsStory(request, join, run, tag, fetched)
    ensures StopsAtRefusal(run)
  {
    if IsFetched(request, join, run, tag, fetched) {
      FetchedIsUnrefused(request, tag, fetched.trace);
      if fetched.result.Ok? { ConcludesStop(request, fetched.trace, fetched.result.value, run); }
    } else if IsHit(request, run) {
      var hit :| Tells(request, Gates(request) + [CacheRead(Some(hit))], hit, run);
      TellsStop(request, Gates(request) + [CacheRead(Some(hit))], hit, run);
    }
  }

  lemma ExecuteStory(request: HttpRequest, world: World) returns (tag: Option<string>, fetched: Run)
    ensures IsStory(request, world.join, Execute(request, world), tag, fetched)
  {
    tag, fetched := RunStory(request, world);
  }

  // Once the tracker or the limiter has said no, nothing happens any more and
  // the caller is told so.
  lemma RefusalsEndRuns(request: HttpRequest, hooks: Hooks, world: World, signal: Signal, i: nat)
    ensures var run := SendRun(request, hooks, world, signal);
            i < |run.trace| && IsRefusal(run.trace[i]) ==>
              && i == |run.trace| - 1
              && run.result == Err(if signal.Firing? && signal.cut == |run.trace| then RequestAborted
                                   else RefusalError(run.trace[i]))
  {
    var final, run := hooks.onRequest(request), SendRun(request, hooks, world, signal);
    CutRun(request, hooks, world, signal);
    if i < |run.trace| && IsRefusal(run.trace[i]) {
      var whole := Execute(final.value, world);
      var tag, fetched := ExecuteStory(final.value, world);
      StoryStops(final.value, world.join, whole, tag, fetched);
      assert whole.trace[i] == run.trace[i];
    }
  }

  // ----- The gates come first -----

  // The tracker's and the limiter's consent, where they are asked.
  ghost predicate PastGates(request: HttpRequest, before: Trace) {
    (request.tracked ==> Reported(true) in before) && (request.limited ==> Permitted(None) in before)
  }

  predicate IsGate(e: Event) {
    e.Reported? || e.Permitted?
  }

  lemma GatesArePassed(request: HttpRequest, trace: Trace, i: nat)
    requires Gates(request) <= trace && i < |trace| && !IsGate(trace[i])
    ensures PastGates(request, trace[..i])
  {
    var gates := Gates(request);
    assert forall k :: 0 <= k < |gates| ==> trace[k] == gates[k] && IsGate(gates[k]);
    assert forall k :: 0 <= k < |gates| ==> trace[..i][k] == gates[k];
    assert request.tracked ==> gates[0] == Reported(true);
    assert request.limited ==> gates[|gates| - 1] == Permitted(None);
  }

  lemma GatesStart(request: HttpRequest, join: (Url, string) -> Option<Url>, run: Run, tag: Option<string>,
                   fetched: Run)
    requires IsStory(request, join, run, tag, fetched)
    ensures Gates(request) <= run.trace || forall i :: 0 <= i < |run.trace| ==> IsGate(run.trace[i])
  {
    if IsFetched(request, join, run, tag, fetched) {
      FetchedIsKept(request, join, run, tag, fetched);
      assert Gates(request) <= Opening(request, tag);
    }
  }

  // What is fetched stays at the front of the trace, and what comes after it
  // is no traffic.
  lemma FetchedIsKept(request: HttpRequest, join: (Url, string) -> Option<Url>, run: Run, tag: Option<string>,
                      fetched: Run)
    requires IsFetched(request, join, run, tag, fetched)
    ensures Opening(request, tag) <= fetched.trace <= run.trace
    ensures forall i :: |fetched.trace| <= i < |run.trace| ==> !run.trace[i].Exchanged? && !run.trace[i].Lookup?
  {}

  // Nothing but the gates themselves comes before their consent.
  lemma GatesComeFirst(request: HttpRequest, hooks: Hooks, world: World, signal: Signal, i: nat)
    requires hooks.onRequest(request).Ok?
    ensures var trace := SendRun(request, hooks, world, signal).trace;
            i < |trace| && !IsGate(trace[i]) ==> PastGates(hooks.onRequest(request).value, trace[..i])
  {
    var final, trace := hooks.onRequest(request).value, SendRun(request, hooks, world, signal).trace;
    CutRun(request, hooks, world, signal);
    if i < |trace| && !IsGate(trace[i]) {
      var whole := Execute(final, world);
      assert whole.trace[i] == trace[i] && whole.trace[..i] == trace[..i];
      var tag, fetched := ExecuteStory(final, world);
      GatesStart(final, world.join, whole, tag, fetched);
      GatesArePassed(final, whole.trace, i);
    }
  }

  // ----- The cache -----

  // Whether this exchange of a run comes after the missed read and the tag
  // read, and carries that tag if it is an attempt and none otherwise.
  ghost predicate TagFits(request: HttpRequest, tag: Option<string>, before: Trace, x: Exchange) {
    && Opening(request, tag) <= before
    && x.call.etag == if Some(x.call.hop.url) == request.url then tag else None
  }

  // Where the exchanges of a run are.
  ghost predicate HasFetched(request: HttpRequest, join: (Url, string) -> Option<Url>, run: Run, tag: Option<string>,
                             fetched: Run, i: nat)
    requires i < |run.trace|
  {
    && IsFetched(request, join, run, tag, fetched)
    && |Opening(request, tag)| <= i < |fetched.trace| && fetched.trace <= run.trace
    && AddsAt(request, tag, fetched.trace, i)
  }

  lemma ExchangeIsFetched(request: HttpRequest, join: (Url, string) -> Option<Url>, run: Run, tag: Option<string>,
                          fetched: Run, i: nat)
    requires IsStory(request, join, run, tag, fetched) && i < |run.trace| && run.trace[i].Exchanged?
    ensures HasFetched(request, join, run, tag, fetched, i)
  {
    if IsFetched(request, join, run, tag, fetched) {
      var opening := Opening(request, tag);
      FetchedIsKept(request, join, run, tag, fetched);
      OpeningIsSilent(request, tag);
      assert forall k :: 0 <= k < |opening| ==> run.trace[k] == opening[k] && !opening[k].Exchanged?;
    } else {
      UnfetchedIsSilent(request, run);
    }
  }

  lemma OpeningIsSilent(request: HttpRequest, tag: Option<string>)
    ensures var opening := Opening(request, tag);
            forall k :: 0 <= k < |opening| ==> !opening[k].Exchanged? && !opening[k].CacheWrite?
  {}

  lemma UnfetchedIsSilent(request: HttpRequest, run: Run)
    requires run.trace == [] || IsAborted(request, run) || IsUnpermitted(request, run) || IsHit(request, run)
    ensures forall k :: 0 <= k < |run.trace| ==> !run.trace[k].Exchanged? && !run.trace[k].CacheWrite?
  {}

  lemma FetchedTag(request: HttpRequest, join: (Url, string) -> Option<Url>, run: Run, tag: Option<string>,
                   fetched: Run, i: nat)
    requires IsStory(request, join, run, tag, fetched) && i < |run.trace| && run.trace[i].Exchanged?
    ensures (tag.Some? ==> UsesCache(request)) && TagFits(request, tag, run.trace[..i], run.trace[i].exchange)
  {
    ExchangeIsFetched(request, join, run, tag, fetched, i);
    assert fetched.trace[i] == run.trace[i] && fetched.trace[..i] == run.trace[..i];
    FetchedIsKept(request, join, run, tag, fetched);
  }

  ghost predicate TagsFit(request: HttpRequest, tag: Option<string>, trace: Trace) {
    forall i :: 0 <= i < |trace| && trace[i].Exchanged? ==>
      (tag.Some? ==> UsesCache(request)) && TagFits(request, tag, trace[..i], trace[i].exchange)
  }

  lemma StoryTags(request: HttpRequest, join: (Url, string) -> Option<Url>, run: Run, tag: Option<string>,
                  fetched: Run, trace: Trace)
    requires IsStory(request, join, run, tag, fetched) && trace <= run.trace
    ensures TagsFit(request, tag, trace)
  {
    forall i | 0 <= i < |trace| && trace[i].Exchanged?
      ensures (tag.Some? ==> UsesCache(request)) && TagFits(request, tag, trace[..i], trace[i].exchange)
    {
      assert run.trace[i] == trace[i] && run.trace[..i] == trace[..i];
      FetchedTag(request, join, run, tag, fetched, i);
    }
  }

  // Every attempt of every send carries the tag that was read, and no hop does.
  lemma TagsGoOut(request: HttpRequest, hooks: Hooks, world: World, signal: Signal) returns (tag: Option<string>)
    requires hooks.onRequest(request).Ok?
    ensures TagsFit(hooks.onRequest(request).value, tag, SendRun(request, hooks, world, signal).trace)
  {
    var final, trace := hooks.onRequest(request).value, SendRun(request, hooks, world, signal).trace;
    var fetched;
    CutRun(request, hooks, world, signal);
    tag, fetched := ExecuteStory(final, world);
    StoryTags(final, world.join, Execute(final, world), tag, fetched, trace);
  }

  lemma FetchedGoesOn(request: HttpRequest, tag: Option<string>, trace: Trace, i: nat, j: nat)
    requires Adds(request, tag, Opening(request, tag), trace)
    requires |Opening(request, tag)| <= i < j < |trace| && trace[i].Exchanged?
    ensures GoesOn(request, trace[i].exchange)
  {
    assert AddsAt(request, tag, trace, i + 1);
    assert trace[..i + 1][i] == trace[i];
  }

  lemma TrafficGoesOn(request: HttpRequest, join: (Url, string) -> Option<Url>, run: Run, tag: Option<string>,
                      fetched: Run, i: nat, j: nat)
    requires IsStory(request, join, run, tag, fetched) && i < j < |run.trace|
    requires run.trace[i].Exchanged? && (run.trace[j].Exchanged? || run.trace[j].Lookup?)
    ensures GoesOn(request, run.trace[i].exchange)
  {
    ExchangeIsFetched(request, join, run, tag, fetched, i);
    FetchedIsKept(request, join, run, tag, fetched);
    assert fetched.trace[i] == run.trace[i];
    FetchedGoesOn(request, tag, fetched.trace, i, j);
  }

  // After an outcome that is neither worth another attempt nor a redirect to
  // follow, nothing is looked up or exchanged any more.
  lemma FinalOutcomesAreLast(request: HttpRequest, hooks: Hooks, world: World, signal: Signal, i: nat, j: nat)
    requires hooks.onRequest(request).Ok?
    ensures var trace := SendRun(request, hooks, world, signal).trace;
            i < j < |trace| && trace[i].Exchanged? && !GoesOn(hooks.onRequest(request).value, trace[i].exchange) ==>
              !trace[j].Exchanged? && !trace[j].Lookup?
  {
    var final, trace := hooks.onRequest(request).value, SendRun(request, hooks, world, signal).trace;
    CutRun(request, hooks, world, signal);
    if i < j < |trace| && trace[i].Exchanged? && (trace[j].Exchanged? || trace[j].Lookup?) {
      var whole := Execute(final, world);
      assert whole.trace[i] == trace[i] && whole.trace[j] == trace[j];
      var tag, fetched := ExecuteStory(final, world);
      TrafficGoesOn(final, world.join, whole, tag, fetched, i, j);
    }
  }

  predicate IsSuccessful(e: Event) {
    e.Exchanged? && e.exchange.outcome.Replied? && 200 <= e.exchange.outcome.reply.status < 300
  }

  // The event stores the answer that the exchange brought.
  ghost predicate Stores(e: Event, x: Exchange) {
    e.CacheWrite? && exists answer :: Answers(x, answer) && IsCleaned(e.response, answer)
  }

  ghost predicate NothingStored(trace: Trace) {
    forall k :: 0 <= k < |trace| ==> !trace[k].CacheWrite?
  }

  lemma FetchedStoresNothing(request: HttpRequest, tag: Option<string>, trace: Trace)
    requires Adds(request, tag, Opening(request, tag), trace)
    ensures NothingStored(trace)
  {
    var opening := Opening(request, tag);
    OpeningIsSilent(request, tag);
    forall k | 0 <= k < |trace| ensures !trace[k].CacheWrite? {
      if k < |opening| {
        assert trace[k] == opening[k];
      } else {
        assert AddsAt(request, tag, trace, k);
      }
    }
  }

  lemma TellsStoresOnce(request: HttpRequest, before: Trace, response: Response, run: Run)
    requires NothingStored(before) && Tells(request, before + [CacheWrite(response)], response, run)
    ensures |before| < |run.trace| && run.trace[|before|] == CacheWrite(response)
    ensures forall k :: 0 <= k < |run.trace| && run.trace[k].CacheWrite? ==> k == |before|
  {}

  lemma SuccessConcludes(request: HttpRequest, before: Trace, answer: Response, run: Run)
    requires NothingStored(before) && before != [] && before[|before| - 1].Exchanged? && UsesCache(request)
    requires Answers(before[|before| - 1].exchange, answer) && 200 <= answer.status < 300
    requires Concludes(request, before, answer, run)
    ensures |before| < |run.trace| && Stores(run.trace[|before|], before[|before| - 1].exchange)
    ensures forall k :: 0 <= k < |run.trace| && run.trace[k].CacheWrite? ==> k == |before|
  {
    TellsStoresOnce(request, before, Cleaned(answer), run);
    assert IsCleaned(Cleaned(answer), answer);
  }

  ghost predicate StoredNext(trace: Trace, i: nat)
    requires i < |trace| && trace[i].Exchanged?
  {
    && i + 1 < |trace| && Stores(trace[i + 1], trace[i].exchange)
    && forall k :: 0 <= k < |trace| && trace[k].CacheWrite? ==> k == i + 1
  }

  lemma StoryStores(request: HttpRequest, join: (Url, string) -> Option<Url>, run: Run, tag: Option<string>,
                    fetched: Run, i: nat)
    requires IsStory(request, join, run, tag, fetched) && UsesCache(request)
    requires i < |run.trace| && IsSuccessful(run.trace[i])
    ensures StoredNext(run.trace, i)
  {
    ExchangeIsFetched(request, join, run, tag, fetched, i);
    assert fetched.trace[i] == run.trace[i];
    if i + 1 < |fetched.trace| {
      FetchedGoesOn(request, tag, fetched.trace, i, i + 1);
    }
    FetchedStoresNothing(request, tag, fetched.trace);
    SuccessConcludes(request, fetched.trace, fetched.result.value, run);
  }

  // A successful answer to a GET or HEAD is stored, redacted, right after it
  // came in, and nothing else is.
  lemma SuccessIsStored(request: HttpRequest, hooks: Hooks, world: World, i: nat)
    requires hooks.onRequest(request).Ok? && UsesCache(hooks.onRequest(request).value)
    ensures var trace := SendRun(request, hooks, world, Quiet).trace;
            i < |trace| && IsSuccessful(trace[i]) ==> StoredNext(trace, i)
  {
    var final, trace := hooks.onRequest(request).value, SendRun(request, hooks, world, Quiet).trace;
    var whole := Execute(final, world);
    assert trace == whole.trace;
    if i < |trace| && IsSuccessful(trace[i]) {
      var tag, fetched := ExecuteStory(final, world);
      StoryStores(final, world.join, whole, tag, fetched, i);
    }
  }

  // ----- Attempts -----

  // Whether exchange k is followed by another attempt at the same call.
  predicate IsRetried(log: seq<Exchange>, k: nat) {
    k + 1 < |log| && log[k + 1].call == log[k].call
  }

  lemma OwnUrlIsAttempt(request: HttpRequest, join: (Url, string) -> Option<Url>, log: seq<Exchange>, n: nat, k: nat)
    requires RunLog(request, join, log, n) && k < |log|
    ensures Some(log[k].call.hop.url) == request.url <==> k < n
  {
    if k < n {
      AttemptAt(request, join, log, n, k);
    } else {
      NextAt(request, join, log, n, k);
      AttemptAt(request, join, log, n, n - 1);
      VisitedAt(log, n, k, n - 1);
    }
  }

  lemma RetriedInLog(request: HttpRequest, join: (Url, string) -> Option<Url>, log: seq<Exchange>, n: nat, k: nat)
    requires RunLog(request, join, log, n) && k < n
    ensures IsRetried(log, k) <==> IsTransient(request.retry, log[k].outcome) && k + 1 < MostAttempts(request)
  {
    AttemptAt(request, join, log, n, k);
    RetryableIsTransient(request.retry, log[k]);
    if k + 1 < n {
      AttemptAt(request, join, log, n, k + 1);
    } else {
      assert log[..n][k] == log[k];
      if k + 1 < |log| {
        OwnUrlIsAttempt(request, join, log, n, k);
        OwnUrlIsAttempt(request, join, log, n, k + 1);
      }
    }
  }

  // An attempt, which is an exchange with the request's own URL, is followed
  // by another one if and only if it came to something of a kind that is to be
  // retried and fewer than max(1, max_attempts) were made.
  lemma AttemptsByOutcome(request: HttpRequest, hooks: Hooks, world: World, k: nat)
    requires hooks.onRequest(request).Ok?
    ensures var final, log := hooks.onRequest(request).value, Log(SendRun(request, hooks, world, Quiet).trace);
            k < |log| && Some(log[k].call.hop.url) == final.url ==>
              (IsRetried(log, k) <==> IsTransient(final.retry, log[k].outcome) && k + 1 < MostAttempts(final))
  {
    var final, trace := hooks.onRequest(request).value, SendRun(request, hooks, world, Quiet).trace;
    assert trace == Execute(final, world).trace;
    ExecuteIsLogged(final, world);
    var log := Log(trace);
    if k < |log| {
      var n :| RunLog(final, world.join, log, n);
      OwnUrlIsAttempt(final, world.join, log, n, k);
      if k < n { RetriedInLog(final, world.join, log, n, k); }
    }
  }

  // By default these are timeouts, 5xx and throttling, and there are three
  // attempts; a failure to connect and any other answer end them.
  lemma DefaultAttempts(outcome: Outcome)
    ensures IsTransient(Some(DEFAULT_RETRY), outcome) <==>
              match outcome
              case TimedOut => true
              case Failed => false
              case Unsent(e) => e.NetworkTimeout? || e.ServerError? || e.RateLimited?
              case Replied(reply) => reply.status == 429 || 500 <= reply.status < 600
    ensures DEFAULT_RETRY.maxAttempts == 3
  {}

  // ----- Credentials and bodies -----

  ghost predicate CarriesSecret(hop: Hop) {
    hop.body.Some? || exists h :: h in hop.headers && NamesSecret(h.name)
  }

  // An exchange that carries a credential or a body has the scheme, the host
  // and the port of every exchange before it.
  lemma SecretsStayHome(request: HttpRequest, hooks: Hooks, world: World, signal: Signal, j: nat, k: nat)
    ensures var log := Log(SendRun(request, hooks, world, signal).trace);
            j <= k < |log| && CarriesSecret(log[k].call.hop) ==>
              var a, b := log[j].call.hop.url, log[k].call.hop.url;
              && a.scheme == b.scheme && a.host == b.host
              && (if a.port.Some? then a.port.value else if a.scheme == "https" then 443 else 80) ==
                 (if b.port.Some? then b.port.value else if b.scheme == "https" then 443 else 80)
  {
    var log := Log(SendRun(request, hooks, world, signal).trace);
    if j <= k < |log| && CarriesSecret(log[k].call.hop) {
      SendIsSafe(request, hooks, world, signal, k);
      var final := hooks.onRequest(request).value;
      if !SameSiteUpTo(log, k) {
        RedactedIsNotSecret(final.headers);
      }
      assert SameSite(log[j].call.hop.url, log[0].call.hop.url) && SameSite(log[k].call.hop.url, log[0].call.hop.url);
    }
  }

  // As long as those three stay what they are, no header is dropped, and the
  // body only by a 303, or a 301 or 302 to a POST.
  lemma NothingIsDroppedAtHome(request: HttpRequest, hooks: Hooks, world: World, signal: Signal, k: nat)
    requires hooks.onRequest(request).Ok?
    ensures var final, log := hooks.onRequest(request).value, Log(SendRun(request, hooks, world, signal).trace);
            k < |log| && (forall j :: 0 <= j <= k ==> SameSite(log[j].call.hop.url, log[0].call.hop.url)) ==>
              && log[k].call.hop.headers == final.headers
              && (log[k].call.hop.body == final.body || exists j :: 0 < j <= k && RewritesAt(log, j))
  {
    var log := Log(SendRun(request, hooks, world, signal).trace);
    if k < |log| {
      SendIsSafe(request, hooks, world, signal, k);
    }
  }

  // ----- Where redirects lead -----

  // The answer points from its own URL to `next`.
  ghost predicate PointsTo(join: (Url, string) -> Option<Url>, x: Exchange, next: Url) {
    && x.outcome.Replied? && 300 <= x.outcome.reply.status < 400 && x.outcome.reply.status != 304
    && exists k ::
         && IsFirstNamed(x.outcome.reply.headers, "location", k)
         && join(x.call.hop.url, x.outcome.reply.headers[k].value) == Some(next)
  }

  lemma StepPoints(request: HttpRequest, join: (Url, string) -> Option<Url>, visited: seq<Url>, prev: Exchange,
                   next: Exchange)
    requires HopStep(request, join, visited, prev, next)
    ensures PointsTo(join, prev, next.call.hop.url)
  {
    var headers := prev.outcome.reply.headers;
    var location := LocationOf(headers).value;
    LocationIsFirst(headers, location);
    PlanHopSpec(request, join, visited, prev.outcome.reply.status, location, prev.call.hop);
  }

  // An exchange with another URL than the request's own goes where the answer
  // before it points, by the first `Location` header it has.
  lemma HopsFollowLocation(request: HttpRequest, hooks: Hooks, world: World, signal: Signal, k: nat)
    requires hooks.onRequest(request).Ok?
    ensures var final, log := hooks.onRequest(request).value, Log(SendRun(request, hooks, world, signal).trace);
            k < |log| && Some(log[k].call.hop.url) != final.url ==>
              k > 0 && PointsTo(world.join, log[k - 1], log[k].call.hop.url)
  {
    var final, log := hooks.onRequest(request).value, Log(SendRun(request, hooks, world, signal).trace);
    CutRun(request, hooks, world, signal);
    var whole := Log(Execute(final, world).trace);
    if k < |log| && Some(log[k].call.hop.url) != final.url {
      ExecuteIsLogged(final, world);
      var n: nat :| RunLog(final, world.join, whole, n);
      assert whole[k] == log[k];
      OwnUrlIsAttempt(final, world.join, whole, n, k);
      StepAt(final, world.join, whole, n, k);
      StepPoints(final, world.join, Urls(whole[n - 1..k]), whole[k - 1], whole[k]);
    }
  }

  // ----- Validation and the abort signal -----

  // Exactly which requests pass validation.
  lemma ValidRequests(request: HttpRequest, syntax: Syntax)
    ensures Validate(request, syntax).None? <==>
              && request.url.Some? && (request.url.value.scheme == "http" || request.url.value.scheme == "https")
              && request.url.value.host.Some? && InScope(request.scope, HostStr(request.url.value.host.value))
              && forall h :: h in request.headers ==> ValidHeader(syntax, h) && !NamesFraming(h.name)
  {
    ValidateHeadersSpec(syntax, request.headers);
    if request.url.Some? { ScopeAccepts(request.scope, request.url.value); }
    forall h | h in request.headers ensures IsBlocked(h.name) <==> NamesFraming(h.name) {
      BlockedAreFraming(h.name);
    }
  }

  // With which error the others are refused.
  lemma RefusedRequests(request: HttpRequest, syntax: Syntax)
    requires Validate(request, syntax).Some?
    ensures var error := Validate(request, syntax).value;
            if request.url.None? then error == UrlError
            else
              var url := request.url.value;
              if url.scheme != "http" && url.scheme != "https" then error == InvalidScheme
              else if url.host.None? then error == NoHost
              else if !InScope(request.scope, HostStr(url.host.value)) then error == RedirectBlocked
              else error == HeaderError || error == HeaderInjectionDetected
  {
    HeaderErrors(syntax, request.headers);
  }

  lemma {:induction false} HeaderErrors(syntax: Syntax, headers: seq<Header>)
    ensures match ValidateHeaders(syntax, headers)
            case None => true
            case Some(error) => error == HeaderError || error == HeaderInjectionDetected
  {
    if headers != [] { HeaderErrors(syntax, headers[1..]); }
  }

  // An abort signal that has fired keeps everything from happening; one that
  // fires before the run is over leaves what was done by then, and in both
  // cases the caller is told of the abort.
  lemma SignalDecides(request: HttpRequest, hooks: Hooks, world: World, cut: nat)
    requires hooks.onRequest(request).Ok?
    ensures SendRun(request, hooks, world, Fired) == Run([], Err(RequestAborted))
    ensures var whole := SendRun(request, hooks, world, Quiet);
            SendRun(request, hooks, world, Firing(cut)) ==
            if cut <= |whole.trace| then Run(whole.trace[..cut], Err(RequestAborted)) else whole
  {}

  // The first exchange is the request itself.
  lemma FirstExchange(request: HttpRequest, hooks: Hooks, world: World, signal: Signal)
    requires hooks.onRequest(request).Ok?
    ensures var final, log := hooks.onRequest(request).value, Log(SendRun(request, hooks, world, signal).trace);
            log != [] ==>
              final.url.Some? && log[0].call.hop == Hop(final.url.value, final.verb, final.headers, final.body)
  {
    var final, log := hooks.onRequest(request).value, Log(SendRun(request, hooks, world, signal).trace);
    CutRun(request, hooks, world, signal);
    if log != [] {
      ExecuteIsLogged(final, world);
      var whole := Log(Execute(final, world).trace);
      var n :| RunLog(final, world.join, whole, n);
      assert whole[0] == log[0];
    }
  }

  // What an interceptor refuses is refused; what it returns is what counts.
  lemma InterceptorsDecide(request: HttpRequest, hooks: Hooks, world: World)
    ensures var run := SendRun(request, hooks, world, Quiet);
            match hooks.onRequest(request)
            case Err(e) => run == Run([], Err(e))
            case Ok(final) =>
              var whole := Execute(final, world);
              run.trace == whole.trace &&
              match whole.result
              case Err(e) => run.result == Err(e)
              case Ok(seen) =>
                match hooks.onResponse(seen)
                case Err(e) => run.result == Err(e)
                case Ok(response) => run.result.Ok? && IsCleaned(run.result.value, response)
  {}

  // ----- The first pin -----

  // A hop back to the host and port of the pin.
  predicate IsPinned(request: HttpRequest, pin: Option<Pin>, url: Url) {
    && pin.Some? && Revalidate(url).Ok?
    && Revalidate(url).value.host.host == pin.value.host && Revalidate(url).value.port == request.parsed.port
  }

  predicate KeepsPin(request: HttpRequest, pin: Option<Pin>, e: Event) {
    e.Exchanged? ==>
      var url := e.exchange.call.hop.url;
      Some(url) == request.url || IsPinned(request, pin, url) ==> e.exchange.call.pin == pin
  }

  ghost predicate PinsKept(request: HttpRequest, pin: Option<Pin>, trace: Trace) {
    forall i :: 0 <= i < |trace| ==> KeepsPin(request, pin, trace[i])
  }

  lemma SendKeepsPin(request: HttpRequest, world: World, trace: Trace, call: Call, pin: Option<Pin>)
    requires PinsKept(request, pin, trace)
    requires Some(call.hop.url) == request.url || IsPinned(request, pin, call.hop.url) ==> call.pin == pin
    ensures PinsKept(request, pin, SendTarget(world, trace, call).trace)
  {}

  lemma {:induction false} AttemptsKeepFirstPin(request: HttpRequest, world: World, trace: Trace, call: Call,
                                                left: nat)
    requires left > 0 && PinsKept(request, call.pin, trace)
    ensures PinsKept(request, call.pin, Attempts(request, world, trace, call, left).trace)
    decreases left
  {
    var sent := SendTarget(world, trace, call);
    SendKeepsPin(request, world, trace, call, call.pin);
    if Retryable(request.retry, sent.result) && left > 1 {
      AttemptsKeepFirstPin(request, world, sent.trace, call, left - 1);
    }
  }

  lemma HopKeepsPin(request: HttpRequest, world: World, trace: Trace, pin: Option<Pin>, hop: Hop)
    requires PinsKept(request, pin, trace) && Some(hop.url) != request.url
    ensures var pinned := HopPin(request, world, trace, pin, hop.url);
            && PinsKept(request, pin, pinned.trace)
            && (pinned.result.Ok? ==>
                  PinsKept(request, pin, SendTarget(world, pinned.trace, Call(pinned.result.value, hop, None)).trace))
  {
    var pinned := HopPin(request, world, trace, pin, hop.url);
    if pinned.result.Ok? {
      SendKeepsPin(request, world, pinned.trace, Call(pinned.result.value, hop, None), pin);
    }
  }

  lemma {:induction false} FollowKeepsPin(request: HttpRequest, world: World, trace: Trace, pin: Option<Pin>,
                                          visited: seq<Url>, last: Hop, current: Response)
    requires request.url.Some? && request.url.value in visited && PinsKept(request, pin, trace)
    ensures PinsKept(request, pin, Follow(request, world, trace, pin, visited, last, current).trace)
    decreases if |visited| < request.policy.maxRedirects then request.policy.maxRedirects - |visited| else 0
  {
    var location := LocationOf(current.headers);
    if IsRedirect(current.status) && location.Ok? {
      var planned := PlanHop(request, world.join, visited, current.status, location.value, last);
      if planned.Ok? {
        PlannedHopIsEarly(request, world.join, visited, current.status, location.value, last);
        PlannedHop(request, world.join, visited, current.status, location.value, last);
        var hop := planned.value;
        HopKeepsPin(request, world, trace, pin, hop);
        var pinned := HopPin(request, world, trace, pin, hop.url);
        if pinned.result.Ok? {
          var sent := SendTarget(world, pinned.trace, Call(pinned.result.value, hop, None));
          if sent.result.Ok? {
            FollowKeepsPin(request, world, sent.trace, pin, visited + [hop.url], hop, sent.result.value);
          }
        }
      }
    }
  }

  lemma AfterPinKeepsPin(request: HttpRequest, world: World, trace: Trace, call: Call)
    requires request.url.Some? && call.hop == FirstHop(request) && PinsKept(request, call.pin, trace)
    ensures PinsKept(request, call.pin, AfterPin(request, world, trace, call).trace)
  {
    var tried := Attempts(request, world, trace, call, MaxAttempts(request));
    AttemptsKeepFirstPin(request, world, trace, call, MaxAttempts(request));
    if tried.result.Ok? && request.policy.followRedirects {
      FollowKeepsPin(request, world, tried.trace, call.pin, [call.hop.url], call.hop, tried.result.value);
    }
  }

  ghost predicate IsSilent(trace: Trace) {
    forall i :: 0 <= i < |trace| ==> !trace[i].Exchanged?
  }

  lemma FetchKeepsPin(request: HttpRequest, world: World, trace: Trace, etag: Option<string>)
    returns (pin: Option<Pin>)
    requires request.url.Some? && IsSilent(trace)
    ensures PinsKept(request, pin, Fetch(request, world, trace, etag).trace)
  {
    var pinned := PinRun(request.allowPrivate, world, trace, request.parsed.host, request.parsed.port);
    pin := None;
    if pinned.result.Ok? {
      pin := pinned.result.value;
      AfterPinKeepsPin(request, world, pinned.trace, Call(pin, FirstHop(request), etag));
    }
  }

  lemma ServedKeepsPin(request: HttpRequest, world: World, trace: Trace) returns (pin: Option<Pin>)
    requires request.url.Some? && IsSilent(trace)
    ensures PinsKept(request, pin, Served(request, world, trace).trace)
  {
    var (read, hit) := ReadCache(request, world, trace);
    var (ready, etag) := ReadEtag(request, world, read);
    pin := FetchKeepsPin(request, world, ready, etag);
    var fetched := Fetch(request, world, ready, etag);
    if fetched.result.Ok? {
      FinishKeepsPin(request, world, fetched.trace, fetched.result.value, pin);
    }
  }

  lemma FinishKeepsPin(request: HttpRequest, world: World, trace: Trace, answer: Response, pin: Option<Pin>)
    requires PinsKept(request, pin, trace)
    ensures PinsKept(request, pin, Finish(request, world, trace, answer).trace)
  {}

  lemma ExecuteKeepsPin(request: HttpRequest, world: World) returns (pin: Option<Pin>)
    ensures PinsKept(request, pin, Execute(request, world).trace)
  {
    pin := None;
    if Validate(request, world.syntax).None? {
      var told := Tell(request, world, []);
      var admitted := Admit(request, world, told.trace);
      if told.refusal.None? && admitted.refusal.None? {
        pin := ServedKeepsPin(request, world, admitted.trace);
      }
    }
  }

  // All attempts use one pin, and so does every hop back to its host and port.
  lemma FirstPinIsKept(request: HttpRequest, hooks: Hooks, world: World, signal: Signal) returns (pin: Option<Pin>)
    requires hooks.onRequest(request).Ok?
    ensures PinsKept(hooks.onRequest(request).value, pin, SendRun(request, hooks, world, signal).trace)
  {
    pin := ExecuteKeepsPin(hooks.onRequest(request).value, world);
    CutRun(request, hooks, world, signal);
  }
}
