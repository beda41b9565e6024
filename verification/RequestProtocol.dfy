// The order of a run: what it opens with, which traffic follows, and for what
// reason it ends with which result.
module RequestProtocol {
  import opened Wrappers
  import opened Addresses
  import opened UrlValidation
  import opened HeaderValidation
  import opened Retry
  import opened RequestHandler
  import opened RequestSafety
  import opened RequestTrace

  // ----- What a run opens with -----

  predicate UsesCache(request: HttpRequest) {
    request.cached && (request.verb == "GET" || request.verb == "HEAD")
  }

  function Gates(request: HttpRequest): Trace {
    (if request.tracked then [Reported(true)] else []) + (if request.limited then [Permitted(None)] else [])
  }

  function Opening(request: HttpRequest, tag: Option<string>): Trace {
    Gates(request) + if UsesCache(request) then [CacheRead(None), EtagRead(tag)] else []
  }

  // ----- Retries -----

  // Which kind of failure makes an outcome worth another attempt.
  predicate IsTransient(retry: Option<RetryConfig>, outcome: Outcome) {
    && retry.Some?
    && match outcome
       case TimedOut => NetworkTimeoutKind in retry.value.retryOn
       case Failed => ConnectionKind in retry.value.retryOn
       case Unsent(e) =>
         (if e.NetworkTimeout? then NetworkTimeoutKind
          else if e.ServerError? then ServerErrorKind
          else if e.RateLimited? then RateLimitedKind
          else if e.RequestFailed? then ConnectionKind
          else OtherKind) in retry.value.retryOn
       case Replied(reply) =>
         || (reply.status == 429 && RateLimitedKind in retry.value.retryOn)
         || (500 <= reply.status < 600 && ServerErrorKind in retry.value.retryOn)
  }

  lemma RetryableIsTransient(retry: Option<RetryConfig>, x: Exchange)
    ensures Retryable(retry, ResultOf(x)) <==> IsTransient(retry, x.outcome)
  {}

  // ----- Traffic -----

  // Lookups and exchanges. The attempts, which are the exchanges with the
  // request's own URL, carry the tag of the stored response; hops carry none.
  predicate IsTraffic(request: HttpRequest, tag: Option<string>, e: Event) {
    match e
    case Lookup(_, _) => true
    case Exchanged(x) => x.call.etag == if Some(x.call.hop.url) == request.url then tag else None
    case _ => false
  }

  // After an exchange the traffic goes on only if it is worth another attempt
  // or brought a redirect to follow.
  predicate GoesOn(request: HttpRequest, x: Exchange) {
    || IsTransient(request.retry, x.outcome)
    || (request.policy.followRedirects && x.outcome.Replied? && !IsFinal(x.outcome.reply.status))
  }

  predicate IsOpen(request: HttpRequest, trace: Trace) {
    trace != [] && trace[|trace| - 1].Exchanged? ==> GoesOn(request, trace[|trace| - 1].exchange)
  }

  predicate AddsAt(request: HttpRequest, tag: Option<string>, trace: Trace, i: nat)
    requires i < |trace|
  {
    IsTraffic(request, tag, trace[i]) && IsOpen(request, trace[..i])
  }

  ghost predicate Adds(request: HttpRequest, tag: Option<string>, before: Trace, after: Trace) {
    before <= after && forall i :: |before| <= i < |after| ==> AddsAt(request, tag, after, i)
  }

  lemma AddsOne(request: HttpRequest, tag: Option<string>, before: Trace, e: Event)
    requires IsTraffic(request, tag, e) && IsOpen(request, before)
    ensures Adds(request, tag, before, before + [e])
  {
    assert (before + [e])[..|before|] == before;
  }

  lemma AddsMore(request: HttpRequest, tag: Option<string>, a: Trace, b: Trace, c: Trace)
    requires Adds(request, tag, a, b) && Adds(request, tag, b, c)
    ensures Adds(request, tag, a, c)
  {
    forall i | |a| <= i < |c| ensures AddsAt(request, tag, c, i) {
      if i < |b| {
        assert AddsAt(request, tag, b, i);
        assert b[..i] == c[..i];
      }
    }
  }

  // ----- How the traffic ends -----

  // What an exchange comes to.
  ghost predicate ByOutcome(x: Exchange, answer: Result<Response>) {
    match x.outcome
    case Unsent(e) => answer == Err(e)
    case TimedOut => answer == Err(NetworkTimeout)
    case Failed => answer == Err(RequestFailed)
    case Replied(_) => answer.Ok? && Answers(x, answer.value)
  }

  // A lookup that brought nothing, or a blocked address.
  ghost predicate IsRefused(allowPrivate: bool, found: Result<seq<IpAddr>>, answer: Result<Response>) {
    if found.Err? || found.value == [] then answer == Err(InvalidHost)
    else
      !allowPrivate && (exists ip :: ip in found.value && IsBlockedIp(ip)) && answer == Err(PrivateNetworkAccess)
  }

  // `visited` has the URLs of the exchanges so far, each once.
  ghost predicate Lists(visited: seq<Url>, log: seq<Exchange>) {
    && (forall i, j :: 0 <= i < j < |visited| ==> visited[i] != visited[j])
    && (forall url :: url in visited <==> url in Urls(log))
  }

  // The answer points nowhere, or to where no redirect may go.
  ghost predicate LeadsNowhere(request: HttpRequest, join: (Url, string) -> Option<Url>, log: seq<Exchange>,
                               from: Url, headers: seq<Header>)
  {
    exists visited :: Lists(visited, log) &&
      forall k | IsFirstNamed(headers, "location", k) ::
        var next := join(from, headers[k].value); next.Some? ==> !MayHop(request, visited, next.value)
  }

  // The traffic ends with a refused lookup, a failed exchange, an answer that
  // is not to be followed, or a redirect that leads nowhere.
  ghost predicate EndsTraffic(request: HttpRequest, join: (Url, string) -> Option<Url>, trace: Trace,
                              answer: Result<Response>)
  {
    trace != [] &&
    match trace[|trace| - 1]
    case Lookup(_, found) => IsRefused(request.allowPrivate, found, answer)
    case Exchanged(x) =>
      if request.policy.followRedirects && x.outcome.Replied? && !IsFinal(x.outcome.reply.status) then
        answer.Err? && LeadsNowhere(request, join, Log(trace), x.call.hop.url, x.outcome.reply.headers)
      else ByOutcome(x, answer)
    case _ => false
  }

  lemma PinRunEnds(request: HttpRequest, world: World, trace: Trace, host: ValidatedHost, port: nat,
                   tag: Option<string>)
    requires IsOpen(request, trace)
    ensures var run := PinRun(request.allowPrivate, world, trace, host, port);
            && Adds(request, tag, trace, run.trace) && Log(run.trace) == Log(trace) && IsOpen(request, run.trace)
            && (run.result.Err? ==> EndsTraffic(request, world.join, run.trace, Err(run.result.error)))
  {
    var found := world.dns(trace, host.host);
    PinRunLog(request.allowPrivate, world, trace, host, port);
    if host.ipAddr.None? {
      AddsOne(request, tag, trace, Lookup(host.host, found));
      PinIsRefused(request.allowPrivate, host.host, port, found);
    }
  }

  lemma PinIsRefused(allowPrivate: bool, host: string, port: nat, found: Result<seq<IpAddr>>)
    ensures var pin := Pinned(allowPrivate, host, port, found);
            pin.Err? ==> IsRefused(allowPrivate, found, Err(pin.error))
  {
    if found.Ok? {
      FirstOccurrencesSpec(found.value);
      var ips := FirstOccurrences(found.value);
      if k :| 0 <= k < |ips| && IsBlockedIp(ips[k]) { assert ips[k] in found.value; }
    }
  }

  lemma SendEnds(request: HttpRequest, world: World, trace: Trace, call: Call, tag: Option<string>)
    requires IsOpen(request, trace) && call.etag == if Some(call.hop.url) == request.url then tag else None
    ensures var sent, x := SendTarget(world, trace, call), Exchange(call, Deliver(world, trace, call));
            && sent.trace == trace + [Exchanged(x)] && sent.result == ResultOf(x) && ByOutcome(x, sent.result)
            && Adds(request, tag, trace, sent.trace) && Log(sent.trace) == Log(trace) + [x]
  {
    LogAppend(trace, Exchanged(Exchange(call, Deliver(world, trace, call))));
    AddsOne(request, tag, trace, Exchanged(Exchange(call, Deliver(world, trace, call))));
  }

  // What a run of attempts leaves behind.
  ghost predicate Attempted(call: Call, run: Run) {
    && run.trace != [] && run.trace[|run.trace| - 1].Exchanged?
    && run.trace[|run.trace| - 1].exchange.call == call
    && ByOutcome(run.trace[|run.trace| - 1].exchange, run.result)
  }

  lemma {:induction false} AttemptsEnd(request: HttpRequest, world: World, trace: Trace, call: Call, left: nat,
                                       tag: Option<string>)
    requires left > 0 && IsOpen(request, trace)
    requires call.etag == if Some(call.hop.url) == request.url then tag else None
    ensures var run := Attempts(request, world, trace, call, left);
            Adds(request, tag, trace, run.trace) && Attempted(call, run)
    decreases left
  {
    var sent := SendTarget(world, trace, call);
    SendEnds(request, world, trace, call, tag);
    RetryableIsTransient(request.retry, Exchange(call, Deliver(world, trace, call)));
    if Retryable(request.retry, sent.result) && left > 1 {
      AttemptsEnd(request, world, sent.trace, call, left - 1, tag);
      AddsMore(request, tag, trace, sent.trace, Attempts(request, world, trace, call, left).trace);
    }
  }

  // ----- The walk -----

  lemma ListsOneMore(visited: seq<Url>, log: seq<Exchange>, x: Exchange)
    requires Lists(visited, log) && x.call.hop.url !in visited
    ensures Lists(visited + [x.call.hop.url], log + [x])
  {
    var url := x.call.hop.url;
    assert Urls(log + [x]) == Urls(log) + [url];
  }

  lemma NoLocation(headers: seq<Header>)
    requires LocationOf(headers).Err?
    ensures forall k :: !IsFirstNamed(headers, "location", k)
  {
    forall k ensures !IsFirstNamed(headers, "location", k) {
      if IsFirstNamed(headers, "location", k) { LocationIsFirst(headers, headers[k].value); }
    }
  }

  lemma OneFirst(headers: seq<Header>, name: string, j: int, k: int)
    requires IsFirstNamed(headers, name, j) && IsFirstNamed(headers, name, k)
    ensures j == k
  {}

  // Where the walk cannot go on from an answer, the answer leads nowhere.
  lemma WalkIsStuck(request: HttpRequest, join: (Url, string) -> Option<Url>, visited: seq<Url>,
                    log: seq<Exchange>, status: nat, headers: seq<Header>, last: Hop)
    requires Lists(visited, log)
    requires var location := LocationOf(headers);
             location.Ok? ==> PlanHop(request, join, visited, status, location.value, last).Err?
    ensures LeadsNowhere(request, join, log, last.url, headers)
  {
    var location := LocationOf(headers);
    if location.Err? {
      NoLocation(headers);
    } else {
      LocationIsFirst(headers, location.value);
      var j :| IsFirstNamed(headers, "location", j) && headers[j].value == location.value;
      PlanHopSpec(request, join, visited, status, location.value, last);
      forall k | IsFirstNamed(headers, "location", k)
        ensures var next := join(last.url, headers[k].value);
                next.Some? ==> !MayHop(request, visited, next.value)
      {
        OneFirst(headers, "location", j, k);
      }
    }
  }

  // The trace ends with the answer `current` to `last`.
  ghost predicate At(trace: Trace, last: Hop, current: Response) {
    && trace != [] && trace[|trace| - 1].Exchanged?
    && trace[|trace| - 1].exchange.call.hop == last && Answers(trace[|trace| - 1].exchange, current)
  }

  lemma HopPinEnds(request: HttpRequest, world: World, trace: Trace, pin: Option<Pin>, url: Url, tag: Option<string>)
    requires Revalidate(url).Ok? && IsOpen(request, trace)
    ensures var run := HopPin(request, world, trace, pin, url);
            && Adds(request, tag, trace, run.trace) && Log(run.trace) == Log(trace) && IsOpen(request, run.trace)
            && (run.result.Err? ==> EndsTraffic(request, world.join, run.trace, Err(run.result.error)))
  {
    var parsed := Revalidate(url).value;
    PinRunEnds(request, world, trace, parsed.host, parsed.port, tag);
  }

  // One hop: its lookup may be refused, or its exchange fail.
  lemma HopEnds(request: HttpRequest, world: World, trace: Trace, pin: Option<Pin>, visited: seq<Url>, hop: Hop,
                tag: Option<string>)
    requires request.url.Some? && request.url.value in visited && hop.url !in visited && Revalidate(hop.url).Ok?
    requires Lists(visited, Log(trace)) && IsOpen(request, trace)
    ensures var pinned := HopPin(request, world, trace, pin, hop.url);
            if pinned.result.Err? then
              && Adds(request, tag, trace, pinned.trace)
              && EndsTraffic(request, world.join, pinned.trace, Err(pinned.result.error))
            else
              var sent := SendTarget(world, pinned.trace, Call(pinned.result.value, hop, None));
              && Adds(request, tag, trace, sent.trace) && Lists(visited + [hop.url], Log(sent.trace))
              && (if sent.result.Err? then EndsTraffic(request, world.join, sent.trace, sent.result)
                  else At(sent.trace, hop, sent.result.value))
  {
    HopPinEnds(request, world, trace, pin, hop.url, tag);
    var pinned := HopPin(request, world, trace, pin, hop.url);
    if pinned.result.Ok? {
      var call := Call(pinned.result.value, hop, None);
      SendEnds(request, world, pinned.trace, call, tag);
      AddsMore(request, tag, trace, pinned.trace, SendTarget(world, pinned.trace, call).trace);
      ListsOneMore(visited, Log(trace), Exchange(call, Deliver(world, pinned.trace, call)));
    }
  }

  lemma PlannedHop(request: HttpRequest, join: (Url, string) -> Option<Url>, visited: seq<Url>, status: nat,
                   location: string, last: Hop)
    requires PlanHop(request, join, visited, status, location, last).Ok?
    ensures var hop := PlanHop(request, join, visited, status, location, last).value;
            hop.url !in visited && Revalidate(hop.url).Ok?
  {
    PlanHopSpec(request, join, visited, status, location, last);
    AcceptedUrls(PlanHop(request, join, visited, status, location, last).value.url);
  }

  lemma {:induction false} FollowEnds(request: HttpRequest, world: World, trace: Trace, pin: Option<Pin>,
                                      visited: seq<Url>, last: Hop, current: Response, tag: Option<string>)
    requires request.url.Some? && request.url.value in visited && request.policy.followRedirects
    requires Lists(visited, Log(trace)) && At(trace, last, current)
    ensures var run := Follow(request, world, trace, pin, visited, last, current);
            Adds(request, tag, trace, run.trace) && EndsTraffic(request, world.join, run.trace, run.result)
    decreases if |visited| < request.policy.maxRedirects then request.policy.maxRedirects - |visited| else 0
  {
    var location := LocationOf(current.headers);
    if IsRedirect(current.status) {
      if location.Err? || PlanHop(request, world.join, visited, current.status, location.value, last).Err? {
        WalkIsStuck(request, world.join, visited, Log(trace), current.status, current.headers, last);
      } else {
        PlannedHop(request, world.join, visited, current.status, location.value, last);
        PlannedHopIsEarly(request, world.join, visited, current.status, location.value, last);
        var hop := PlanHop(request, world.join, visited, current.status, location.value, last).value;
        HopEnds(request, world, trace, pin, visited, hop, tag);
        var pinned := HopPin(request, world, trace, pin, hop.url);
        if pinned.result.Ok? {
          var sent := SendTarget(world, pinned.trace, Call(pinned.result.value, hop, None));
          if sent.result.Ok? {
            FollowEnds(request, world, sent.trace, pin, visited + [hop.url], hop, sent.result.value, tag);
            var run := Follow(request, world, trace, pin, visited, last, current);
            AddsMore(request, tag, trace, sent.trace, run.trace);
          }
        }
      }
    }
  }

  lemma OneUrl(call: Call, log: seq<Exchange>)
    requires log != [] && forall k :: 0 <= k < |log| ==> log[k].call == call
    ensures Lists([call.hop.url], log)
  {
    assert Urls(log)[0] == call.hop.url;
  }

  lemma AttemptsVisitOne(request: HttpRequest, world: World, trace: Trace, call: Call, left: nat)
    requires Log(trace) == [] && left > 0
    ensures Lists([call.hop.url], Log(Attempts(request, world, trace, call, left).trace))
  {
    var log := AttemptsAreLogged(request, world, trace, call, left);
    assert Log(Attempts(request, world, trace, call, left).trace) == log;
    OneUrl(call, log);
  }

  lemma AttemptedEnds(request: HttpRequest, join: (Url, string) -> Option<Url>, call: Call, run: Run)
    requires Attempted(call, run) && (run.result.Err? || !request.policy.followRedirects)
    ensures EndsTraffic(request, join, run.trace, run.result)
  {}

  // The attempts and the walk after them.
  ghost function AfterPin(request: HttpRequest, world: World, trace: Trace, call: Call): Run
    requires request.url.Some?
  {
    var tried := Attempts(request, world, trace, call, MaxAttempts(request));
    if tried.result.Err? || !request.policy.followRedirects then tried
    else Follow(request, world, tried.trace, call.pin, [call.hop.url], call.hop, tried.result.value)
  }

  lemma AfterPinEnds(request: HttpRequest, world: World, trace: Trace, call: Call, tag: Option<string>)
    requires request.url.Some? && call.hop == FirstHop(request) && call.etag == tag
    requires Log(trace) == [] && IsOpen(request, trace)
    ensures var run := AfterPin(request, world, trace, call);
            Adds(request, tag, trace, run.trace) && EndsTraffic(request, world.join, run.trace, run.result)
  {
    var left := MaxAttempts(request);
    var tried := Attempts(request, world, trace, call, left);
    AttemptsEnd(request, world, trace, call, left, tag);
    if tried.result.Ok? && request.policy.followRedirects {
      AttemptsVisitOne(request, world, trace, call, left);
      FollowEnds(request, world, tried.trace, call.pin, [call.hop.url], call.hop, tried.result.value, tag);
      AddsMore(request, tag, trace, tried.trace, AfterPin(request, world, trace, call).trace);
    } else {
      AttemptedEnds(request, world.join, call, tried);
    }
  }

  lemma FetchEnds(request: HttpRequest, world: World, trace: Trace, tag: Option<string>)
    requires request.url.Some? && Log(trace) == [] && IsOpen(request, trace)
    ensures var run := Fetch(request, world, trace, tag);
            Adds(request, tag, trace, run.trace) && EndsTraffic(request, world.join, run.trace, run.result)
  {
    var host, port := request.parsed.host, request.parsed.port;
    var pinned := PinRun(request.allowPrivate, world, trace, host, port);
    PinRunEnds(request, world, trace, host, port, tag);
    if pinned.result.Ok? {
      var call := Call(pinned.result.value, FirstHop(request), tag);
      AfterPinEnds(request, world, pinned.trace, call, tag);
      AddsMore(request, tag, trace, pinned.trace, AfterPin(request, world, pinned.trace, call).trace);
    }
  }

  // ----- What a run ends with -----

  // The run ends with a response, unless the tracker has it aborted.
  ghost predicate Tells(request: HttpRequest, before: Trace, response: Response, run: Run) {
    if request.tracked then
      exists go :: run == Run(before + [Reported(go)], if go then Ok(response) else Err(RequestAborted))
    else run == Run(before, Ok(response))
  }

  function Cleaned(answer: Response): Response {
    Response(answer.status, Redact(answer.headers), answer.body, answer.url)
  }

  // After a 304 a stored response stands in, if there still is one.
  function Revalidated(hit: Option<Response>, answer: Response): Response {
    if hit.Some? then hit.value.(status := 304) else Cleaned(answer)
  }

  // What becomes of the answer the traffic ends with.
  ghost predicate Concludes(request: HttpRequest, before: Trace, answer: Response, run: Run) {
    if answer.status == 429 then run == Run(before, Err(RateLimited))
    else if 500 <= answer.status < 600 then run == Run(before, Err(ServerError(answer.status)))
    else if UsesCache(request) && 200 <= answer.status < 300 then
      Tells(request, before + [CacheWrite(Cleaned(answer))], Cleaned(answer), run)
    else if UsesCache(request) && answer.status == 304 then
      exists hit: Option<Response> :: Tells(request, before + [CacheRead(hit)], Revalidated(hit, answer), run)
    else Tells(request, before, Cleaned(answer), run)
  }

  lemma TellTells(request: HttpRequest, world: World, before: Trace, response: Response)
    ensures var told := Tell(request, world, before);
            Tells(request, before, response,
                  Run(told.trace, if told.refusal.Some? then Err(told.refusal.value) else Ok(response)))
  {}

  lemma FinishConcludes(request: HttpRequest, world: World, before: Trace, answer: Response)
    ensures Concludes(request, before, answer, Finish(request, world, before, answer))
  {
    var clean := Redacted(answer);
    assert clean == Cleaned(answer);
    if StatusError(answer.status).None? {
      if UsesCache(request) && answer.status == 304 {
        var hit := world.readCache(before);
        TellTells(request, world, before + [CacheRead(hit)], Revalidated(hit, answer));
      } else if UsesCache(request) && 200 <= answer.status < 300 {
        TellTells(request, world, before + [CacheWrite(clean)], clean);
      } else {
        TellTells(request, world, before, clean);
      }
    }
  }

  // ----- The whole of a run -----

  // Sent back by the tracker, by the limiter, or served from the cache.
  ghost predicate IsAborted(request: HttpRequest, run: Run) {
    request.tracked && run == Run([Reported(false)], Err(RequestAborted))
  }

  ghost predicate IsUnpermitted(request: HttpRequest, run: Run) {
    request.limited && exists e ::
      run == Run((if request.tracked then [Reported(true)] else []) + [Permitted(Some(e))], Err(e))
  }

  ghost predicate IsHit(request: HttpRequest, run: Run) {
    UsesCache(request) && exists hit :: Tells(request, Gates(request) + [CacheRead(Some(hit))], hit, run)
  }

  // Answered by traffic, or ended by it.
  ghost predicate IsFetched(request: HttpRequest, join: (Url, string) -> Option<Url>, run: Run,
                            tag: Option<string>, fetched: Run)
  {
    && (tag.Some? ==> UsesCache(request))
    && Adds(request, tag, Opening(request, tag), fetched.trace)
    && EndsTraffic(request, join, fetched.trace, fetched.result)
    && match fetched.result
       case Err(_) => run == fetched
       case Ok(answer) => Concludes(request, fetched.trace, answer, run)
  }

  // One of these, or refused by validation.
  ghost predicate IsStory(request: HttpRequest, join: (Url, string) -> Option<Url>, run: Run,
                          tag: Option<string>, fetched: Run)
  {
    || (run.trace == [] && run.result.Err?) || IsAborted(request, run) || IsUnpermitted(request, run)
    || IsHit(request, run) || IsFetched(request, join, run, tag, fetched)
  }

  // The part of a run after the gates.
  lemma ServedStory(request: HttpRequest, world: World) returns (tag: Option<string>, fetched: Run)
    requires request.url.Some?
    ensures var run := Served(request, world, Gates(request));
            IsHit(request, run) || IsFetched(request, world.join, run, tag, fetched)
  {
    var gates := Gates(request);
    var (read, hit) := ReadCache(request, world, gates);
    if hit.Some? {
      tag, fetched := None, Run([], Err(InternalError));
      TellTells(request, world, read, hit.value);
    } else {
      tag := ReadEtag(request, world, read).1;
      OpeningLog(request, tag);
      assert ReadEtag(request, world, read).0 == Opening(request, tag);
      fetched := Fetch(request, world, Opening(request, tag), tag);
      FetchedStory(request, world, tag);
    }
  }

  lemma FetchedStory(request: HttpRequest, world: World, tag: Option<string>)
    requires request.url.Some? && Log(Opening(request, tag)) == [] && (tag.Some? ==> UsesCache(request))
    ensures var fetched := Fetch(request, world, Opening(request, tag), tag);
            var run := if fetched.result.Err? then fetched
                       else Finish(request, world, fetched.trace, fetched.result.value);
            IsFetched(request, world.join, run, tag, fetched)
  {
    var fetched := Fetch(request, world, Opening(request, tag), tag);
    FetchEnds(request, world, Opening(request, tag), tag);
    if fetched.result.Ok? {
      FinishConcludes(request, world, fetched.trace, fetched.result.value);
    }
  }

  lemma {:induction false} NoExchange(trace: Trace)
    requires forall i :: 0 <= i < |trace| ==> !trace[i].Exchanged?
    ensures Log(trace) == []
  {
    if trace != [] { NoExchange(trace[..|trace| - 1]); }
  }

  lemma OpeningLog(request: HttpRequest, tag: Option<string>)
    ensures Log(Opening(request, tag)) == []
  {
    NoExchange(Opening(request, tag));
  }

  // The grammar of runs, for every request and every world.
  lemma RunStory(request: HttpRequest, world: World) returns (tag: Option<string>, fetched: Run)
    ensures var run := Execute(request, world);
            match Validate(request, world.syntax)
            case Some(e) => run == Run([], Err(e))
            case None =>
              || IsAborted(request, run) || IsUnpermitted(request, run) || IsHit(request, run)
              || IsFetched(request, world.join, run, tag, fetched)
  {
    tag, fetched := None, Run([], Err(InternalError));
    if Validate(request, world.syntax).None? {
      var told := Tell(request, world, []);
      if told.refusal.None? {
        var admitted := Admit(request, world, told.trace);
        if admitted.refusal.None? {
          assert admitted.trace == Gates(request);
          tag, fetched := ServedStory(request, world);
        }
      }
    }
  }
}
