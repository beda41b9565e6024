// What holds of every exchange of every run of a request, whatever servers,
// resolver, cache, tracker and interceptors do, and wherever the run is cut off.
module RequestSafety {
  import opened Wrappers
  import opened UrlValidation
  import opened RedirectPolicy
  import opened HeaderValidation
  import opened RequestHandler

  // ----- The exchanges of a run -----

  ghost function Log(trace: Trace): (log: seq<Exchange>)
    ensures |log| <= |trace|
  {
    if trace == [] then []
    else
      var n := |trace| - 1;
      if trace[n].Exchanged? then Log(trace[..n]) + [trace[n].exchange] else Log(trace[..n])
  }

  lemma LogAppend(trace: Trace, e: Event)
    ensures Log(trace + [e]) == if e.Exchanged? then Log(trace) + [e.exchange] else Log(trace)
  {
    assert (trace + [e])[..|trace|] == trace;
  }

  lemma Reassociate(a: seq<Exchange>, b: seq<Exchange>, c: seq<Exchange>)
    ensures a + (b + c) == (a + b) + c
  {}

  lemma {:induction false} LogPrefix(trace: Trace, k: nat)
    requires k <= |trace|
    ensures Log(trace[..k]) <= Log(trace)
  {
    if k < |trace| {
      var init := trace[..|trace| - 1];
      LogPrefix(init, k);
      assert init[..k] == trace[..k];
    } else {
      assert trace[..k] == trace;
    }
  }

  lemma {:induction false} LogHas(trace: Trace, i: nat)
    requires i < |trace| && trace[i].Exchanged?
    ensures trace[i].exchange in Log(trace)
  {
    var n := |trace| - 1;
    if i < n { LogHas(trace[..n], i); }
  }

  lemma {:induction false} TraceHas(trace: Trace, k: nat) returns (i: nat)
    requires k < |Log(trace)|
    ensures i < |trace| && trace[i] == Exchanged(Log(trace)[k])
  {
    var n := |trace| - 1;
    if k < |Log(trace[..n])| {
      i := TraceHas(trace[..n], k);
    } else {
      i := n;
    }
  }

  function Urls(log: seq<Exchange>): (urls: seq<Url>)
    ensures |urls| == |log| && forall i :: 0 <= i < |log| ==> urls[i] == log[i].call.hop.url
  {
    seq(|log|, i requires 0 <= i < |log| => log[i].call.hop.url)
  }

  // `next` is the hop that the answer to `prev` leads to.
  ghost predicate HopStep(request: HttpRequest, join: (Url, string) -> Option<Url>, visited: seq<Url>,
                          prev: Exchange, next: Exchange)
  {
    && prev.outcome.Replied? && IsRedirect(prev.outcome.reply.status)
    && LocationOf(prev.outcome.reply.headers).Ok?
    && PlanHop(request, join, visited, prev.outcome.reply.status,
               LocationOf(prev.outcome.reply.headers).value, prev.call.hop) == Ok(next.call.hop)
    && next.call.etag == None
  }

  ghost predicate StepsAt(request: HttpRequest, join: (Url, string) -> Option<Url>, log: seq<Exchange>, k: nat)
    requires 0 < k < |log|
  {
    HopStep(request, join, Urls(log[..k]), log[k - 1], log[k])
  }

  ghost predicate Chain(request: HttpRequest, join: (Url, string) -> Option<Url>, log: seq<Exchange>) {
    forall k :: 0 < k < |log| ==> StepsAt(request, join, log, k)
  }

  // Retries of one call, the last of them final.
  ghost predicate AttemptLog(request: HttpRequest, call: Call, log: seq<Exchange>, left: nat) {
    && 0 < |log| <= left
    && (forall k :: 0 <= k < |log| ==> log[k].call == call)
    && (forall k :: 0 <= k < |log| - 1 ==> Retryable(request.retry, ResultOf(log[k])))
    && (|log| < left ==> !Retryable(request.retry, ResultOf(log[|log| - 1])))
  }

  // A run's exchanges: n attempts, then a chain of hops from the last of them.
  ghost predicate RunLog(request: HttpRequest, join: (Url, string) -> Option<Url>, log: seq<Exchange>, n: nat) {
    && request.url.Some?
    && 0 < n <= |log|
    && log[0].call.hop == FirstHop(request)
    && AttemptLog(request, log[0].call, log[..n], MaxAttempts(request))
    && Chain(request, join, log[n - 1..])
    && (!request.policy.followRedirects ==> n == |log|)
  }

  lemma AttemptLogCons(request: HttpRequest, call: Call, first: Exchange, rest: seq<Exchange>, left: nat)
    requires left > 1 && first.call == call && Retryable(request.retry, ResultOf(first))
    requires AttemptLog(request, call, rest, left - 1)
    ensures AttemptLog(request, call, [first] + rest, left)
  {
    var log := [first] + rest;
    assert forall k :: 0 < k < |log| ==> log[k] == rest[k - 1];
  }

  lemma {:induction false} AttemptsAreLogged(request: HttpRequest, world: World, trace: Trace, call: Call, left: nat)
    returns (log: seq<Exchange>)
    requires left > 0
    ensures var run := Attempts(request, world, trace, call, left);
            && Log(run.trace) == Log(trace) + log
            && AttemptLog(request, call, log, left)
            && run.result == ResultOf(log[|log| - 1])
    decreases left
  {
    var sent := SendTarget(world, trace, call);
    var exchange := Exchange(call, Deliver(world, trace, call));
    LogAppend(trace, Exchanged(exchange));
    if Retryable(request.retry, sent.result) && left > 1 {
      var rest := AttemptsAreLogged(request, world, sent.trace, call, left - 1);
      log := [exchange] + rest;
      AttemptLogCons(request, call, exchange, rest, left);
      Reassociate(Log(trace), [exchange], rest);
    } else {
      log := [exchange];
    }
  }

  lemma PinRunLog(allowPrivate: bool, world: World, trace: Trace, host: ValidatedHost, port: nat)
    ensures Log(PinRun(allowPrivate, world, trace, host, port).trace) == Log(trace)
  {
    LogAppend(trace, Lookup(host.host, world.dns(trace, host.host)));
  }

  lemma HopPinLog(request: HttpRequest, world: World, trace: Trace, pin: Option<Pin>, url: Url)
    ensures Log(HopPin(request, world, trace, pin, url).trace) == Log(trace)
  {
    var parsed := Revalidate(url);
    if parsed.Ok? {
      PinRunLog(request.allowPrivate, world, trace, parsed.value.host, parsed.value.port);
    }
  }

  lemma ChainAppend(request: HttpRequest, join: (Url, string) -> Option<Url>, chain: seq<Exchange>, next: Exchange)
    requires chain != [] && Chain(request, join, chain)
    requires HopStep(request, join, Urls(chain), chain[|chain| - 1], next)
    ensures Chain(request, join, chain + [next]) && Urls(chain + [next]) == Urls(chain) + [next.call.hop.url]
  {
    var all := chain + [next];
    forall k | 0 < k < |all| ensures StepsAt(request, join, all, k) {
      if k < |chain| {
        StepStays(request, join, chain, next, k);
      } else {
        assert all[..k] == chain;
      }
    }
    assert Urls(all) == Urls(chain) + [next.call.hop.url];
  }

  lemma StepStays(request: HttpRequest, join: (Url, string) -> Option<Url>, chain: seq<Exchange>, next: Exchange,
                  k: nat)
    requires 0 < k < |chain| && Chain(request, join, chain)
    ensures StepsAt(request, join, chain + [next], k)
  {
    assert StepsAt(request, join, chain, k);
    assert (chain + [next])[..k] == chain[..k];
  }

  lemma SentHopIsLogged(request: HttpRequest, world: World, trace: Trace, before: seq<Exchange>,
                        chain: seq<Exchange>, call: Call)
    requires chain != [] && Chain(request, world.join, chain) && Log(trace) == before + chain
    requires HopStep(request, world.join, Urls(chain), chain[|chain| - 1], Exchange(call, Deliver(world, trace, call)))
    ensures var longer := chain + [Exchange(call, Deliver(world, trace, call))];
            && Chain(request, world.join, longer) && Urls(longer) == Urls(chain) + [call.hop.url]
            && Log(SendTarget(world, trace, call).trace) == before + longer
  {
    var next := Exchange(call, Deliver(world, trace, call));
    LogAppend(trace, Exchanged(next));
    ChainAppend(request, world.join, chain, next);
    Reassociate(before, chain, [next]);
  }

  // The walk extends the chain it starts from.
  lemma {:induction false} FollowIsLogged(request: HttpRequest, world: World, trace: Trace, pin: Option<Pin>,
                                          before: seq<Exchange>, chain: seq<Exchange>, current: Response)
    returns (longer: seq<Exchange>)
    requires chain != [] && Chain(request, world.join, chain) && Log(trace) == before + chain
    requires ResultOf(chain[|chain| - 1]) == Ok(current)
    ensures Chain(request, world.join, longer) && chain <= longer
    ensures Log(Follow(request, world, trace, pin, Urls(chain), chain[|chain| - 1].call.hop, current).trace) ==
            before + longer
    decreases if |chain| < request.policy.maxRedirects then request.policy.maxRedirects - |chain| else 0
  {
    longer := chain;
    var last, location := chain[|chain| - 1], LocationOf(current.headers);
    if IsRedirect(current.status) && location.Ok? {
      var planned := PlanHop(request, world.join, Urls(chain), current.status, location.value, last.call.hop);
      if planned.Ok? {
        PlannedHopIsEarly(request, world.join, Urls(chain), current.status, location.value, last.call.hop);
        var hop := planned.value;
        var pinned := HopPin(request, world, trace, pin, hop.url);
        HopPinLog(request, world, trace, pin, hop.url);
        if pinned.result.Ok? {
          var call := Call(pinned.result.value, hop, None);
          var sent := SendTarget(world, pinned.trace, call);
          SentHopIsLogged(request, world, pinned.trace, before, chain, call);
          longer := chain + [Exchange(call, Deliver(world, pinned.trace, call))];
          if sent.result.Ok? {
            longer := FollowIsLogged(request, world, sent.trace, pin, before, longer, sent.result.value);
          }
        }
      }
    }
  }

  lemma FetchIsLogged(request: HttpRequest, world: World, trace: Trace, etag: Option<string>)
    requires request.url.Some? && Log(trace) == []
    ensures IsRunLog(request, world.join, Log(Fetch(request, world, trace, etag).trace))
  {
    var pinned := PinRun(request.allowPrivate, world, trace, request.parsed.host, request.parsed.port);
    PinRunLog(request.allowPrivate, world, trace, request.parsed.host, request.parsed.port);
    if pinned.result.Ok? {
      var pin := pinned.result.value;
      var call := Call(pin, FirstHop(request), etag);
      var tried := Attempts(request, world, pinned.trace, call, MaxAttempts(request));
      var log := AttemptsAreLogged(request, world, pinned.trace, call, MaxAttempts(request));
      assert Log(tried.trace) == log;
      AttemptsMakeRunLog(request, world.join, call, log);
      if tried.result.Ok? && request.policy.followRedirects {
        WalkIsLogged(request, world, tried.trace, pin, log, tried.result.value);
      }
    }
  }

  lemma WalkIsLogged(request: HttpRequest, world: World, trace: Trace, pin: Option<Pin>, log: seq<Exchange>,
                     answer: Response)
    requires Log(trace) == log && RunLog(request, world.join, log, |log|)
    requires ResultOf(log[|log| - 1]) == Ok(answer) && request.policy.followRedirects
    ensures var first := FirstHop(request);
            IsRunLog(request, world.join, Log(Follow(request, world, trace, pin, [first.url], first, answer).trace))
  {
    var n := |log|;
    var before, chain := log[..n - 1], log[n - 1..];
    assert log == before + chain;
    AttemptAt(request, world.join, log, n, n - 1);
    assert Urls(chain) == [request.url.value];
    var longer := FollowIsLogged(request, world, trace, pin, before, chain, answer);
    LongerRunLog(request, world.join, log, longer);
  }

  lemma AttemptsMakeRunLog(request: HttpRequest, join: (Url, string) -> Option<Url>, call: Call, log: seq<Exchange>)
    requires request.url.Some? && call.hop == FirstHop(request)
    requires AttemptLog(request, call, log, MaxAttempts(request))
    ensures RunLog(request, join, log, |log|)
  {
    assert log[..|log|] == log;
  }

  lemma LongerRunLog(request: HttpRequest, join: (Url, string) -> Option<Url>, log: seq<Exchange>,
                     chain: seq<Exchange>)
    requires RunLog(request, join, log, |log|) && request.policy.followRedirects
    requires log[|log| - 1..] <= chain && Chain(request, join, chain)
    ensures RunLog(request, join, log[..|log| - 1] + chain, |log|)
  {
    var n := |log|;
    var all := log[..n - 1] + chain;
    assert all[..n] == log == log[..n];
    assert all[n - 1..] == chain;
  }

  lemma TellLog(request: HttpRequest, world: World, trace: Trace)
    ensures Log(Tell(request, world, trace).trace) == Log(trace)
  {
    LogAppend(trace, Reported(world.report(trace)));
  }

  lemma AdmitLog(request: HttpRequest, world: World, trace: Trace)
    ensures Log(Admit(request, world, trace).trace) == Log(trace)
  {
    LogAppend(trace, Permitted(world.permit(trace)));
  }

  lemma CacheLog(request: HttpRequest, world: World, trace: Trace)
    ensures Log(ReadCache(request, world, trace).0) == Log(trace)
    ensures Log(ReadEtag(request, world, trace).0) == Log(trace)
  {
    LogAppend(trace, CacheRead(world.readCache(trace)));
    LogAppend(trace, EtagRead(world.readEtag(trace)));
  }

  lemma FinishLog(request: HttpRequest, world: World, trace: Trace, answer: Response)
    ensures Log(Finish(request, world, trace, answer).trace) == Log(trace)
  {
    var read := if answer.status == 304 then ReadCache(request, world, trace).0 else trace;
    CacheLog(request, world, trace);
    LogAppend(read, CacheWrite(Redacted(answer)));
    TellLog(request, world, read);
    TellLog(request, world, read + [CacheWrite(Redacted(answer))]);
  }

  ghost predicate IsRunLog(request: HttpRequest, join: (Url, string) -> Option<Url>, log: seq<Exchange>) {
    log == [] || exists n :: RunLog(request, join, log, n)
  }

  // Nothing is exchanged before validation has passed; after it, the exchanges
  // are attempts and then a redirect chain.
  lemma ExecuteIsLogged(request: HttpRequest, world: World)
    ensures var log := Log(Execute(request, world).trace);
            && IsRunLog(request, world.join, log)
            && (log != [] ==> Validate(request, world.syntax).None?)
  {
    if Validate(request, world.syntax).None? {
      var told := Tell(request, world, []);
      TellLog(request, world, []);
      if told.refusal.None? {
        var admitted := Admit(request, world, told.trace);
        AdmitLog(request, world, told.trace);
        if admitted.refusal.None? {
          AdmittedIsLogged(request, world, admitted.trace);
        }
      }
    }
  }

  lemma AdmittedIsLogged(request: HttpRequest, world: World, trace: Trace)
    requires request.url.Some? && Log(trace) == []
    ensures IsRunLog(request, world.join, Log(Served(request, world, trace).trace))
  {
    var (read, hit) := ReadCache(request, world, trace);
    CacheLog(request, world, trace);
    TellLog(request, world, read);
    var (ready, etag) := ReadEtag(request, world, read);
    CacheLog(request, world, read);
    FetchIsLogged(request, world, ready, etag);
    var fetched := Fetch(request, world, ready, etag);
    if fetched.result.Ok? {
      FinishLog(request, world, fetched.trace, fetched.result.value);
    }
  }

  // ----- What a planned hop is -----

  // A redirect may go to a URL under these conditions.
  ghost predicate MayHop(request: HttpRequest, visited: seq<Url>, next: Url) {
    && next !in visited
    && |visited| < request.policy.maxRedirects
    && (next.scheme == "http" || next.scheme == "https")
    && (next.scheme == "http" ==>
          request.policy.allowSchemeDowngrade || forall url :: url in visited ==> url.scheme != "https")
    && !next.credentials && next.port != Some(0) && !PathIsDangerous(next)
    && next.host.Some? && SafeHost(next.host.value)
    && HostAllowed(request, HostStr(next.host.value))
  }

  predicate PathIsDangerous(url: Url) {
    PercentDecoding.PathHasDangerousSequence(url.path)
  }

  predicate HostAllowed(request: HttpRequest, host: string) {
    && !MatchesAny(request.policy.deniedHosts, host)
    && ((!request.policy.trackAllRedirects && request.policy.allowAnyRedirect)
        || MatchesAny(request.policy.allowedHosts, host))
    && InScope(request.scope, host)
  }

  lemma SecureLater(visited: seq<Url>, next: Url)
    ensures AnySecure(visited + [next]) <==> AnySecure(visited) || next.scheme == "https"
  {
    var all := visited + [next];
    assert all[|visited|] == next;
    if i :| 0 <= i < |visited| && visited[i].scheme == "https" {
      assert all[i] == visited[i];
    }
  }

  lemma InsecureMeans(visited: seq<Url>)
    ensures !AnySecure(visited) <==> forall url :: url in visited ==> url.scheme != "https"
  {}

  lemma HopIsValidated(request: HttpRequest, visited: seq<Url>, next: Url)
    ensures next !in visited && ValidateHop(request, visited, next).None? <==> MayHop(request, visited, next)
  {
    AcceptedUrls(next);
    ScopeAccepts(request.scope, next);
    SecureLater(visited, next);
    InsecureMeans(visited);
  }

  // Exactly when a redirect is followed, and to where.
  lemma PlanHopSpec(request: HttpRequest, join: (Url, string) -> Option<Url>, visited: seq<Url>,
                    status: nat, location: string, last: Hop)
    ensures var planned := PlanHop(request, join, visited, status, location, last);
            var next := join(last.url, location);
            && (planned.Ok? <==> next.Some? && MayHop(request, visited, next.value))
            && (planned.Ok? ==> planned.value == NextHop(status, last, next.value))
  {
    var next := join(last.url, location);
    if next.Some? {
      HopIsValidated(request, visited, next.value);
    }
  }

  predicate IsDowngrade(request: HttpRequest, visited: seq<Url>, next: Url) {
    && !request.policy.allowSchemeDowngrade && next.scheme == "http"
    && exists url :: url in visited && url.scheme == "https"
  }

  // For which reason a redirect is not followed, in the order in which they
  // are tried.
  lemma RefusedHops(request: HttpRequest, join: (Url, string) -> Option<Url>, visited: seq<Url>,
                    status: nat, location: string, last: Hop)
    requires PlanHop(request, join, visited, status, location, last).Err?
    ensures var error := PlanHop(request, join, visited, status, location, last).error;
            var target := join(last.url, location);
            if target.None? || target.value in visited then error == RedirectBlocked
            else
              var next, policy := target.value, request.policy;
              if |visited| >= policy.maxRedirects then error == TooManyRedirects(policy.maxRedirects)
              else if next.scheme != "http" && next.scheme != "https" then error == RedirectBlocked
              else if IsDowngrade(request, visited, next) then error == RedirectBlocked
              else if next.host.None? then error == NoHost
              else if MatchesAny(policy.deniedHosts, HostStr(next.host.value)) then error == RedirectBlocked
              else if !(!policy.trackAllRedirects && policy.allowAnyRedirect)
                      && !MatchesAny(policy.allowedHosts, HostStr(next.host.value)) then error == HostNotAllowed
              else if Revalidate(next).Err? then error == Revalidate(next).error
              else error == RedirectBlocked
  {
    var target := join(last.url, location);
    if target.Some? {
      SecureLater(visited, target.value);
      InsecureMeans(visited);
      ScopeAccepts(request.scope, target.value);
    }
  }

  lemma HopStepMeans(request: HttpRequest, join: (Url, string) -> Option<Url>, visited: seq<Url>,
                     prev: Exchange, next: Exchange)
    requires HopStep(request, join, visited, prev, next)
    ensures prev.outcome.Replied? && IsRedirect(prev.outcome.reply.status)
    ensures next.call.hop == NextHop(prev.outcome.reply.status, prev.call.hop, next.call.hop.url)
    ensures MayHop(request, visited, next.call.hop.url)
  {
    PlanHopSpec(request, join, visited, prev.outcome.reply.status,
                LocationOf(prev.outcome.reply.headers).value, prev.call.hop);
  }

  lemma StepAt(request: HttpRequest, join: (Url, string) -> Option<Url>, log: seq<Exchange>, n: nat, i: nat)
    requires RunLog(request, join, log, n) && n <= i < |log|
    ensures HopStep(request, join, Urls(log[n - 1..i]), log[i - 1], log[i])
  {
    var chain := log[n - 1..];
    var k := i - (n - 1);
    assert StepsAt(request, join, chain, k);
    assert chain[..k] == log[n - 1..i] && chain[k - 1] == log[i - 1] && chain[k] == log[i];
  }

  // The i-th exchange carries what the answer before it lets it carry.
  ghost predicate IsNextHop(log: seq<Exchange>, i: nat)
    requires 0 < i < |log|
  {
    var prev, hop := log[i - 1], log[i].call.hop;
    prev.outcome.Replied? && hop == NextHop(prev.outcome.reply.status, prev.call.hop, hop.url)
  }

  lemma NextAt(request: HttpRequest, join: (Url, string) -> Option<Url>, log: seq<Exchange>, n: nat, i: nat)
    requires RunLog(request, join, log, n) && n <= i < |log|
    ensures IsNextHop(log, i)
    ensures MayHop(request, Urls(log[n - 1..i]), log[i].call.hop.url)
  {
    StepAt(request, join, log, n, i);
    HopStepMeans(request, join, Urls(log[n - 1..i]), log[i - 1], log[i]);
  }

  lemma AttemptAt(request: HttpRequest, join: (Url, string) -> Option<Url>, log: seq<Exchange>, n: nat, i: nat)
    requires RunLog(request, join, log, n) && i < n
    ensures log[i].call == log[0].call
    ensures i < n - 1 ==> Retryable(request.retry, ResultOf(log[i]))
  {
    assert log[..n][i] == log[i];
  }

  // ----- Headers, method and body -----

  // The port a URL names, or else that of its scheme.
  function PortOf(url: Url): nat {
    match url.port
    case Some(port) => port
    case None => if url.scheme == "https" then 443 else 80
  }

  // Two URLs of one origin (section 4 of RFC 6454).
  predicate SameSite(a: Url, b: Url) {
    a.scheme == b.scheme && a.host == b.host && PortOf(a) == PortOf(b)
  }

  lemma OriginsAgree(a: Url, b: Url)
    ensures Origin(a) == Origin(b) <==> SameSite(a, b)
  {}

  ghost predicate SameSiteUpTo(log: seq<Exchange>, i: nat)
    requires i < |log|
  {
    forall j :: 0 <= j <= i ==> SameSite(log[j].call.hop.url, log[0].call.hop.url)
  }

  // The answer before exchange j rewrites the method to GET: a 303, or a 301
  // or 302 to a POST.
  ghost predicate RewritesAt(log: seq<Exchange>, j: nat)
    requires 0 < j < |log|
  {
    && log[j - 1].outcome.Replied?
    && var status := log[j - 1].outcome.reply.status;
       status == 303 || ((status == 301 || status == 302) && log[j - 1].call.hop.verb == "POST")
  }

  ghost predicate RewrittenUpTo(log: seq<Exchange>, i: nat)
    requires i < |log|
  {
    exists j :: 0 < j <= i && RewritesAt(log, j)
  }

  // The i-th exchange carries the original headers as long as every URL so far
  // has the first origin, and the list without sensitive names from the first
  // other origin on, wherever the chain goes then.
  ghost predicate HeadersFit(request: HttpRequest, log: seq<Exchange>, i: nat)
    requires i < |log|
  {
    log[i].call.hop.headers == if SameSiteUpTo(log, i) then request.headers else Redact(request.headers)
  }

  // The method is the original one until the first rewrite and GET from then
  // on; the body is the original one while neither a rewrite nor another
  // origin has come up, and absent from then on.
  ghost predicate ContentFits(request: HttpRequest, log: seq<Exchange>, i: nat)
    requires i < |log|
  {
    && log[i].call.hop.verb == (if RewrittenUpTo(log, i) then "GET" else request.verb)
    && log[i].call.hop.body ==
       (if RewrittenUpTo(log, i) || !SameSiteUpTo(log, i) then None else request.body)
  }

  lemma AttemptsHeadersFit(request: HttpRequest, join: (Url, string) -> Option<Url>, log: seq<Exchange>, n: nat, i: nat)
    requires RunLog(request, join, log, n) && i < n
    ensures HeadersFit(request, log, i)
  {
    AttemptsAreAlike(request, join, log, n, i);
  }

  // What holds after the attempts and is carried from each exchange to the
  // next holds of all that follow.
  ghost predicate Carries(fits: nat -> bool, k: nat)
    requires 0 < k
  {
    fits(k - 1) ==> fits(k)
  }

  lemma {:induction false} StepByStep(fits: nat -> bool, n: nat, i: nat)
    requires 0 < n <= i && fits(n - 1) && forall k :: n <= k <= i ==> Carries(fits, k)
    ensures fits(i)
    decreases i
  {
    if n < i { StepByStep(fits, n, i - 1); }
    assert Carries(fits, i);
  }

  lemma HeadersAlongRun(request: HttpRequest, join: (Url, string) -> Option<Url>, log: seq<Exchange>, n: nat, i: nat)
    requires RunLog(request, join, log, n) && i < |log|
    ensures HeadersFit(request, log, i)
  {
    if i < n {
      AttemptsHeadersFit(request, join, log, n, i);
    } else {
      AttemptsHeadersFit(request, join, log, n, n - 1);
      var fits := (k: nat) => k < |log| && HeadersFit(request, log, k);
      forall k | n <= k <= i ensures Carries(fits, k) {
        NextAt(request, join, log, n, k);
        if fits(k - 1) { HeadersStep(request, log, k); }
      }
      StepByStep(fits, n, i);
    }
  }

  lemma RetryDoesNotRewrite(request: HttpRequest, join: (Url, string) -> Option<Url>,
                            log: seq<Exchange>, n: nat, j: nat)
    requires RunLog(request, join, log, n) && 0 < j < n
    ensures !RewritesAt(log, j)
  {
    AttemptAt(request, join, log, n, j - 1);
  }

  lemma AttemptsAreAlike(request: HttpRequest, join: (Url, string) -> Option<Url>,
                         log: seq<Exchange>, n: nat, i: nat)
    requires RunLog(request, join, log, n) && i < n
    ensures log[i].call == log[0].call && SameSiteUpTo(log, i) && !RewrittenUpTo(log, i)
  {
    forall j | 0 <= j <= i ensures log[j].call == log[0].call && (0 < j ==> !RewritesAt(log, j)) {
      AttemptAt(request, join, log, n, j);
      if 0 < j { RetryDoesNotRewrite(request, join, log, n, j); }
    }
  }

  lemma AttemptsContentFit(request: HttpRequest, join: (Url, string) -> Option<Url>, log: seq<Exchange>, n: nat, i: nat)
    requires RunLog(request, join, log, n) && i < n
    ensures ContentFits(request, log, i)
  {
    AttemptsAreAlike(request, join, log, n, i);
  }

  lemma ContentAlongRun(request: HttpRequest, join: (Url, string) -> Option<Url>, log: seq<Exchange>, n: nat, i: nat)
    requires RunLog(request, join, log, n) && i < |log|
    ensures ContentFits(request, log, i)
  {
    if i < n {
      AttemptsContentFit(request, join, log, n, i);
    } else {
      AttemptsContentFit(request, join, log, n, n - 1);
      var fits := (k: nat) => k < |log| && ContentFits(request, log, k);
      forall k | n <= k <= i ensures Carries(fits, k) {
        NextAt(request, join, log, n, k);
        if fits(k - 1) { ContentStep(request, log, k); }
      }
      StepByStep(fits, n, i);
    }
  }

  lemma HeadersStep(request: HttpRequest, log: seq<Exchange>, i: nat)
    requires 0 < i < |log| && HeadersFit(request, log, i - 1) && IsNextHop(log, i)
    ensures HeadersFit(request, log, i)
  {
    UpToOneMore(log, i);
    RedactTwice(request.headers);
    OriginsAgree(log[i - 1].call.hop.url, log[i].call.hop.url);
  }

  lemma ContentStep(request: HttpRequest, log: seq<Exchange>, i: nat)
    requires 0 < i < |log| && ContentFits(request, log, i - 1) && IsNextHop(log, i)
    ensures ContentFits(request, log, i)
  {
    UpToOneMore(log, i);
    OriginsAgree(log[i - 1].call.hop.url, log[i].call.hop.url);
  }

  lemma UpToOneMore(log: seq<Exchange>, i: nat)
    requires 0 < i < |log|
    ensures RewrittenUpTo(log, i) <==> RewrittenUpTo(log, i - 1) || RewritesAt(log, i)
    ensures SameSiteUpTo(log, i) <==>
              SameSiteUpTo(log, i - 1) && SameSite(log[i].call.hop.url, log[0].call.hop.url)
  {}

  // ----- Where the exchanges go -----

  lemma VisitedAt(log: seq<Exchange>, n: nat, i: nat, j: nat)
    requires 0 < n <= i < |log| && j < i
    requires j < n ==> log[j].call == log[n - 1].call
    ensures log[j].call.hop.url in Urls(log[n - 1..i])
  {
    var visited := Urls(log[n - 1..i]);
    var k := if j < n then 0 else j - (n - 1);
    assert visited[k] == log[n - 1..i][k].call.hop.url == log[n - 1 + k].call.hop.url;
  }

  // Exchange i is to a URL that no earlier exchange went to, unless all of
  // them up to i are attempts at one call.
  ghost predicate NeverBack(log: seq<Exchange>, i: nat)
    requires i < |log|
  {
    (forall j :: 0 <= j < i ==> log[j].call.hop.url != log[i].call.hop.url)
    || (forall j :: 0 <= j < i ==> log[j].call == log[i].call)
  }

  // Once the chain has been on https, it stays there.
  ghost predicate StaysSecure(request: HttpRequest, log: seq<Exchange>, i: nat)
    requires i < |log|
  {
    && (log[i].call.hop.url.scheme == "http" || log[i].call.hop.url.scheme == "https")
    && (request.policy.allowSchemeDowngrade || log[i].call.hop.url.scheme == "https"
        || forall j :: 0 <= j < i ==> log[j].call.hop.url.scheme == "http")
  }

  // A URL other than the request's own has passed URL validation, the redirect
  // policy and the scope check.
  ghost predicate HopFits(request: HttpRequest, log: seq<Exchange>, i: nat)
    requires i < |log|
  {
    var url := log[i].call.hop.url;
    || Some(url) == request.url
    || (request.policy.followRedirects && url.host.Some? && HostAllowed(request, HostStr(url.host.value))
        && Revalidate(url).Ok?)
  }

  ghost predicate StaysInScope(request: HttpRequest, log: seq<Exchange>, i: nat)
    requires i < |log|
  {
    var url := log[i].call.hop.url;
    url.host.Some? && InScope(request.scope, HostStr(url.host.value))
  }

  lemma HopsAreNew(request: HttpRequest, join: (Url, string) -> Option<Url>, log: seq<Exchange>, n: nat, i: nat)
    requires RunLog(request, join, log, n) && i < |log|
    ensures NeverBack(log, i)
  {
    forall j | 0 <= j < i && j < n ensures log[j].call == log[n - 1].call {
      AttemptAt(request, join, log, n, j);
      AttemptAt(request, join, log, n, n - 1);
    }
    if n <= i {
      NextAt(request, join, log, n, i);
      forall j | 0 <= j < i ensures log[j].call.hop.url != log[i].call.hop.url {
        VisitedAt(log, n, i, j);
      }
    } else {
      AttemptAt(request, join, log, n, n - 1);
      AttemptAt(request, join, log, n, i);
    }
  }

  lemma InsecureSoFar(visited: seq<Url>, url: Url)
    requires url in visited && !AnySecure(visited)
    ensures url.scheme != "https"
  {}

  lemma SchemesOnlyRise(request: HttpRequest, join: (Url, string) -> Option<Url>, log: seq<Exchange>, n: nat, i: nat)
    requires RunLog(request, join, log, n) && i < |log| && CheckUrl(request.scope, request.url).None?
    ensures StaysSecure(request, log, i)
  {
    WebSoFar(request, join, log, n, i);
    forall j | 0 <= j < i && j < n ensures log[j].call == log[n - 1].call {
      AttemptAt(request, join, log, n, j);
      AttemptAt(request, join, log, n, n - 1);
    }
    if n <= i {
      NextAt(request, join, log, n, i);
      var visited := Urls(log[n - 1..i]);
      if !request.policy.allowSchemeDowngrade && log[i].call.hop.url.scheme != "https" {
        forall j | 0 <= j < i ensures log[j].call.hop.url.scheme == "http" {
          WebSoFar(request, join, log, n, j);
          VisitedAt(log, n, i, j);
          InsecureSoFar(visited, log[j].call.hop.url);
        }
      }
    } else {
      AttemptAt(request, join, log, n, n - 1);
      AttemptAt(request, join, log, n, i);
    }
  }

  lemma WebSoFar(request: HttpRequest, join: (Url, string) -> Option<Url>, log: seq<Exchange>, n: nat, i: nat)
    requires RunLog(request, join, log, n) && i < |log| && CheckUrl(request.scope, request.url).None?
    ensures IsWeb(log[i].call.hop.url.scheme)
  {
    if i < n {
      AttemptAt(request, join, log, n, i);
    } else {
      NextAt(request, join, log, n, i);
    }
  }

  lemma HopsAreAllowed(request: HttpRequest, join: (Url, string) -> Option<Url>, log: seq<Exchange>, n: nat, i: nat)
    requires RunLog(request, join, log, n) && i < |log|
    ensures HopFits(request, log, i)
  {
    if i < n {
      AttemptAt(request, join, log, n, i);
    } else {
      NextAt(request, join, log, n, i);
      AcceptedUrls(log[i].call.hop.url);
    }
  }

  lemma AllStayInScope(request: HttpRequest, log: seq<Exchange>, i: nat)
    requires i < |log| && HopFits(request, log, i) && CheckUrl(request.scope, request.url).None?
    ensures StaysInScope(request, log, i)
  {
    ScopeAccepts(request.scope, request.url.value);
  }

  // ----- How many there are -----

  // max(1, max_attempts) attempts, and max_redirects - 1 hops.
  function MostAttempts(request: HttpRequest): nat {
    match request.retry
    case None => 1
    case Some(retry) => if retry.maxAttempts < 1 then 1 else retry.maxAttempts
  }

  function MostHops(request: HttpRequest): nat {
    if request.policy.followRedirects && request.policy.maxRedirects > 0 then request.policy.maxRedirects - 1 else 0
  }

  lemma RunIsShort(request: HttpRequest, join: (Url, string) -> Option<Url>, log: seq<Exchange>, n: nat)
    requires RunLog(request, join, log, n)
    ensures n <= MostAttempts(request) && |log| - n <= MostHops(request)
  {
    if n < |log| {
      NextAt(request, join, log, n, |log| - 1);
    }
  }

  // ----- Transport-owned headers -----

  ghost predicate NothingFraming(headers: seq<Header>) {
    forall h :: h in headers ==> !NamesFraming(h.name)
  }

  lemma RedactNarrows(headers: seq<Header>, h: Header)
    requires h in Redact(headers)
    ensures h in headers
  {
    RedactKeepsTheRest(headers);
    assert multiset(Redact(headers))[h] > 0;
    assert multiset(headers)[h] > 0;
  }

  lemma NoBlockedHeader(request: HttpRequest, syntax: Syntax, log: seq<Exchange>, i: nat)
    requires i < |log| && HeadersFit(request, log, i) && Validate(request, syntax).None?
    ensures NothingFraming(log[i].call.hop.headers)
  {
    forall h | h in log[i].call.hop.headers ensures !NamesFraming(h.name) {
      BlockedAreFraming(h.name);
      if log[i].call.hop.headers != request.headers {
        RedactNarrows(request.headers, h);
      }
    }
  }

  // ----- All of it, for every run -----

  // What the shape of a run guarantees of exchange i.
  ghost predicate SafeAt(request: HttpRequest, log: seq<Exchange>, i: nat)
    requires i < |log|
  {
    HeadersFit(request, log, i) && ContentFits(request, log, i) && NeverBack(log, i) && HopFits(request, log, i)
  }

  // What validation of the request adds to that.
  ghost predicate ScreenedAt(request: HttpRequest, log: seq<Exchange>, i: nat)
    requires i < |log|
  {
    NothingFraming(log[i].call.hop.headers) && StaysSecure(request, log, i) && StaysInScope(request, log, i)
  }

  lemma SafePrefix(request: HttpRequest, log: seq<Exchange>, longer: seq<Exchange>, i: nat)
    requires i < |log| && log <= longer
    ensures SafeAt(request, longer, i) ==> SafeAt(request, log, i)
    ensures ScreenedAt(request, longer, i) ==> ScreenedAt(request, log, i)
  {
    SameUpTo(log, longer, i);
    assert forall j :: 0 <= j < i ==> longer[j] == log[j];
  }

  lemma SameUpTo(log: seq<Exchange>, longer: seq<Exchange>, i: nat)
    requires i < |log| && log <= longer
    ensures SameSiteUpTo(log, i) <==> SameSiteUpTo(longer, i)
    ensures RewrittenUpTo(log, i) <==> RewrittenUpTo(longer, i)
  {
    assert forall j :: 0 <= j <= i ==> longer[j] == log[j];
    assert forall j :: 0 < j <= i ==> (RewritesAt(log, j) <==> RewritesAt(longer, j));
  }

  lemma RunIsSafe(request: HttpRequest, join: (Url, string) -> Option<Url>, log: seq<Exchange>, n: nat, i: nat)
    requires RunLog(request, join, log, n) && i < |log|
    ensures SafeAt(request, log, i)
  {
    HeadersAlongRun(request, join, log, n, i);
    ContentAlongRun(request, join, log, n, i);
    HopsAreNew(request, join, log, n, i);
    HopsAreAllowed(request, join, log, n, i);
  }

  lemma RunIsScreened(request: HttpRequest, join: (Url, string) -> Option<Url>, syntax: Syntax,
                      log: seq<Exchange>, n: nat, i: nat)
    requires RunLog(request, join, log, n) && Validate(request, syntax).None? && i < |log|
    ensures ScreenedAt(request, log, i)
  {
    RunIsSafe(request, join, log, n, i);
    SchemesOnlyRise(request, join, log, n, i);
    AllStayInScope(request, log, i);
    NoBlockedHeader(request, syntax, log, i);
  }

  lemma ExecuteIsSafe(request: HttpRequest, world: World, i: nat)
    requires i < |Log(Execute(request, world).trace)|
    ensures var log := Log(Execute(request, world).trace); SafeAt(request, log, i) && ScreenedAt(request, log, i)
  {
    var log := Log(Execute(request, world).trace);
    ExecuteIsLogged(request, world);
    var n :| RunLog(request, world.join, log, n);
    RunIsSafe(request, world.join, log, n, i);
    RunIsScreened(request, world.join, world.syntax, log, n, i);
  }

  // Interceptors may turn the request into any other, and the abort signal may
  // cut the run anywhere: what goes out is safe for the request as it left the
  // interceptors.
  lemma SendIsSafe(request: HttpRequest, hooks: Hooks, world: World, signal: Signal, i: nat)
    requires i < |Log(SendRun(request, hooks, world, signal).trace)|
    ensures var final, log := hooks.onRequest(request), Log(SendRun(request, hooks, world, signal).trace);
            final.Ok? && SafeAt(final.value, log, i) && ScreenedAt(final.value, log, i)
  {
    var final := hooks.onRequest(request).value;
    var whole, run := Execute(final, world), SendRun(request, hooks, world, signal);
    CutRun(request, hooks, world, signal);
    ExecuteIsSafe(final, world, i);
    SafePrefix(final, Log(run.trace), Log(whole.trace), i);
  }

  lemma CutRun(request: HttpRequest, hooks: Hooks, world: World, signal: Signal)
    ensures var final := hooks.onRequest(request);
            var run := SendRun(request, hooks, world, signal);
            if final.Err? then run.trace == []
            else run.trace <= Execute(final.value, world).trace &&
                 Log(run.trace) <= Log(Execute(final.value, world).trace)
  {
    var final := hooks.onRequest(request);
    if final.Ok? {
      var whole := Execute(final.value, world);
      if signal.Firing? && signal.cut <= |whole.trace| {
        LogPrefix(whole.trace, signal.cut);
      }
    }
  }

  // A whole call exchanges at most this often.
  lemma SendIsBounded(request: HttpRequest, hooks: Hooks, world: World, signal: Signal)
    ensures var final := hooks.onRequest(request);
            var log := Log(SendRun(request, hooks, world, signal).trace);
            |log| <= if final.Ok? then MostAttempts(final.value) + MostHops(final.value) else 0
  {
    var final := hooks.onRequest(request);
    CutRun(request, hooks, world, signal);
    if final.Ok? {
      ExecuteIsLogged(final.value, world);
      var log := Log(Execute(final.value, world).trace);
      if log != [] {
        var n :| RunLog(final.value, world.join, log, n);
        RunIsShort(final.value, world.join, log, n);
      }
    }
  }
}
