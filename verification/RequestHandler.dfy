// Sending a request (src/request_handler.rs): validation, pinning, the attempt
// loop and the redirect walk. Everything outside the crate is an oracle that
// sees the whole trace of the run so far, so it may answer the same question
// differently each time.
module RequestHandler {
  import opened Wrappers
  import opened Text
  import opened Bytes
  import opened Addresses
  import opened UrlValidation
  import opened RedirectPolicy
  import opened HeaderValidation
  import opened Retry

  datatype HttpRequest = HttpRequest(
    verb: string,
    url: Option<Url>,        // what the URL parser makes of the text, if it does
    parsed: ParsedUrl,
    headers: seq<Header>,
    body: Option<string>,
    policy: Policy,
    scope: Scope,
    retry: Option<RetryConfig>,
    allowPrivate: bool,
    tracked: bool,           // whether a progress tracker,
    limited: bool,           // a rate limiter,
    cached: bool)            // and a cache are attached

  datatype SocketAddr = SocketAddr(ip: IpAddr, port: nat)

  datatype Pin = Pin(host: string, addresses: seq<SocketAddr>)

  // The method, headers and body of one request on the way to `url`.
  datatype Hop = Hop(url: Url, verb: string, headers: seq<Header>, body: Option<string>)

  datatype Call = Call(pin: Option<Pin>, hop: Hop, etag: Option<string>)

  datatype Reply = Reply(status: nat, headers: seq<Header>, body: Octets)

  // `Unsent`: no client could be built, or a header was malformed.
  datatype Outcome = Unsent(error: Error) | TimedOut | Failed | Replied(reply: Reply)

  datatype Response = Response(status: nat, headers: seq<Header>, body: Octets, url: Url)

  datatype Exchange = Exchange(call: Call, outcome: Outcome)

  datatype Event =
    | Reported(go: bool)
    | Permitted(refusal: Option<Error>)
    | CacheRead(hit: Option<Response>)
    | EtagRead(etag: Option<string>)
    | CacheWrite(response: Response)
    | Lookup(host: string, answer: Result<seq<IpAddr>>)
    | Exchanged(exchange: Exchange)

  type Trace = seq<Event>

  datatype World = World(
    report: Trace -> bool,
    permit: Trace -> Option<Error>,
    readCache: Trace -> Option<Response>,
    readEtag: Trace -> Option<string>,
    dns: (Trace, string) -> Result<seq<IpAddr>>,
    transport: (Trace, Call) -> Outcome,
    join: (Url, string) -> Option<Url>,
    syntax: Syntax)

  datatype Run = Run(trace: Trace, result: Result<Response>)

  datatype Pinning = Pinning(trace: Trace, result: Result<Option<Pin>>)

  // A step that may refuse to go on.
  datatype Gate = Gate(trace: Trace, refusal: Option<Error>)

  // ----- Validation -----

  function Validate(request: HttpRequest, syntax: Syntax): Option<Error> {
    if CheckUrl(request.scope, request.url).Some? then CheckUrl(request.scope, request.url)
    else if ValidateHeaders(syntax, request.headers).Some? then ValidateHeaders(syntax, request.headers)
    else if exists h :: h in request.headers && IsBlocked(h.name) then Some(HeaderError)
    else None
  }

  // ----- Pinning -----

  ghost predicate AnyBlocked(addresses: seq<IpAddr>) {
    exists k :: 0 <= k < |addresses| && IsBlockedIp(addresses[k])
  }

  function Sockets(addresses: seq<IpAddr>, port: nat): (r: seq<SocketAddr>)
    ensures |r| == |addresses| && forall k :: 0 <= k < |r| ==> r[k] == SocketAddr(addresses[k], port)
  {
    seq(|addresses|, k requires 0 <= k < |addresses| => SocketAddr(addresses[k], port))
  }

  ghost function Pinned(allowPrivate: bool, host: string, port: nat, answer: Result<seq<IpAddr>>): Result<Pin> {
    match Resolved(answer)
    case Err(e) => Err(e)
    case Ok(addresses) =>
      if !allowPrivate && AnyBlocked(addresses) then Err(PrivateNetworkAccess)
      else Ok(Pin(host, Sockets(addresses, port)))
  }

  ghost function PinRun(allowPrivate: bool, world: World, trace: Trace, host: ValidatedHost, port: nat): Pinning {
    if host.ipAddr.Some? then Pinning(trace, Ok(None))
    else
      var answer := world.dns(trace, host.host);
      var looked := trace + [Lookup(host.host, answer)];
      match Pinned(allowPrivate, host.host, port, answer)
      case Err(e) => Pinning(looked, Err(e))
      case Ok(pin) => Pinning(looked, Ok(Some(pin)))
  }

  method ResolvePin(allowPrivate: bool, world: World, start: Trace, host: ValidatedHost, port: nat)
    returns (trace: Trace, result: Result<Option<Pin>>)
    ensures Pinning(trace, result) == PinRun(allowPrivate, world, start, host, port)
  {
    trace := start;
    if host.ipAddr.Some? {
      return trace, Ok(None);
    }
    var answer := world.dns(trace, host.host);
    trace := trace + [Lookup(host.host, answer)];
    var resolved := ResolveHost(answer);
    if resolved.Err? {
      return trace, Err(resolved.error);
    }
    var addresses := resolved.value;
    ResolvedNonEmpty(answer);
    if addresses == [] {
      return trace, Err(InvalidHost);
    }
    if !allowPrivate {
      for k := 0 to |addresses|
        invariant !AnyBlocked(addresses[..k])
      {
        if IsBlockedIp(addresses[k]) {
          return trace, Err(PrivateNetworkAccess);
        }
      }
      assert addresses[..|addresses|] == addresses;
    }
    return trace, Ok(Some(Pin(host.host, Sockets(addresses, port))));
  }

  // ----- One exchange -----

  predicate WellFormed(syntax: Syntax, headers: seq<Header>) {
    forall h :: h in headers ==> syntax.nameOk(h.name) && syntax.valueOk(h.value)
  }

  function Deliver(world: World, trace: Trace, call: Call): Outcome {
    var outcome := world.transport(trace, call);
    if outcome.Unsent? || WellFormed(world.syntax, call.hop.headers) then outcome else Unsent(HeaderError)
  }

  // A response comes from the URL the request went to: the transport follows
  // no redirect of its own.
  function ResultOf(exchange: Exchange): Result<Response> {
    match exchange.outcome
    case Unsent(e) => Err(e)
    case TimedOut => Err(NetworkTimeout)
    case Failed => Err(RequestFailed)
    case Replied(r) => Ok(Response(r.status, r.headers, r.body, exchange.call.hop.url))
  }

  function SendTarget(world: World, trace: Trace, call: Call): Run {
    var exchange := Exchange(call, Deliver(world, trace, call));
    Run(trace + [Exchanged(exchange)], ResultOf(exchange))
  }

  // ----- Redirect hops -----

  function Origin(url: Url): (string, Option<Host>, nat) {
    (url.scheme, url.host, if url.port.Some? then url.port.value else DefaultPort(url.scheme))
  }

  predicate IsRedirect(status: nat) {
    300 <= status < 400 && status != 304
  }

  predicate RewritesToGet(status: nat, verb: string) {
    status == 303 || ((status == 301 || status == 302) && verb == "POST")
  }

  function LocationOf(headers: seq<Header>): Result<string> {
    if headers == [] then Err(RedirectBlocked)
    else if EqIgnoreCase(headers[0].name, "location") then Ok(headers[0].value)
    else LocationOf(headers[1..])
  }

  // The redirect target is the value of the first `location` header.
  lemma {:induction false} LocationIsFirst(headers: seq<Header>, value: string)
    ensures LocationOf(headers) == Ok(value) <==>
              exists k :: IsFirstNamed(headers, "location", k) && headers[k].value == value
  {
    if headers != [] && !EqIgnoreCase(headers[0].name, "location") {
      var rest := headers[1..];
      LocationIsFirst(rest, value);
      if k :| IsFirstNamed(rest, "location", k) && rest[k].value == value {
        assert IsFirstNamed(headers, "location", k + 1);
      }
      if k :| IsFirstNamed(headers, "location", k) && headers[k].value == value {
        assert IsFirstNamed(rest, "location", k - 1);
      }
    } else if headers != [] {
      assert IsFirstNamed(headers, "location", 0);
    }
  }

  function ValidateHop(request: HttpRequest, visited: seq<Url>, next: Url): Option<Error> {
    if CheckRedirect(request.policy, visited, next).Some? then CheckRedirect(request.policy, visited, next)
    else match Revalidate(next)
      case Err(e) => Some(e)
      case Ok(_) => CheckUrl(request.scope, Some(next))
  }

  // What the hop may carry.
  function NextHop(status: nat, last: Hop, next: Url): Hop {
    var rewrite := RewritesToGet(status, last.verb);
    var sameOrigin := Origin(last.url) == Origin(next);
    Hop(next,
        if rewrite then "GET" else last.verb,
        if sameOrigin then last.headers else Redact(last.headers),
        if rewrite || !sameOrigin then None else last.body)
  }

  function PlanHop(request: HttpRequest, join: (Url, string) -> Option<Url>, visited: seq<Url>,
                   status: nat, location: string, last: Hop): Result<Hop> {
    match join(last.url, location)
    case None => Err(RedirectBlocked)
    case Some(next) =>
      if next in visited then Err(RedirectBlocked)
      else match ValidateHop(request, visited, next)
        case Some(e) => Err(e)
        case None => Ok(NextHop(status, last, next))
  }

  ghost function HopPin(request: HttpRequest, world: World, trace: Trace, pin: Option<Pin>, url: Url): Pinning {
    match Revalidate(url)
    case Err(e) => Pinning(trace, Err(e))
    case Ok(parsed) =>
      if pin.Some? && pin.value.host == parsed.host.host && parsed.port == request.parsed.port then
        Pinning(trace, Ok(pin))
      else PinRun(request.allowPrivate, world, trace, parsed.host, parsed.port)
  }

  lemma PlannedHopIsEarly(request: HttpRequest, join: (Url, string) -> Option<Url>, visited: seq<Url>,
                          status: nat, location: string, last: Hop)
    requires PlanHop(request, join, visited, status, location, last).Ok?
    ensures |visited| < request.policy.maxRedirects
  {}

  // The walk from `current`, the answer to `last`.
  ghost function Follow(request: HttpRequest, world: World, trace: Trace, pin: Option<Pin>,
                        visited: seq<Url>, last: Hop, current: Response): Run
    decreases if |visited| < request.policy.maxRedirects then request.policy.maxRedirects - |visited| else 0
  {
    if !IsRedirect(current.status) then Run(trace, Ok(current))
    else match LocationOf(current.headers)
      case Err(e) => Run(trace, Err(e))
      case Ok(location) =>
        match PlanHop(request, world.join, visited, current.status, location, last)
        case Err(e) => Run(trace, Err(e))
        case Ok(hop) =>
          PlannedHopIsEarly(request, world.join, visited, current.status, location, last);
          var pinned := HopPin(request, world, trace, pin, hop.url);
          if pinned.result.Err? then Run(pinned.trace, Err(pinned.result.error))
          else
            var sent := SendTarget(world, pinned.trace, Call(pinned.result.value, hop, None));
            if sent.result.Err? then sent
            else Follow(request, world, sent.trace, pin, visited + [hop.url], hop, sent.result.value)
  }

  method FollowChain(request: HttpRequest, world: World, start: Trace, pin: Option<Pin>, outcome: Response)
    returns (trace: Trace, result: Result<Response>)
    requires request.url.Some? && outcome.url == request.url.value
    ensures Run(trace, result) ==
            Follow(request, world, start, pin, [request.url.value], FirstHop(request), outcome)
  {
    trace := start;
    var current := outcome;
    var visited := [request.url.value];
    var last := FirstHop(request);
    while true
      invariant current.url == last.url
      invariant Follow(request, world, trace, pin, visited, last, current) ==
                Follow(request, world, start, pin, [request.url.value], FirstHop(request), outcome)
      decreases request.policy.maxRedirects - |visited|
    {
      if !IsRedirect(current.status) {
        return trace, Ok(current);
      }
      var location := LocationOf(current.headers);
      if location.Err? {
        return trace, Err(location.error);
      }
      var planned := PlanHop(request, world.join, visited, current.status, location.value, last.(url := current.url));
      if planned.Err? {
        return trace, Err(planned.error);
      }
      var hop := planned.value;
      PlannedHopIsEarly(request, world.join, visited, current.status, location.value, last);
      visited := visited + [hop.url];
      var parsed := Revalidate(hop.url);
      if parsed.Err? {
        return trace, Err(parsed.error);
      }
      var hopPin := Ok(pin);
      if !(pin.Some? && pin.value.host == parsed.value.host.host && parsed.value.port == request.parsed.port) {
        trace, hopPin := ResolvePin(request.allowPrivate, world, trace, parsed.value.host, parsed.value.port);
      }
      if hopPin.Err? {
        return trace, Err(hopPin.error);
      }
      last := hop;
      var sent := SendTarget(world, trace, Call(hopPin.value, hop, None));
      trace := sent.trace;
      if sent.result.Err? {
        return trace, sent.result;
      }
      current := sent.result.value;
    }
  }

  // ----- Attempts -----

  function FirstHop(request: HttpRequest): Hop
    requires request.url.Some?
  {
    Hop(request.url.value, request.verb, request.headers, request.body)
  }

  predicate Retryable(retry: Option<RetryConfig>, result: Result<Response>) {
    && retry.Some?
    && match result
       case Ok(response) => ShouldRetryStatus(retry.value, response.status)
       case Err(e) => ShouldRetry(retry.value, e)
  }

  function MaxAttempts(request: HttpRequest): nat {
    if request.retry.None? || request.retry.value.maxAttempts == 0 then 1 else request.retry.value.maxAttempts
  }

  // Up to `left` attempts at the same call.
  ghost function Attempts(request: HttpRequest, world: World, trace: Trace, call: Call, left: nat): Run
    requires left > 0
    decreases left
  {
    var sent := SendTarget(world, trace, call);
    if Retryable(request.retry, sent.result) && left > 1 then Attempts(request, world, sent.trace, call, left - 1)
    else sent
  }

  method SendWithRetries(request: HttpRequest, world: World, start: Trace, call: Call)
    returns (trace: Trace, outcome: Result<Response>)
    ensures Run(trace, outcome) == Attempts(request, world, start, call, MaxAttempts(request))
  {
    var maxAttempts := MaxAttempts(request);
    var attempt := 0;
    trace := start;
    while true
      invariant 0 <= attempt < maxAttempts
      invariant Attempts(request, world, trace, call, maxAttempts - attempt) ==
                Attempts(request, world, start, call, maxAttempts)
      decreases maxAttempts - attempt
    {
      attempt := attempt + 1;
      var sent := SendTarget(world, trace, call);
      trace := sent.trace;
      if Retryable(request.retry, sent.result) && attempt < maxAttempts {
        continue;
      }
      return trace, sent.result;
    }
  }

  // ----- A whole request -----

  predicate Cacheable(verb: string) {
    verb == "GET" || verb == "HEAD"
  }

  // Telling the progress tracker, if there is one.
  function Tell(request: HttpRequest, world: World, trace: Trace): Gate {
    if !request.tracked then Gate(trace, None)
    else
      var go := world.report(trace);
      Gate(trace + [Reported(go)], if go then None else Some(RequestAborted))
  }

  function Admit(request: HttpRequest, world: World, trace: Trace): Gate {
    if !request.limited then Gate(trace, None)
    else
      var refusal := world.permit(trace);
      Gate(trace + [Permitted(refusal)], refusal)
  }

  function ReadCache(request: HttpRequest, world: World, trace: Trace): (Trace, Option<Response>) {
    if !request.cached || !Cacheable(request.verb) then (trace, None)
    else (trace + [CacheRead(world.readCache(trace))], world.readCache(trace))
  }

  function ReadEtag(request: HttpRequest, world: World, trace: Trace): (Trace, Option<string>) {
    if !request.cached || !Cacheable(request.verb) then (trace, None)
    else (trace + [EtagRead(world.readEtag(trace))], world.readEtag(trace))
  }

  // The attempts and, if the policy asks for it, the walk.
  ghost function Fetch(request: HttpRequest, world: World, trace: Trace, etag: Option<string>): Run
    requires request.url.Some?
  {
    var pinned := PinRun(request.allowPrivate, world, trace, request.parsed.host, request.parsed.port);
    if pinned.result.Err? then Run(pinned.trace, Err(pinned.result.error))
    else
      var pin, first := pinned.result.value, FirstHop(request);
      var tried := Attempts(request, world, pinned.trace, Call(pin, first, etag), MaxAttempts(request));
      if tried.result.Err? || !request.policy.followRedirects then tried
      else Follow(request, world, tried.trace, pin, [first.url], first, tried.result.value)
  }

  function Redacted(response: Response): Response {
    response.(headers := Redact(response.headers))
  }

  predicate IsSuccess(status: nat) {
    200 <= status < 300
  }

  // What becomes of the final answer.
  function Finish(request: HttpRequest, world: World, trace: Trace, answer: Response): Run {
    if StatusError(answer.status).Some? then Run(trace, Err(StatusError(answer.status).value))
    else
      var response := Redacted(answer);
      var (read, hit) := if answer.status == 304 then ReadCache(request, world, trace) else (trace, None);
      var final := if hit.Some? then hit.value.(status := 304) else response;
      var stored := if request.cached && Cacheable(request.verb) && IsSuccess(answer.status)
                    then read + [CacheWrite(response)] else read;
      var told := Tell(request, world, stored);
      Run(told.trace, if told.refusal.Some? then Err(told.refusal.value) else Ok(final))
  }

  // What follows once a permit is held.
  ghost function Served(request: HttpRequest, world: World, trace: Trace): Run
    requires request.url.Some?
  {
    var (read, hit) := ReadCache(request, world, trace);
    if hit.Some? then
      var done := Tell(request, world, read);
      Run(done.trace, if done.refusal.Some? then Err(done.refusal.value) else Ok(hit.value))
    else
      var (ready, etag) := ReadEtag(request, world, read);
      var fetched := Fetch(request, world, ready, etag);
      if fetched.result.Err? then fetched
      else Finish(request, world, fetched.trace, fetched.result.value)
  }

  ghost function Execute(request: HttpRequest, world: World): Run {
    if Validate(request, world.syntax).Some? then Run([], Err(Validate(request, world.syntax).value))
    else
      var told := Tell(request, world, []);
      if told.refusal.Some? then Run(told.trace, Err(told.refusal.value))
      else
        var admitted := Admit(request, world, told.trace);
        if admitted.refusal.Some? then Run(admitted.trace, Err(admitted.refusal.value))
        else Served(request, world, admitted.trace)
  }

  method ExecuteInner(request: HttpRequest, world: World) returns (trace: Trace, result: Result<Response>)
    ensures Run(trace, result) == Execute(request, world)
  {
    trace := [];
    var invalid := Validate(request, world.syntax);
    if invalid.Some? {
      return trace, Err(invalid.value);
    }
    var told := Tell(request, world, trace);
    trace := told.trace;
    if told.refusal.Some? {
      return trace, Err(told.refusal.value);
    }
    var admitted := Admit(request, world, trace);
    trace := admitted.trace;
    if admitted.refusal.Some? {
      return trace, Err(admitted.refusal.value);
    }
    var (read, hit) := ReadCache(request, world, trace);
    trace := read;
    if hit.Some? {
      told := Tell(request, world, trace);
      trace := told.trace;
      if told.refusal.Some? {
        return trace, Err(told.refusal.value);
      }
      return trace, Ok(hit.value);
    }
    var (ready, etag) := ReadEtag(request, world, trace);
    trace := ready;
    var outcome;
    trace, outcome := FetchAnswer(request, world, trace, etag);
    if outcome.Err? {
      return trace, outcome;
    }
    trace, result := Conclude(request, world, trace, outcome.value);
  }

  // The middle part of execute_inner: the pin, the attempts, the walk.
  method FetchAnswer(request: HttpRequest, world: World, start: Trace, etag: Option<string>)
    returns (trace: Trace, outcome: Result<Response>)
    requires request.url.Some?
    ensures Run(trace, outcome) == Fetch(request, world, start, etag)
  {
    var pinned;
    trace, pinned := ResolvePin(request.allowPrivate, world, start, request.parsed.host, request.parsed.port);
    if pinned.Err? {
      return trace, Err(pinned.error);
    }
    ghost var pinTrace := trace;
    var first := Call(pinned.value, FirstHop(request), etag);
    trace, outcome := SendWithRetries(request, world, trace, first);
    if outcome.Ok? && request.policy.followRedirects {
      AttemptsKeepUrl(request, world, pinTrace, first, MaxAttempts(request));
      trace, outcome := FollowChain(request, world, trace, pinned.value, outcome.value);
    }
  }

  // Its last part: the status, the cache, the tracker.
  method Conclude(request: HttpRequest, world: World, start: Trace, answer: Response)
    returns (trace: Trace, result: Result<Response>)
    ensures Run(trace, result) == Finish(request, world, start, answer)
  {
    trace := start;
    if answer.status == 429 {
      return trace, Err(RateLimited);
    }
    if 500 <= answer.status < 600 {
      return trace, Err(ServerError(answer.status));
    }
    var response := Redacted(answer);
    if answer.status == 304 {
      var (read, hit) := ReadCache(request, world, trace);
      trace := read;
      if hit.Some? {
        response := hit.value.(status := 304);
      }
    } else if request.cached && Cacheable(request.verb) && IsSuccess(answer.status) {
      trace := trace + [CacheWrite(response)];
    }
    var told := Tell(request, world, trace);
    trace := told.trace;
    if told.refusal.Some? {
      return trace, Err(told.refusal.value);
    }
    return trace, Ok(response);
  }

  lemma {:induction false} AttemptsKeepUrl(request: HttpRequest, world: World, trace: Trace, call: Call, left: nat)
    requires left > 0
    ensures var run := Attempts(request, world, trace, call, left);
            run.result.Ok? ==> run.result.value.url == call.hop.url
    decreases left
  {
    var sent := SendTarget(world, trace, call);
    if Retryable(request.retry, sent.result) && left > 1 {
      AttemptsKeepUrl(request, world, sent.trace, call, left - 1);
    }
  }

  // ----- Interceptors and the abort signal -----

  // What the interceptors do to the request and to the response.
  datatype Hooks = Hooks(onRequest: HttpRequest -> Result<HttpRequest>, onResponse: Response -> Result<Response>)

  // How the abort signal behaves: it may have fired already, or fire once
  // `cut` events have happened, and then the rest of the run is dropped.
  datatype Signal = Quiet | Fired | Firing(cut: nat)

  ghost function SendRun(request: HttpRequest, hooks: Hooks, world: World, signal: Signal): Run {
    match hooks.onRequest(request)
    case Err(e) => Run([], Err(e))
    case Ok(final) =>
      if signal.Fired? then Run([], Err(RequestAborted))
      else
        var run := Execute(final, world);
        if signal.Firing? && signal.cut <= |run.trace| then Run(run.trace[..signal.cut], Err(RequestAborted))
        else if run.result.Err? then run
        else match hooks.onResponse(run.result.value)
          case Err(e) => Run(run.trace, Err(e))
          case Ok(response) => Run(run.trace, Ok(Redacted(response)))
  }

  method Send(request: HttpRequest, hooks: Hooks, world: World, signal: Signal)
    returns (trace: Trace, result: Result<Response>)
    ensures Run(trace, result) == SendRun(request, hooks, world, signal)
  {
    var prepared := hooks.onRequest(request);
    if prepared.Err? {
      return [], Err(prepared.error);
    }
    if signal.Fired? {
      return [], Err(RequestAborted);
    }
    trace, result := ExecuteInner(prepared.value, world);
    if signal.Firing? && signal.cut <= |trace| {
      return trace[..signal.cut], Err(RequestAborted);
    }
    if result.Err? {
      return trace, result;
    }
    var seen := hooks.onResponse(result.value);
    if seen.Err? {
      return trace, Err(seen.error);
    }
    return trace, Ok(Redacted(seen.value));
  }
}
