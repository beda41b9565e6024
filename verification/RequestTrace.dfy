// What holds of every event of a run, given the events before it: where pins
// come from, what goes on the wire, when the cache is read and what is written
// to it.
module RequestTrace {
  import opened Wrappers
  import opened Addresses
  import opened UrlValidation
  import opened HeaderValidation
  import opened Retry
  import opened RequestHandler
  import opened RequestSafety

  // The pin is what an earlier lookup of its host gave.
  ghost predicate LookedUp(allowPrivate: bool, before: Trace, pin: Pin, port: nat) {
    exists k :: 0 <= k < |before| && GivesPin(allowPrivate, before[k], pin, port)
  }

  ghost predicate GivesPin(allowPrivate: bool, e: Event, pin: Pin, port: nat) {
    e.Lookup? && e.host == pin.host && Pinned(allowPrivate, e.host, port, e.answer) == Ok(pin)
  }

  ghost predicate PinFits(allowPrivate: bool, before: Trace, host: ValidatedHost, port: nat, pin: Option<Pin>) {
    match pin
    case None => host.ipAddr.Some?
    case Some(p) => p.host == host.host && LookedUp(allowPrivate, before, p, port)
  }

  // The pin of a call is for the call's own host and port.
  ghost predicate CallPinned(request: HttpRequest, before: Trace, call: Call) {
    var parsed := Revalidate(call.hop.url);
    parsed.Ok? && PinFits(request.allowPrivate, before, parsed.value.host, parsed.value.port, call.pin)
  }

  // `answer` is what the exchange brought, under the URL it went to.
  predicate Answers(x: Exchange, answer: Response) {
    && x.outcome == Replied(Reply(answer.status, answer.headers, answer.body))
    && answer.url == x.call.hop.url
  }

  ghost predicate LastAnswer(before: Trace, answer: Response) {
    Log(before) != [] && Answers(Log(before)[|Log(before)| - 1], answer)
  }

  // `response` is `answer` without its sensitive headers.
  predicate IsCleaned(response: Response, answer: Response) {
    && response.status == answer.status && response.body == answer.body && response.url == answer.url
    && response.headers == Redact(answer.headers)
  }

  // What is claimed of the events: that calls are pinned, that headers on the
  // wire are well-formed, that the cache is used as it should be, that each
  // event records what the world answered there.
  datatype Aspect = Pins | Wire(syntax: Syntax) | Caching | Oracles(world: World)

  ghost predicate InWorld(aspect: Aspect, world: World) {
    match aspect
    case Wire(syntax) => syntax == world.syntax
    case Oracles(w) => w == world
    case _ => true
  }

  ghost predicate Fits(aspect: Aspect, request: HttpRequest, before: Trace, e: Event) {
    match aspect
    case Pins => e.Exchanged? ==> CallPinned(request, before, e.exchange.call)
    case Wire(syntax) =>
      e.Exchanged? && !e.exchange.outcome.Unsent? ==> WellFormed(syntax, e.exchange.call.hop.headers)
    case Caching => CacheFits(request, before, e)
    case Oracles(world) => IsAnswer(world, before, e)
  }

  ghost predicate IsAnswer(world: World, before: Trace, e: Event) {
    match e
    case Reported(go) => go == world.report(before)
    case Permitted(refusal) => refusal == world.permit(before)
    case CacheRead(hit) => hit == world.readCache(before)
    case EtagRead(etag) => etag == world.readEtag(before)
    case CacheWrite(_) => true
    case Lookup(host, answer) => answer == world.dns(before, host)
    case Exchanged(x) =>
      var answer := world.transport(before, x.call);
      var sendable := answer.Unsent? || WellFormed(world.syntax, x.call.hop.headers);
      x.outcome == if sendable then answer else Unsent(HeaderError)
  }

  ghost predicate CacheFits(request: HttpRequest, before: Trace, e: Event) {
    match e
    case CacheWrite(r) =>
      && (request.verb == "GET" || request.verb == "HEAD") && 200 <= r.status < 300
      && exists answer :: LastAnswer(before, answer) && IsCleaned(r, answer)
    case CacheRead(_) =>
      && (request.verb == "GET" || request.verb == "HEAD")
      && (Log(before) == [] || exists answer :: LastAnswer(before, answer) && answer.status == 304)
    case _ => true
  }

  ghost predicate FitsAt(aspect: Aspect, request: HttpRequest, trace: Trace, i: nat)
    requires i < |trace|
  {
    Fits(aspect, request, trace[..i], trace[i])
  }

  ghost predicate Sound(aspect: Aspect, request: HttpRequest, trace: Trace) {
    forall i :: 0 <= i < |trace| ==> FitsAt(aspect, request, trace, i)
  }

  lemma SoundAppend(aspect: Aspect, request: HttpRequest, trace: Trace, e: Event)
    requires Sound(aspect, request, trace) && Fits(aspect, request, trace, e)
    ensures Sound(aspect, request, trace + [e])
  {
    var longer := trace + [e];
    forall i | 0 <= i < |longer| ensures FitsAt(aspect, request, longer, i) {
      if i < |trace| {
        assert FitsAt(aspect, request, trace, i);
        assert longer[..i] == trace[..i];
      } else {
        assert longer[..i] == trace;
      }
    }
  }

  lemma SoundPrefix(aspect: Aspect, request: HttpRequest, trace: Trace, k: nat)
    requires Sound(aspect, request, trace) && k <= |trace|
    ensures Sound(aspect, request, trace[..k])
  {
    forall i | 0 <= i < k ensures FitsAt(aspect, request, trace[..k], i) {
      assert FitsAt(aspect, request, trace, i);
      assert trace[..k][..i] == trace[..i];
    }
  }

  lemma PinStays(allowPrivate: bool, before: Trace, e: Event, host: ValidatedHost, port: nat, pin: Option<Pin>)
    requires PinFits(allowPrivate, before, host, port, pin)
    ensures PinFits(allowPrivate, before + [e], host, port, pin)
  {
    if pin.Some? {
      var k :| 0 <= k < |before| && GivesPin(allowPrivate, before[k], pin.value, port);
      assert (before + [e])[k] == before[k];
    }
  }

  lemma PinRunIsSound(aspect: Aspect, request: HttpRequest, world: World, trace: Trace, host: ValidatedHost, port: nat)
    requires InWorld(aspect, world) && Sound(aspect, request, trace)
    ensures var run := PinRun(request.allowPrivate, world, trace, host, port);
            && Sound(aspect, request, run.trace)
            && (run.trace == trace || exists e :: run.trace == trace + [e])
            && (run.result.Ok? ==>
                  && PinFits(request.allowPrivate, run.trace, host, port, run.result.value)
                  && (run.result.value.None? <==> host.ipAddr.Some?))
  {
    if host.ipAddr.None? {
      var e := Lookup(host.host, world.dns(trace, host.host));
      SoundAppend(aspect, request, trace, e);
      assert (trace + [e])[|trace|] == e;
    }
  }

  lemma HopPinIsSound(aspect: Aspect, request: HttpRequest, world: World, trace: Trace, pin: Option<Pin>, url: Url)
    requires InWorld(aspect, world) && Sound(aspect, request, trace)
    requires PinFits(request.allowPrivate, trace, request.parsed.host, request.parsed.port, pin)
    ensures var run := HopPin(request, world, trace, pin, url);
            && Sound(aspect, request, run.trace)
            && PinFits(request.allowPrivate, run.trace, request.parsed.host, request.parsed.port, pin)
            && (run.result.Ok? ==> forall hop: Hop, etag | hop.url == url ::
                  CallPinned(request, run.trace, Call(run.result.value, hop, etag)))
  {
    var parsed := Revalidate(url);
    if parsed.Ok? {
      PinRunIsSound(aspect, request, world, trace, parsed.value.host, parsed.value.port);
      var run := PinRun(request.allowPrivate, world, trace, parsed.value.host, parsed.value.port);
      if e :| run.trace == trace + [e] {
        PinStays(request.allowPrivate, trace, e, request.parsed.host, request.parsed.port, pin);
      }
    }
  }

  // A call may be sent as far as the aspect is concerned.
  ghost predicate MaySend(aspect: Aspect, request: HttpRequest, world: World, trace: Trace, call: Call) {
    InWorld(aspect, world) && (aspect.Pins? ==> CallPinned(request, trace, call))
  }

  lemma SentIsSound(aspect: Aspect, request: HttpRequest, world: World, trace: Trace, call: Call)
    requires Sound(aspect, request, trace) && MaySend(aspect, request, world, trace, call)
    ensures var sent := SendTarget(world, trace, call);
            && Sound(aspect, request, sent.trace) && MaySend(aspect, request, world, sent.trace, call)
            && (sent.result.Ok? ==> LastAnswer(sent.trace, sent.result.value))
  {
    var e := Exchanged(Exchange(call, Deliver(world, trace, call)));
    SoundAppend(aspect, request, trace, e);
    LogAppend(trace, e);
    if aspect.Pins? {
      var parsed := Revalidate(call.hop.url).value;
      PinStays(request.allowPrivate, trace, e, parsed.host, parsed.port, call.pin);
    }
  }

  lemma {:induction false} AttemptsAreSound(aspect: Aspect, request: HttpRequest, world: World, trace: Trace,
                                            call: Call, left: nat)
    requires left > 0 && Sound(aspect, request, trace) && MaySend(aspect, request, world, trace, call)
    ensures var run := Attempts(request, world, trace, call, left);
            && Sound(aspect, request, run.trace)
            && (run.result.Ok? ==> LastAnswer(run.trace, run.result.value))
    decreases left
  {
    var sent := SendTarget(world, trace, call);
    SentIsSound(aspect, request, world, trace, call);
    if Retryable(request.retry, sent.result) && left > 1 {
      AttemptsAreSound(aspect, request, world, sent.trace, call, left - 1);
    }
  }

  lemma {:induction false} AttemptsKeepPin(request: HttpRequest, world: World, trace: Trace, call: Call, left: nat,
                                           host: ValidatedHost, port: nat, pin: Option<Pin>)
    requires left > 0 && PinFits(request.allowPrivate, trace, host, port, pin)
    ensures PinFits(request.allowPrivate, Attempts(request, world, trace, call, left).trace, host, port, pin)
    decreases left
  {
    var sent := SendTarget(world, trace, call);
    PinStays(request.allowPrivate, trace, Exchanged(Exchange(call, Deliver(world, trace, call))), host, port, pin);
    if Retryable(request.retry, sent.result) && left > 1 {
      AttemptsKeepPin(request, world, sent.trace, call, left - 1, host, port, pin);
    }
  }

  // A 304 is no redirect.
  predicate IsFinal(status: nat) {
    status < 300 || 400 <= status || status == 304
  }

  lemma {:induction false} FollowIsSound(aspect: Aspect, request: HttpRequest, world: World, trace: Trace,
                                         pin: Option<Pin>, visited: seq<Url>, last: Hop, current: Response)
    requires Sound(aspect, request, trace) && LastAnswer(trace, current)
    requires InWorld(aspect, world)
    requires PinFits(request.allowPrivate, trace, request.parsed.host, request.parsed.port, pin)
    ensures var run := Follow(request, world, trace, pin, visited, last, current);
            && Sound(aspect, request, run.trace)
            && (run.result.Ok? ==> LastAnswer(run.trace, run.result.value) && IsFinal(run.result.value.status))
    decreases if |visited| < request.policy.maxRedirects then request.policy.maxRedirects - |visited| else 0
  {
    var location := LocationOf(current.headers);
    if IsRedirect(current.status) && location.Ok? {
      var planned := PlanHop(request, world.join, visited, current.status, location.value, last);
      if planned.Ok? {
        PlannedHopIsEarly(request, world.join, visited, current.status, location.value, last);
        var hop := planned.value;
        var pinned := HopPin(request, world, trace, pin, hop.url);
        HopPinIsSound(aspect, request, world, trace, pin, hop.url);
        if pinned.result.Ok? {
          var call := Call(pinned.result.value, hop, None);
          var sent := SendTarget(world, pinned.trace, call);
          SentIsSound(aspect, request, world, pinned.trace, call);
          PinStays(request.allowPrivate, pinned.trace, Exchanged(Exchange(call, Deliver(world, pinned.trace, call))),
                   request.parsed.host, request.parsed.port, pin);
          if sent.result.Ok? {
            FollowIsSound(aspect, request, world, sent.trace, pin, visited + [hop.url], hop, sent.result.value);
          }
        }
      }
    }
  }

  // The request's parsed form is right about its URL as far as pinning goes:
  // the URL is valid, and it is an address literal if the parsed form is one,
  // and otherwise has the parsed form's host and port.
  ghost predicate Aligned(request: HttpRequest) {
    && request.url.Some?
    && var parsed := Revalidate(request.url.value);
       parsed.Ok? &&
       if request.parsed.host.ipAddr.Some? then parsed.value.host.ipAddr.Some?
       else parsed.value.host.host == request.parsed.host.host && parsed.value.port == request.parsed.port
  }

  // What an aspect asks of the request and the world.
  ghost predicate Applies(aspect: Aspect, request: HttpRequest, world: World) {
    InWorld(aspect, world) && (aspect.Pins? ==> Aligned(request))
  }

  lemma FetchIsSound(aspect: Aspect, request: HttpRequest, world: World, trace: Trace, etag: Option<string>)
    requires request.url.Some? && Applies(aspect, request, world) && Sound(aspect, request, trace)
    ensures var run := Fetch(request, world, trace, etag);
            && Sound(aspect, request, run.trace)
            && (run.result.Ok? ==>
                  && LastAnswer(run.trace, run.result.value)
                  && (request.policy.followRedirects ==> IsFinal(run.result.value.status)))
  {
    var pinned := PinRun(request.allowPrivate, world, trace, request.parsed.host, request.parsed.port);
    PinRunIsSound(aspect, request, world, trace, request.parsed.host, request.parsed.port);
    if pinned.result.Ok? {
      var pin, first := pinned.result.value, FirstHop(request);
      var call := Call(pin, first, etag);
      assert MaySend(aspect, request, world, pinned.trace, call);
      AttemptsAreSound(aspect, request, world, pinned.trace, call, MaxAttempts(request));
      AttemptsKeepPin(request, world, pinned.trace, call, MaxAttempts(request),
                      request.parsed.host, request.parsed.port, pin);
      var tried := Attempts(request, world, pinned.trace, call, MaxAttempts(request));
      if tried.result.Ok? && request.policy.followRedirects {
        FollowIsSound(aspect, request, world, tried.trace, pin, [first.url], first, tried.result.value);
      }
    }
  }

  lemma TellIsSound(aspect: Aspect, request: HttpRequest, world: World, trace: Trace)
    requires InWorld(aspect, world) && Sound(aspect, request, trace)
    ensures Sound(aspect, request, Tell(request, world, trace).trace)
  {
    SoundAppend(aspect, request, trace, Reported(world.report(trace)));
  }

  lemma AdmitIsSound(aspect: Aspect, request: HttpRequest, world: World, trace: Trace)
    requires InWorld(aspect, world) && Sound(aspect, request, trace)
    ensures Sound(aspect, request, Admit(request, world, trace).trace)
  {
    SoundAppend(aspect, request, trace, Permitted(world.permit(trace)));
  }

  lemma ReadIsSound(aspect: Aspect, request: HttpRequest, world: World, trace: Trace)
    requires InWorld(aspect, world) && Sound(aspect, request, trace)
    ensures Log(trace) == [] || (exists answer :: LastAnswer(trace, answer) && answer.status == 304) ==>
              Sound(aspect, request, ReadCache(request, world, trace).0)
    ensures Sound(aspect, request, ReadEtag(request, world, trace).0)
  {
    if request.cached && Cacheable(request.verb) {
      if Log(trace) == [] || (exists answer :: LastAnswer(trace, answer) && answer.status == 304) {
        SoundAppend(aspect, request, trace, CacheRead(world.readCache(trace)));
      }
      SoundAppend(aspect, request, trace, EtagRead(world.readEtag(trace)));
    }
  }

  lemma FinishIsSound(aspect: Aspect, request: HttpRequest, world: World, trace: Trace, answer: Response)
    requires InWorld(aspect, world) && Sound(aspect, request, trace) && LastAnswer(trace, answer)
    ensures Sound(aspect, request, Finish(request, world, trace, answer).trace)
  {
    if StatusError(answer.status).None? {
      var read := if answer.status == 304 then ReadCache(request, world, trace).0 else trace;
      ReadIsSound(aspect, request, world, trace);
      if request.cached && Cacheable(request.verb) && IsSuccess(answer.status) {
        SoundAppend(aspect, request, read, CacheWrite(Redacted(answer)));
        TellIsSound(aspect, request, world, read + [CacheWrite(Redacted(answer))]);
      } else {
        TellIsSound(aspect, request, world, read);
      }
    }
  }

  lemma ServedIsSound(aspect: Aspect, request: HttpRequest, world: World, trace: Trace)
    requires request.url.Some? && Applies(aspect, request, world) && Sound(aspect, request, trace) && Log(trace) == []
    ensures Sound(aspect, request, Served(request, world, trace).trace)
    ensures ResultFits(request, Served(request, world, trace))
  {
    var (read, hit) := ReadCache(request, world, trace);
    ReadIsSound(aspect, request, world, trace);
    CacheLog(request, world, trace);
    if hit.Some? {
      HitIsSound(aspect, request, world, trace);
    } else {
      var (ready, etag) := ReadEtag(request, world, read);
      ReadIsSound(aspect, request, world, read);
      FetchIsSound(aspect, request, world, ready, etag);
      var fetched := Fetch(request, world, ready, etag);
      if fetched.result.Ok? {
        FinishIsSound(aspect, request, world, fetched.trace, fetched.result.value);
        FinishResult(request, world, fetched.trace, fetched.result.value);
      }
    }
  }

  lemma HitIsSound(aspect: Aspect, request: HttpRequest, world: World, trace: Trace)
    requires InWorld(aspect, world) && Log(trace) == [] && ReadCache(request, world, trace).1.Some?
    requires Sound(aspect, request, ReadCache(request, world, trace).0)
    ensures var (read, hit) := ReadCache(request, world, trace);
            var done := Tell(request, world, read);
            && Sound(aspect, request, done.trace)
            && Log(done.trace) == [] && CacheRead(hit) in done.trace
  {
    var (read, hit) := ReadCache(request, world, trace);
    CacheLog(request, world, trace);
    TellIsSound(aspect, request, world, read);
    TellLog(request, world, read);
    assert read[|trace|] == CacheRead(hit);
  }

  // What a successful run returns: a cached response and no exchange, or the
  // last answer, redacted, which is then no error status and, when redirects
  // are followed, no redirect; after a 304 a cached response may stand in.
  ghost predicate ResultFits(request: HttpRequest, run: Run) {
    run.result.Ok? ==>
      || (Log(run.trace) == [] && CacheRead(Some(run.result.value)) in run.trace)
      || exists answer ::
           && LastAnswer(run.trace, answer) && answer.status != 429 && !(500 <= answer.status < 600)
           && (request.policy.followRedirects ==> IsFinal(answer.status))
           && (IsCleaned(run.result.value, answer) || IsRevalidated(run.trace, answer, run.result.value))
  }

  ghost predicate IsRevalidated(trace: Trace, answer: Response, response: Response) {
    answer.status == 304 && exists hit :: CacheRead(Some(hit)) in trace && response == hit.(status := 304)
  }

  lemma FinishResult(request: HttpRequest, world: World, trace: Trace, answer: Response)
    requires LastAnswer(trace, answer) && (request.policy.followRedirects ==> IsFinal(answer.status))
    ensures ResultFits(request, Finish(request, world, trace, answer))
  {
    var run := Finish(request, world, trace, answer);
    FinishLog(request, world, trace, answer);
    assert LastAnswer(run.trace, answer);
    if run.result.Ok? && !IsCleaned(run.result.value, answer) {
      var (read, hit) := ReadCache(request, world, trace);
      assert read[|trace|] == CacheRead(hit);
      assert read <= run.trace;
    }
  }

  lemma ExecuteIsSound(aspect: Aspect, request: HttpRequest, world: World)
    requires Applies(aspect, request, world)
    ensures Sound(aspect, request, Execute(request, world).trace)
    ensures ResultFits(request, Execute(request, world))
  {
    if Validate(request, world.syntax).None? {
      var told := Tell(request, world, []);
      TellIsSound(aspect, request, world, []);
      TellLog(request, world, []);
      if told.refusal.None? {
        var admitted := Admit(request, world, told.trace);
        AdmitIsSound(aspect, request, world, told.trace);
        AdmitLog(request, world, told.trace);
        if admitted.refusal.None? {
          ServedIsSound(aspect, request, world, admitted.trace);
        }
      }
    }
  }

  lemma SendIsSound(aspect: Aspect, request: HttpRequest, hooks: Hooks, world: World, signal: Signal)
    requires hooks.onRequest(request).Ok? && Applies(aspect, hooks.onRequest(request).value, world)
    ensures Sound(aspect, hooks.onRequest(request).value, SendRun(request, hooks, world, signal).trace)
  {
    var final := hooks.onRequest(request).value;
    var whole := Execute(final, world).trace;
    ExecuteIsSound(aspect, final, world);
    CutRun(request, hooks, world, signal);
    var trace := SendRun(request, hooks, world, signal).trace;
    SoundPrefix(aspect, final, whole, |trace|);
    assert whole[..|trace|] == trace;
  }

  // ----- What that means -----

  lemma PinnedAddresses(allowPrivate: bool, host: string, port: nat, answer: Result<seq<IpAddr>>)
    requires Pinned(allowPrivate, host, port, answer).Ok?
    ensures var pin := Pinned(allowPrivate, host, port, answer).value;
            && answer.Ok? && pin.addresses != []
            && (forall a :: a in pin.addresses <==> a.port == port && a.ip in answer.value)
            && (allowPrivate || forall a :: a in pin.addresses ==> !IsBlockedIp(a.ip))
  {
    ResolvedNonEmpty(answer);
    FirstOccurrencesSpec(answer.value);
    var ips := FirstOccurrences(answer.value);
    var sockets := Sockets(ips, port);
    forall a: SocketAddr | a.port == port && a.ip in ips ensures a in sockets {
      var k :| 0 <= k < |ips| && ips[k] == a.ip;
      assert sockets[k] == a;
    }
  }

  // A connection to a pinned host goes to addresses that one lookup of that
  // very host gave, on its own port, none of them blocked unless private
  // networks were opted into. A connection without a pin goes to an address
  // literal that is not blocked.
  ghost predicate ConnectsSafely(request: HttpRequest, before: Trace, call: Call) {
    var parsed := Revalidate(call.hop.url);
    && parsed.Ok?
    && match call.pin
       case None => parsed.value.host.ipAddr.Some? && !IsBlockedIp(parsed.value.host.ipAddr.value)
       case Some(pin) =>
         && pin.host == parsed.value.host.host && pin.addresses != []
         && (forall a :: a in pin.addresses ==>
               a.port == parsed.value.port && (request.allowPrivate || !IsBlockedIp(a.ip)))
         && exists k, answers :: 0 <= k < |before| && before[k] == Lookup(pin.host, Ok(answers)) &&
              forall a :: a in pin.addresses <==> a.port == parsed.value.port && a.ip in answers
  }

  lemma PinnedConnectsSafely(request: HttpRequest, before: Trace, call: Call)
    requires CallPinned(request, before, call)
    ensures ConnectsSafely(request, before, call)
  {
    var parsed := Revalidate(call.hop.url).value;
    AcceptedUrls(call.hop.url);
    if call.pin.Some? {
      var pin := call.pin.value;
      var k :| 0 <= k < |before| && GivesPin(request.allowPrivate, before[k], pin, parsed.port);
      PinnedAddresses(request.allowPrivate, pin.host, parsed.port, before[k].answer);
      assert before[k] == Lookup(pin.host, Ok(before[k].answer.value));
    }
  }

  // Every connection of every run is safe, as long as the request that leaves
  // the interceptors is aligned.
  lemma ConnectionsAreSafe(request: HttpRequest, hooks: Hooks, world: World, signal: Signal, i: nat)
    requires hooks.onRequest(request).Ok? && Aligned(hooks.onRequest(request).value)
    ensures var trace := SendRun(request, hooks, world, signal).trace;
            i < |trace| && trace[i].Exchanged? ==>
              ConnectsSafely(hooks.onRequest(request).value, trace[..i], trace[i].exchange.call)
  {
    var trace := SendRun(request, hooks, world, signal).trace;
    SendIsSound(Pins, request, hooks, world, signal);
    if i < |trace| && trace[i].Exchanged? {
      assert FitsAt(Pins, hooks.onRequest(request).value, trace, i);
      PinnedConnectsSafely(hooks.onRequest(request).value, trace[..i], trace[i].exchange.call);
    }
  }

  // Only a successful answer to a GET or HEAD is stored, and only redacted.
  lemma StoredResponsesAreRedacted(request: HttpRequest, hooks: Hooks, world: World, signal: Signal, i: nat)
    requires hooks.onRequest(request).Ok?
    ensures var trace := SendRun(request, hooks, world, signal).trace;
            i < |trace| && trace[i].CacheWrite? ==>
              var final, r := hooks.onRequest(request).value, trace[i].response;
              && (final.verb == "GET" || final.verb == "HEAD") && 200 <= r.status < 300 && NothingSecret(r.headers)
              && exists answer :: LastAnswer(trace[..i], answer) && IsCleaned(r, answer)
  {
    var trace := SendRun(request, hooks, world, signal).trace;
    SendIsSound(Caching, request, hooks, world, signal);
    if i < |trace| && trace[i].CacheWrite? {
      assert FitsAt(Caching, hooks.onRequest(request).value, trace, i);
      var answer :| LastAnswer(trace[..i], answer) && IsCleaned(trace[i].response, answer);
      RedactedIsNotSecret(answer.headers);
    }
  }

  // No malformed header is ever sent.
  lemma SentHeadersAreWellFormed(request: HttpRequest, hooks: Hooks, world: World, signal: Signal, i: nat)
    requires hooks.onRequest(request).Ok?
    ensures var trace := SendRun(request, hooks, world, signal).trace;
            i < |trace| && trace[i].Exchanged? && !trace[i].exchange.outcome.Unsent? ==>
              WellFormed(world.syntax, trace[i].exchange.call.hop.headers)
  {
    var trace := SendRun(request, hooks, world, signal).trace;
    SendIsSound(Wire(world.syntax), request, hooks, world, signal);
    if i < |trace| && trace[i].Exchanged? {
      assert FitsAt(Wire(world.syntax), hooks.onRequest(request).value, trace, i);
    }
  }

  // Each event records what the tracker, the limiter, the cache, the resolver
  // or the server answered at that point, given all that came before.
  lemma EventsAreAnswers(request: HttpRequest, hooks: Hooks, world: World, signal: Signal, i: nat)
    requires hooks.onRequest(request).Ok?
    ensures var trace := SendRun(request, hooks, world, signal).trace;
            i < |trace| ==> IsAnswer(world, trace[..i], trace[i])
  {
    var trace := SendRun(request, hooks, world, signal).trace;
    SendIsSound(Oracles(world), request, hooks, world, signal);
    if i < |trace| {
      assert FitsAt(Oracles(world), hooks.onRequest(request).value, trace, i);
    }
  }

  // Whatever the interceptors put back, no sensitive header reaches the caller.
  lemma ReturnedResponseIsRedacted(request: HttpRequest, hooks: Hooks, world: World, signal: Signal)
    ensures var run := SendRun(request, hooks, world, signal);
            run.result.Ok? ==> NothingSecret(run.result.value.headers)
  {
    var final := hooks.onRequest(request);
    if final.Ok? {
      var run := Execute(final.value, world);
      if run.result.Ok? {
        var seen := hooks.onResponse(run.result.value);
        if seen.Ok? { RedactedIsNotSecret(seen.value.headers); }
      }
    }
  }

  // The caller gets what the interceptors make of such a result, redacted.
  lemma ResultIsTheLastAnswer(request: HttpRequest, hooks: Hooks, world: World, signal: Signal)
    ensures var run := SendRun(request, hooks, world, signal);
            run.result.Ok? ==>
              && hooks.onRequest(request).Ok?
              && exists seen ::
                   && ResultFits(hooks.onRequest(request).value, Run(run.trace, Ok(seen)))
                   && hooks.onResponse(seen).Ok? && IsCleaned(run.result.value, hooks.onResponse(seen).value)
  {
    var final, run := hooks.onRequest(request), SendRun(request, hooks, world, signal);
    if run.result.Ok? {
      ExecuteIsSound(Caching, final.value, world);
      var seen := Execute(final.value, world).result.value;
      assert Execute(final.value, world) == Run(run.trace, Ok(seen));
    }
  }
}
