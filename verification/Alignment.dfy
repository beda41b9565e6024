// When a request's connections are safe: exactly when its parsed form is right
// about its URL. Both are public fields, and an interceptor may change one and
// not the other.
module Alignment {
  import opened Wrappers
  import opened Addresses
  import opened UrlValidation
  import opened RedirectPolicy
  import opened HeaderValidation
  import opened RequestHandler
  import opened RequestSafety
  import opened RequestTrace

  ghost predicate SafeConnectionAt(request: HttpRequest, trace: Trace, i: nat)
    requires i < |trace|
  {
    trace[i].Exchanged? && !trace[i].exchange.outcome.Unsent? ==>
      ConnectsSafely(request, trace[..i], trace[i].exchange.call)
  }

  // Every connection that a run in this world makes.
  ghost predicate ConnectsSafelyIn(request: HttpRequest, world: World) {
    var trace := Execute(request, world).trace;
    forall i :: 0 <= i < |trace| ==> SafeConnectionAt(request, trace, i)
  }

  // A world in which everything works: names resolve to one address and
  // servers answer 200.
  function FriendlyWorld(ip: IpAddr, syntax: Syntax): World {
    World(
      (trace: Trace) => true, (trace: Trace) => None, (trace: Trace) => None, (trace: Trace) => None,
      (trace: Trace, host: string) => Ok([ip]),
      (trace: Trace, call: Call) => Replied(Reply(200, [], [])),
      (url: Url, location: string) => None, syntax)
  }

  function FriendlyPin(request: HttpRequest, ip: IpAddr): Option<Pin> {
    if request.parsed.host.ipAddr.Some? then None
    else Some(Pin(request.parsed.host.host, [SocketAddr(ip, request.parsed.port)]))
  }

  lemma FriendlyPinRun(request: HttpRequest, ip: IpAddr, syntax: Syntax, trace: Trace)
    requires request.allowPrivate || !IsBlockedIp(ip)
    ensures var parsed := request.parsed;
            PinRun(request.allowPrivate, FriendlyWorld(ip, syntax), trace, parsed.host, parsed.port).result ==
            Ok(FriendlyPin(request, ip))
  {
    var answers := [ip];
    assert answers[..0] == [];
    assert FirstOccurrences(answers) == answers;
    assert Sockets(answers, request.parsed.port) == [SocketAddr(ip, request.parsed.port)];
  }

  // The exchange such a run begins with.
  predicate IsFirst(request: HttpRequest, ip: IpAddr, e: Event) {
    && e.Exchanged? && e.exchange.outcome.Replied? && Some(e.exchange.call.hop.url) == request.url
    && e.exchange.call.pin == FriendlyPin(request, ip)
  }

  ghost predicate HasFirst(request: HttpRequest, ip: IpAddr, trace: Trace) {
    exists i :: 0 <= i < |trace| && IsFirst(request, ip, trace[i])
  }

  lemma HasFirstLonger(request: HttpRequest, ip: IpAddr, trace: Trace, longer: Trace)
    requires HasFirst(request, ip, trace) && trace <= longer
    ensures HasFirst(request, ip, longer)
  {
    var i :| 0 <= i < |trace| && IsFirst(request, ip, trace[i]);
    assert longer[i] == trace[i];
  }

  lemma FriendlyFetch(request: HttpRequest, ip: IpAddr, syntax: Syntax, trace: Trace, etag: Option<string>)
    requires request.url.Some? && WellFormed(syntax, request.headers) && (request.allowPrivate || !IsBlockedIp(ip))
    ensures var run := Fetch(request, FriendlyWorld(ip, syntax), trace, etag);
            run.result.Ok? && run.result.value.status == 200 && HasFirst(request, ip, run.trace)
  {
    var world := FriendlyWorld(ip, syntax);
    var pinned := PinRun(request.allowPrivate, world, trace, request.parsed.host, request.parsed.port);
    FriendlyPinRun(request, ip, syntax, trace);
    var call := Call(FriendlyPin(request, ip), FirstHop(request), etag);
    var sent := SendTarget(world, pinned.trace, call);
    assert sent.trace[|pinned.trace|] == Exchanged(Exchange(call, Replied(Reply(200, [], []))));
    assert IsFirst(request, ip, sent.trace[|pinned.trace|]);
  }

  lemma FriendlyRun(request: HttpRequest, ip: IpAddr, syntax: Syntax)
    requires Validate(request, syntax).None? && WellFormed(syntax, request.headers)
    requires request.allowPrivate || !IsBlockedIp(ip)
    ensures HasFirst(request, ip, Execute(request, FriendlyWorld(ip, syntax)).trace)
  {
    var world := FriendlyWorld(ip, syntax);
    var admitted := Admit(request, world, Tell(request, world, []).trace);
    var read := ReadCache(request, world, admitted.trace).0;
    var (ready, etag) := ReadEtag(request, world, read);
    var fetched := Fetch(request, world, ready, etag);
    FriendlyFetch(request, ip, syntax, ready, etag);
    var run := Finish(request, world, fetched.trace, fetched.result.value);
    assert fetched.trace <= run.trace;
    HasFirstLonger(request, ip, fetched.trace, run.trace);
  }

  const PUBLIC_ADDRESS := V4(Ipv4(8, 8, 8, 8))

  lemma PublicIsNotBlocked()
    ensures !IsBlockedIp(PUBLIC_ADDRESS)
  {
    PrivateIntervals(PUBLIC_ADDRESS.v4);
  }

  lemma FirstIsUnsafe(request: HttpRequest, ip: IpAddr, before: Trace, e: Event)
    requires IsFirst(request, ip, e) && !Aligned(request)
    ensures !ConnectsSafely(request, before, e.exchange.call)
  {
    var port := request.parsed.port;
    if request.parsed.host.ipAddr.None? {
      assert SocketAddr(ip, port) in e.exchange.call.pin.value.addresses;
    }
  }

  lemma UnalignedIsUnsafe(request: HttpRequest, syntax: Syntax)
    requires Validate(request, syntax).None? && WellFormed(syntax, request.headers) && !Aligned(request)
    ensures !ConnectsSafelyIn(request, FriendlyWorld(PUBLIC_ADDRESS, syntax))
  {
    var trace := Execute(request, FriendlyWorld(PUBLIC_ADDRESS, syntax)).trace;
    PublicIsNotBlocked();
    FriendlyRun(request, PUBLIC_ADDRESS, syntax);
    var i :| 0 <= i < |trace| && IsFirst(request, PUBLIC_ADDRESS, trace[i]);
    FirstIsUnsafe(request, PUBLIC_ADDRESS, trace[..i], trace[i]);
    assert !SafeConnectionAt(request, trace, i);
  }

  lemma AlignedIsSafe(request: HttpRequest, world: World)
    requires Aligned(request)
    ensures ConnectsSafelyIn(request, world)
  {
    var trace := Execute(request, world).trace;
    ExecuteIsSound(Pins, request, world);
    forall i | 0 <= i < |trace| ensures SafeConnectionAt(request, trace, i) {
      assert FitsAt(Pins, request, trace, i);
      if trace[i].Exchanged? {
        PinnedConnectsSafely(request, trace[..i], trace[i].exchange.call);
      }
    }
  }

  // ----- A malformed header keeps everything off the wire -----

  predicate WellFormedIfSent(syntax: Syntax, x: Exchange) {
    !x.outcome.Unsent? ==> WellFormed(syntax, x.call.hop.headers)
  }

  lemma SentIsWellFormed(request: HttpRequest, world: World, k: nat)
    requires k < |Log(Execute(request, world).trace)|
    ensures WellFormedIfSent(world.syntax, Log(Execute(request, world).trace)[k])
  {
    var trace := Execute(request, world).trace;
    ExecuteIsSound(Wire(world.syntax), request, world);
    var i := TraceHas(trace, k);
    assert FitsAt(Wire(world.syntax), request, trace, i);
  }

  lemma AttemptsUnsent(request: HttpRequest, join: (Url, string) -> Option<Url>, syntax: Syntax,
                       log: seq<Exchange>, n: nat, k: nat)
    requires RunLog(request, join, log, n) && k < n
    requires !WellFormed(syntax, request.headers) && WellFormedIfSent(syntax, log[k])
    ensures log[k].outcome.Unsent?
  {
    AttemptAt(request, join, log, n, k);
  }

  lemma NoHopAfter(request: HttpRequest, join: (Url, string) -> Option<Url>, log: seq<Exchange>, n: nat)
    requires RunLog(request, join, log, n) && log[n - 1].outcome.Unsent?
    ensures n == |log|
  {
    if n < |log| { StepAt(request, join, log, n, n); }
  }

  lemma NothingSent(request: HttpRequest, world: World, k: nat)
    requires !WellFormed(world.syntax, request.headers) && k < |Log(Execute(request, world).trace)|
    ensures Log(Execute(request, world).trace)[k].outcome.Unsent?
  {
    var log := Log(Execute(request, world).trace);
    ExecuteIsLogged(request, world);
    var n: nat :| RunLog(request, world.join, log, n);
    SentIsWellFormed(request, world, n - 1);
    AttemptsUnsent(request, world.join, world.syntax, log, n, n - 1);
    NoHopAfter(request, world.join, log, n);
    SentIsWellFormed(request, world, k);
    AttemptsUnsent(request, world.join, world.syntax, log, n, k);
  }

  lemma MalformedIsSafe(request: HttpRequest, world: World)
    requires !WellFormed(world.syntax, request.headers)
    ensures ConnectsSafelyIn(request, world)
  {
    var trace := Execute(request, world).trace;
    forall i | 0 <= i < |trace| ensures SafeConnectionAt(request, trace, i) {
      if trace[i].Exchanged? {
        LogHas(trace, i);
        var k :| 0 <= k < |Log(trace)| && Log(trace)[k] == trace[i].exchange;
        NothingSent(request, world, k);
      }
    }
  }

  // ----- The condition -----

  ghost predicate AlwaysConnectsSafely(request: HttpRequest, syntax: Syntax) {
    forall world: World :: world.syntax == syntax ==> ConnectsSafelyIn(request, world)
  }

  // A valid request connects safely in every world if and only if its parsed
  // form is right about its URL, or a malformed header keeps it off the wire.
  lemma SafeExactlyWhenAligned(request: HttpRequest, syntax: Syntax)
    requires Validate(request, syntax).None?
    ensures AlwaysConnectsSafely(request, syntax) <==> Aligned(request) || !WellFormed(syntax, request.headers)
  {
    if Aligned(request) || !WellFormed(syntax, request.headers) {
      forall world: World | world.syntax == syntax ensures ConnectsSafelyIn(request, world) {
        if Aligned(request) { AlignedIsSafe(request, world); } else { MalformedIsSafe(request, world); }
      }
    } else {
      UnalignedIsUnsafe(request, syntax);
      assert FriendlyWorld(PUBLIC_ADDRESS, syntax).syntax == syntax;
    }
  }

  // ----- A request that is not aligned -----

  // Its URL was changed to a name, its parsed form still is an address literal.
  const CHANGED_URL := Url("https", false, Some(Domain("a")), None, [PercentDecoding.SLASH], [])

  function ChangedRequest(): HttpRequest {
    HttpRequest(
      "GET", Some(CHANGED_URL),
      ParsedUrl("https", ValidatedHost("8.8.8.8", Some(PUBLIC_ADDRESS)), 443, [PercentDecoding.SLASH]),
      [], None, DEFAULT_POLICY, Scope({}, {}, false), None, false, false, false, false)
  }

  // It connects to that name without a pin.
  lemma ChangedUrlConnectsUnpinned(syntax: Syntax) returns (i: nat)
    ensures var trace := Execute(ChangedRequest(), FriendlyWorld(PUBLIC_ADDRESS, syntax)).trace;
            && i < |trace| && trace[i].Exchanged? && trace[i].exchange.outcome.Replied?
            && trace[i].exchange.call.hop.url == CHANGED_URL && trace[i].exchange.call.pin == None
            && !ConnectsSafely(ChangedRequest(), trace[..i], trace[i].exchange.call)
  {
    var request := ChangedRequest();
    var trace := Execute(request, FriendlyWorld(PUBLIC_ADDRESS, syntax)).trace;
    OpenScopeAdmits(CHANGED_URL);
    PublicIsNotBlocked();
    FriendlyRun(request, PUBLIC_ADDRESS, syntax);
    i :| 0 <= i < |trace| && IsFirst(request, PUBLIC_ADDRESS, trace[i]);
    NamesHaveNoAddress(CHANGED_URL);
  }

  lemma OpenScopeAdmits(url: Url)
    requires IsWeb(url.scheme) && url.host.Some?
    ensures CheckUrl(Scope({}, {}, false), Some(url)).None?
  {}

  lemma NamesHaveNoAddress(url: Url)
    requires url.host.Some? && url.host.value.Domain?
    ensures Revalidate(url).Ok? ==> Revalidate(url).value.host.ipAddr.None?
  {
    AcceptedUrls(url);
  }
}
