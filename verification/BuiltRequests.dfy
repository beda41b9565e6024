// Requests as the builder makes them (src/builder.rs), sent.
module BuiltRequests {
  import opened Wrappers
  import opened Text
  import opened Addresses
  import opened UrlValidation
  import opened RedirectPolicy
  import opened HeaderValidation
  import opened RequestHandler
  import opened RequestSafety
  import opened RequestTrace
  import opened RequestRules
  import opened Alignment
  import opened Builder

  // `baseHost` is the host of the base URL, if there is one and it parses.
  datatype HttpClientBuilder = HttpClientBuilder(
    checkPrivateIps: bool, maxRedirects: nat, followRedirects: bool, baseHost: Option<string>,
    defaultHeaders: seq<Header>)

  function GetRedirectPolicy(b: HttpClientBuilder): Policy {
    DEFAULT_POLICY.(
      maxRedirects := b.maxRedirects, trackAllRedirects := true, allowAnyRedirect := false,
      followRedirects := b.followRedirects,
      allowedHosts := if b.baseHost.Some? then {NormalizeHost(b.baseHost.value)} else {})
  }

  // The scope of a request that names nothing else: its own host.
  function HostScope(parsed: ParsedUrl): Scope {
    Scope({NormalizeHost(parsed.host.host)}, {}, true)
  }

  function NewRequest(verb: string, rawDangerous: bool, url: Option<Url>): Result<HttpRequest> {
    match ValidateUrl(rawDangerous, url)
    case Err(e) => Err(e)
    case Ok(parsed) =>
      Ok(HttpRequest(verb, url, parsed, [], None, DEFAULT_POLICY, HostScope(parsed), None, false, false, false, false))
  }

  // `url` is the target as parsed or joined to the base URL.
  function CreateRequest(b: HttpClientBuilder, verb: string, rawDangerous: bool, url: Option<Url>)
    : Result<HttpRequest>
  {
    match NewRequest(verb, rawDangerous, url)
    case Err(e) => Err(e)
    case Ok(request) =>
      Ok(request.(
        policy := GetRedirectPolicy(b),
        headers := b.defaultHeaders,
        allowPrivate := !b.checkPrivateIps,
        scope := if b.checkPrivateIps then request.scope.(denyList := NormalizeAll(REQUEST_DENY_LIST))
                 else Scope({}, {}, false)))
  }

  // A built request's parsed form is right about its URL, so its connections
  // are safe as long as neither is changed.
  lemma BuiltIsAligned(b: HttpClientBuilder, verb: string, rawDangerous: bool, url: Option<Url>)
    ensures var built := CreateRequest(b, verb, rawDangerous, url);
            built.Ok? ==> !rawDangerous && Aligned(built.value) && built.value.url == url
  {}

  function Elements(hosts: seq<string>): set<string> {
    set h | h in hosts
  }

  predicate IsNormal(host: string) {
    NormalizeHost(host) == host
  }

  lemma {:induction false} NormalListStays(hosts: seq<string>)
    requires forall h :: h in hosts ==> IsNormal(h)
    ensures NormalizeAll(hosts) == Elements(hosts)
  {
    if hosts != [] {
      var init, last := hosts[..|hosts| - 1], hosts[|hosts| - 1];
      assert hosts == init + [last];
      assert IsNormal(last);
      NormalListStays(init);
    }
  }

  // The deny list as stored refuses what the list as written denies.
  lemma StoredListMatchesAlike(list: seq<string>, patterns: seq<Pattern>, host: string)
    requires Prints(list, patterns)
    ensures MatchesAny(NormalizeAll(list), host) <==> Denied(list, host)
  {
    PrintedListIsNormal(list, patterns);
    NormalListStays(list);
    AnyOfList(list, host);
  }

  lemma PrintedListIsNormal(list: seq<string>, patterns: seq<Pattern>)
    requires Prints(list, patterns)
    ensures forall h :: h in list ==> IsNormal(h)
  {
    forall h | h in list ensures IsNormal(h) {
      var k :| 0 <= k < |list| && list[k] == h;
      assert PrintsOne(list[k], patterns[k]);
      PrintedIsSettled(patterns[k]);
      SettledIsNormal(h);
    }
  }

  lemma AnyOfList(list: seq<string>, host: string)
    ensures MatchesAny(Elements(list), host) <==> Denied(list, host)
  {
    var all := Elements(list);
    if k :| 0 <= k < |list| && MatchesHostPattern(list[k], host) {
      assert list[k] in all;
    }
    if p :| p in all && MatchesHostPattern(p, host) {
      var k :| 0 <= k < |list| && list[k] == p;
      assert MatchesHostPattern(list[k], host);
    }
  }

  lemma StarlessPatternIsExact(pattern: string, host: string)
    requires '*' !in pattern && NormalizeHost(pattern) == pattern
    ensures MatchesHostPattern(pattern, host) <==> NormalizeHost(host) == pattern
  {
    PlainPatternIsExact(pattern, NormalizeHost(host));
  }

  // ----- A request's own host -----

  // The name under which a built request knows its own host.
  function OwnName(host: Host): string {
    match host
    case Domain(name) => Lower(name)
    case Ipv4Host(x) => Dotted(x)
    case Ipv6Host(_, _, display) => display
  }

  lemma Ipv6TextIsNormal(text: Ipv6Text)
    ensures NormalizeHost(text) == text && '*' !in text
  {
    NothingToTrim(text);
    assert Lower(text) == text;
  }

  lemma BracketsAreTrimmed(text: Ipv6Text)
    ensures NormalizeHost("[" + text + "]") == text
  {
    var bracketed := "[" + text + "]";
    TrimShortens(bracketed);
    assert bracketed[1..] == text + "]" && (text + "]")[..|text|] == text;
    assert TrimStartMatches(bracketed, '[') == text + "]";
    assert TrimEndMatches(text + "]", ']') == text;
    assert Lower(text) == text;
  }

  // It is the normal form of the host as validated, and of the host as the URL
  // prints it unless that is an IPv6 address printed differently.
  lemma OwnNameIsNormal(host: Host)
    requires SafeHost(host)
    ensures NormalizeHost(OwnName(host)) == OwnName(host) && '*' !in OwnName(host)
    ensures NormalizeHost(HostStr(host)) == OwnName(host) <==> (host.Ipv6Host? ==> host.text == host.display)
  {
    match host
    case Domain(name) =>
      ValidNamesSettle(name);
      SettledIsNormal(Lower(name));
      ValidNameHasNoStar(name);
    case Ipv4Host(x) =>
      DottedIsSettled(x);
      SettledIsNormal(Dotted(x));
      DottedHasNoStar(x);
    case Ipv6Host(_, text, display) =>
      Ipv6TextIsNormal(display);
      BracketsAreTrimmed(text);
  }

  lemma ValidNameHasNoStar(name: string)
    requires ValidDomainShape(name)
    ensures '*' !in Lower(name)
  {
    forall i: nat | i < |name| ensures IsDomainByte(name[i]) || name[i] == '.' {
      CharsOfParts(name, i);
    }
  }

  lemma DottedHasNoStar(x: Ipv4)
    ensures '*' !in Dotted(x)
  {
    DecimalIsDigits(x.a);
    DecimalIsDigits(x.b);
    DecimalIsDigits(x.c);
    DecimalIsDigits(x.d);
  }

  lemma ValidatedName(url: Url)
    requires Revalidate(url).Ok?
    ensures url.host.Some? && SafeHost(url.host.value)
    ensures NormalizeHost(Revalidate(url).value.host.host) == OwnName(url.host.value)
  {
    AcceptedUrls(url);
    OwnNameIsNormal(url.host.value);
    if url.host.value.Domain? {
      ValidNamesSettle(url.host.value.name);
    }
  }

  // What the scope of a built request lets through: the hosts of its own name,
  // unless the deny list has them.
  lemma BuiltScopeIsOwnHost(b: HttpClientBuilder, verb: string, rawDangerous: bool, url: Url, host: string)
    requires b.checkPrivateIps && CreateRequest(b, verb, rawDangerous, Some(url)).Ok?
    ensures url.host.Some?
    ensures InScope(CreateRequest(b, verb, rawDangerous, Some(url)).value.scope, host) <==>
              NormalizeHost(host) == OwnName(url.host.value) && !Denied(REQUEST_DENY_LIST, host)
  {
    var scope := CreateRequest(b, verb, rawDangerous, Some(url)).value.scope;
    BuiltIsAligned(b, verb, rawDangerous, Some(url));
    ValidatedName(url);
    var own := OwnName(url.host.value);
    OwnNameIsNormal(url.host.value);
    StarlessPatternIsExact(own, host);
    assert scope.allowList == {own};
    MatchesOne(own, host);
    ListsArePrinted();
    StoredListMatchesAlike(REQUEST_DENY_LIST, REQUEST_DENIES, host);
  }

  // A built request is let through to its own URL unless the deny list has it
  // or it is an IPv6 address that the URL and the standard library print
  // differently: such a request can never be sent.
  lemma BuiltRequestReachesItself(b: HttpClientBuilder, verb: string, rawDangerous: bool, url: Url)
    requires b.checkPrivateIps && CreateRequest(b, verb, rawDangerous, Some(url)).Ok?
    ensures url.host.Some?
    ensures var host := url.host.value;
            CheckUrl(CreateRequest(b, verb, rawDangerous, Some(url)).value.scope, Some(url)).None? <==>
              (host.Ipv6Host? ==> host.text == host.display) && !Denied(REQUEST_DENY_LIST, HostStr(host))
  {
    BuiltIsAligned(b, verb, rawDangerous, Some(url));
    AcceptedUrls(url);
    BuiltScopeIsOwnHost(b, verb, rawDangerous, url, HostStr(url.host.value));
    OwnNameIsNormal(url.host.value);
    ScopeAccepts(CreateRequest(b, verb, rawDangerous, Some(url)).value.scope, url);
  }

  // An address of which the two forms differ. A request for it is built, and
  // its own scope refuses it.
  const MAPPED_HOST := Ipv6Host(Mapped(Ipv4(8, 8, 8, 8)), "::ffff:808:808", "::ffff:8.8.8.8")

  const MAPPED_URL := Url("https", false, Some(MAPPED_HOST), None, [PercentDecoding.SLASH], [])

  lemma MappedHostIsRefused(b: HttpClientBuilder, verb: string)
    requires b.checkPrivateIps
    ensures var built := CreateRequest(b, verb, false, Some(MAPPED_URL));
            built.Ok? && CheckUrl(built.value.scope, Some(MAPPED_URL)).Some?
  {
    MappedUrlIsValid();
    BuiltRequestReachesItself(b, verb, false, MAPPED_URL);
    FormsDiffer();
  }

  lemma MappedUrlIsValid()
    ensures Revalidate(MAPPED_URL).Ok?
  {
    MappedHostIsSafe();
    SlashIsHarmless();
    AcceptedUrls(MAPPED_URL);
  }

  lemma FormsDiffer()
    ensures MAPPED_HOST.text != MAPPED_HOST.display
  {
    assert "::ffff:808:808"[8] != "::ffff:8.8.8.8"[8];
  }

  lemma MappedHostIsSafe()
    ensures SafeHost(MAPPED_HOST)
  {
    var x := Ipv4(8, 8, 8, 8);
    EmbeddingsAgree(x, 0, 0, 0, 0, 0);
    PrivateIntervals(x);
  }

  // ----- Where a built request goes -----

  // However else it was completed or changed.
  predicate KeepsTarget(request: HttpRequest, built: HttpRequest) {
    && request.url == built.url && request.parsed == built.parsed && request.scope == built.scope
    && request.policy == built.policy && request.allowPrivate == built.allowPrivate
  }

  // A URL of the request's own host that no deny entry names. One other than
  // the request's own is only reached if the builder was told to follow
  // redirects and the base URL's host matches.
  predicate OwnTarget(b: HttpClientBuilder, url: Url, target: Url) {
    && target.host.Some? && url.host.Some?
    && NormalizeHost(HostStr(target.host.value)) == OwnName(url.host.value)
    && !Denied(REQUEST_DENY_LIST, HostStr(target.host.value))
    && (target != url ==>
          && b.followRedirects && b.baseHost.Some?
          && MatchesHostPattern(NormalizeHost(b.baseHost.value), HostStr(target.host.value)))
  }

  lemma BuiltTargetIsOwn(b: HttpClientBuilder, verb: string, rawDangerous: bool, url: Url, request: HttpRequest,
                         log: seq<Exchange>, k: nat)
    requires b.checkPrivateIps && CreateRequest(b, verb, rawDangerous, Some(url)).Ok?
    requires KeepsTarget(request, CreateRequest(b, verb, rawDangerous, Some(url)).value)
    requires k < |log| && HopFits(request, log, k) && StaysInScope(request, log, k)
    ensures OwnTarget(b, url, log[k].call.hop.url)
  {
    var target := log[k].call.hop.url;
    BuiltScopeIsOwnHost(b, verb, rawDangerous, url, HostStr(target.host.value));
    if target != url {
      assert MatchesAny(request.policy.allowedHosts, HostStr(target.host.value));
    }
  }

  lemma AlignmentIsKept(request: HttpRequest, built: HttpRequest)
    requires KeepsTarget(request, built) && Aligned(built)
    ensures Aligned(request)
  {}

  // As long as the interceptors leave its target alone, a request built with
  // private networks excluded only ever connects to its own host: to unblocked
  // addresses that a lookup of that host gave, or to its own unblocked literal.
  lemma BuiltRequestsStayOnTheirHost(b: HttpClientBuilder, verb: string, rawDangerous: bool, url: Url,
                                     request: HttpRequest, hooks: Hooks, world: World, signal: Signal, i: nat)
    requires b.checkPrivateIps && CreateRequest(b, verb, rawDangerous, Some(url)).Ok?
    requires hooks.onRequest(request).Ok?
    requires KeepsTarget(hooks.onRequest(request).value, CreateRequest(b, verb, rawDangerous, Some(url)).value)
    ensures var final, trace := hooks.onRequest(request).value, SendRun(request, hooks, world, signal).trace;
            i < |trace| && trace[i].Exchanged? ==>
              var call := trace[i].exchange.call;
              !final.allowPrivate && ConnectsSafely(final, trace[..i], call) && OwnTarget(b, url, call.hop.url)
  {
    var final, trace := hooks.onRequest(request).value, SendRun(request, hooks, world, signal).trace;
    if i < |trace| && trace[i].Exchanged? {
      BuiltIsAligned(b, verb, rawDangerous, Some(url));
      AlignmentIsKept(final, CreateRequest(b, verb, rawDangerous, Some(url)).value);
      ConnectionsAreSafe(request, hooks, world, signal, i);
      LogHas(trace, i);
      var k :| 0 <= k < |Log(trace)| && Log(trace)[k] == trace[i].exchange;
      SendIsSafe(request, hooks, world, signal, k);
      BuiltTargetIsOwn(b, verb, rawDangerous, url, final, Log(trace), k);
    }
  }

  // ----- Requests made without a builder -----

  // Such a request is bound to the host of its own name, and follows no
  // redirects: it is exchanged at most once, with its own URL.
  lemma BareRequestsStayPut(verb: string, rawDangerous: bool, url: Url, hooks: Hooks, world: World, signal: Signal)
    requires NewRequest(verb, rawDangerous, Some(url)).Ok?
    requires var bare := NewRequest(verb, rawDangerous, Some(url)).value; hooks.onRequest(bare) == Ok(bare)
    ensures var bare := NewRequest(verb, rawDangerous, Some(url)).value;
            var log := Log(SendRun(bare, hooks, world, signal).trace);
            && !rawDangerous && !bare.allowPrivate && !bare.policy.followRedirects && |log| <= 1
            && (log != [] ==> log[0].call.hop == Hop(url, verb, [], None))
  {
    var bare := NewRequest(verb, rawDangerous, Some(url)).value;
    FirstExchange(bare, hooks, world, signal);
    SendIsBounded(bare, hooks, world, signal);
  }

  lemma BareScopeIsOwnHost(verb: string, rawDangerous: bool, url: Url, host: string)
    requires NewRequest(verb, rawDangerous, Some(url)).Ok?
    ensures url.host.Some?
    ensures InScope(NewRequest(verb, rawDangerous, Some(url)).value.scope, host) <==>
              NormalizeHost(host) == OwnName(url.host.value)
  {
    ValidatedName(url);
    var own := OwnName(url.host.value);
    OwnNameIsNormal(url.host.value);
    StarlessPatternIsExact(own, host);
    MatchesOne(own, host);
  }

  // ----- What a built request sends -----

  // Sent as built, it starts with the builder's own headers, is tried once,
  // makes fewer hops than the builder's maximum and never leaves https.
  lemma BuiltRequestSends(b: HttpClientBuilder, verb: string, rawDangerous: bool, url: Url,
                          hooks: Hooks, world: World, signal: Signal, k: nat)
    requires CreateRequest(b, verb, rawDangerous, Some(url)).Ok?
    requires var built := CreateRequest(b, verb, rawDangerous, Some(url)).value; hooks.onRequest(built) == Ok(built)
    ensures var built := CreateRequest(b, verb, rawDangerous, Some(url)).value;
            var log := Log(SendRun(built, hooks, world, signal).trace);
            && |log| <= 1 + (if b.followRedirects && b.maxRedirects > 0 then b.maxRedirects - 1 else 0)
            && (log != [] ==> log[0].call.hop == Hop(url, verb, b.defaultHeaders, None))
            && (k < |log| && log[k].call.hop.url.scheme == "http" ==>
                  forall j :: 0 <= j < k ==> log[j].call.hop.url.scheme == "http")
  {
    var built := CreateRequest(b, verb, rawDangerous, Some(url)).value;
    FirstExchange(built, hooks, world, signal);
    SendIsBounded(built, hooks, world, signal);
    if k < |Log(SendRun(built, hooks, world, signal).trace)| {
      SendIsSafe(built, hooks, world, signal, k);
    }
  }

  // Whether and where it may be redirected to: the base URL's host, within its
  // scope, which the opt-in opens to every host.
  lemma BuiltRedirects(b: HttpClientBuilder, verb: string, rawDangerous: bool, url: Url, host: string)
    requires CreateRequest(b, verb, rawDangerous, Some(url)).Ok?
    ensures var built := CreateRequest(b, verb, rawDangerous, Some(url)).value;
            && (HostAllowed(built, host) <==>
                  && b.baseHost.Some? && MatchesHostPattern(NormalizeHost(b.baseHost.value), host)
                  && InScope(built.scope, host))
            && (built.policy.followRedirects <==> b.followRedirects)
            && (!b.checkPrivateIps ==> InScope(built.scope, host))
  {
    if b.baseHost.Some? { MatchesOne(NormalizeHost(b.baseHost.value), host); }
  }

  // A connection to a pinned address.
  ghost predicate ConnectsTo(ip: IpAddr, e: Event) {
    && e.Exchanged? && !e.exchange.outcome.Unsent? && e.exchange.call.pin.Some?
    && exists a :: a in e.exchange.call.pin.value.addresses && a.ip == ip
  }

  ghost predicate EverConnectsTo(ip: IpAddr, trace: Trace) {
    exists i :: 0 <= i < |trace| && ConnectsTo(ip, trace[i])
  }

  // Headers that a request may carry.
  ghost predicate Acceptable(syntax: Syntax, headers: seq<Header>) {
    WellFormed(syntax, headers) && forall h :: h in headers ==> ValidHeader(syntax, h) && !NamesFraming(h.name)
  }

  lemma BuiltValidates(b: HttpClientBuilder, verb: string, rawDangerous: bool, url: Url, syntax: Syntax)
    requires CreateRequest(b, verb, rawDangerous, Some(url)).Ok? && Acceptable(syntax, b.defaultHeaders)
    requires url.host.Some? && url.host.value.Domain?
    requires b.checkPrivateIps ==> !Denied(REQUEST_DENY_LIST, url.host.value.name)
    ensures Validate(CreateRequest(b, verb, rawDangerous, Some(url)).value, syntax).None?
  {
    var built := CreateRequest(b, verb, rawDangerous, Some(url)).value;
    ValidRequests(built, syntax);
    BuiltIsAligned(b, verb, rawDangerous, Some(url));
    AcceptedUrls(url);
    ScopeAccepts(built.scope, url);
    if b.checkPrivateIps {
      BuiltRequestReachesItself(b, verb, rawDangerous, url);
    }
  }

  lemma FirstConnects(request: HttpRequest, ip: IpAddr, trace: Trace)
    requires HasFirst(request, ip, trace) && request.parsed.host.ipAddr.None?
    ensures EverConnectsTo(ip, trace)
  {
    var i :| 0 <= i < |trace| && IsFirst(request, ip, trace[i]);
    var a := SocketAddr(ip, request.parsed.port);
    assert a in trace[i].exchange.call.pin.value.addresses;
    assert ConnectsTo(ip, trace[i]);
  }

  lemma BlockedIsNeverReached(request: HttpRequest, ip: IpAddr, world: World)
    requires Aligned(request) && !request.allowPrivate && IsBlockedIp(ip)
    ensures !EverConnectsTo(ip, Execute(request, world).trace)
  {
    var trace := Execute(request, world).trace;
    AlignedIsSafe(request, world);
    forall i | 0 <= i < |trace| ensures !ConnectsTo(ip, trace[i]) {
      assert SafeConnectionAt(request, trace, i);
    }
  }

  lemma BuiltForName(b: HttpClientBuilder, verb: string, rawDangerous: bool, url: Url)
    requires CreateRequest(b, verb, rawDangerous, Some(url)).Ok? && url.host.Some? && url.host.value.Domain?
    ensures var built := CreateRequest(b, verb, rawDangerous, Some(url)).value;
            && Aligned(built) && built.parsed.host.ipAddr.None? && built.headers == b.defaultHeaders
            && (built.allowPrivate <==> !b.checkPrivateIps)
  {
    BuiltIsAligned(b, verb, rawDangerous, Some(url));
    AcceptedUrls(url);
  }

  // A name that resolves to one address is connected to at that address if
  // and only if private networks were opted into or the address is public.
  lemma OptInDecides(b: HttpClientBuilder, verb: string, rawDangerous: bool, url: Url, ip: IpAddr, syntax: Syntax)
    requires CreateRequest(b, verb, rawDangerous, Some(url)).Ok? && Acceptable(syntax, b.defaultHeaders)
    requires url.host.Some? && url.host.value.Domain?
    requires b.checkPrivateIps ==> !Denied(REQUEST_DENY_LIST, url.host.value.name)
    ensures var built := CreateRequest(b, verb, rawDangerous, Some(url)).value;
            EverConnectsTo(ip, Execute(built, FriendlyWorld(ip, syntax)).trace) <==>
              !b.checkPrivateIps || !IsBlockedIp(ip)
  {
    var built := CreateRequest(b, verb, rawDangerous, Some(url)).value;
    BuiltForName(b, verb, rawDangerous, url);
    if !b.checkPrivateIps || !IsBlockedIp(ip) {
      BuiltValidates(b, verb, rawDangerous, url, syntax);
      FriendlyRun(built, ip, syntax);
      FirstConnects(built, ip, Execute(built, FriendlyWorld(ip, syntax)).trace);
    } else {
      BlockedIsNeverReached(built, ip, FriendlyWorld(ip, syntax));
    }
  }
}
