// URL validation (src/url_validation.rs:13-58, 364-553): the raw-text check,
// the checks on a parsed URL, and reserved domain names.
module UrlValidation {
  import opened Wrappers
  import opened Bytes
  import opened Text
  import opened Addresses
  import opened PercentDecoding

  // ----- Finding the path in raw URL text -----

  function IndexOf(s: Octets, sub: Octets): Option<nat> {
    if sub <= s then Some(0)
    else if s == [] then None
    else match IndexOf(s[1..], sub)
      case None => None
      case Some(i) => Some(i + 1)
  }

  const COLON: Byte := 0x3A
  const QUESTION: Byte := 0x3F
  const HASH: Byte := 0x23
  const SCHEME_END: Octets := [COLON, SLASH, SLASH]

  function BeforeQuery(s: Octets): Octets {
    if s == [] || s[0] == QUESTION || s[0] == HASH then [] else [s[0]] + BeforeQuery(s[1..])
  }

  function RawPath(url: Octets): Option<Octets> {
    var afterScheme := match IndexOf(url, SCHEME_END)
      case Some(i) => if i + 3 <= |url| then url[i + 3..] else []
      case None => url;
    match IndexOf(afterScheme, [SLASH])
    case None => None
    case Some(start) => if start <= |afterScheme| then Some(BeforeQuery(afterScheme[start..])) else None
  }

  predicate RawPathIsDangerous(url: Octets) {
    match RawPath(url)
    case None => false
    case Some(path) => PathHasDangerousSequence(path)
  }

  lemma {:induction false} FirstIndex(a: Octets, sub: Octets, b: Octets)
    requires sub != [] && sub[0] !in a
    ensures IndexOf(a + (sub + b), sub) == Some(|a|)
    decreases |a|
  {
    var s := a + (sub + b);
    if a == [] {
      assert s == sub + b;
    } else {
      assert s[0] == a[0] && s[1..] == a[1..] + (sub + b);
      FirstIndex(a[1..], sub, b);
    }
  }

  lemma {:induction false} PathEndsAtQuery(path: Octets, rest: Octets)
    requires QUESTION !in path && HASH !in path
    requires rest == [] || rest[0] == QUESTION || rest[0] == HASH
    ensures BeforeQuery(path + rest) == path
    decreases |path|
  {
    var s := path + rest;
    if path == [] {
      assert s == rest;
    } else {
      assert s[0] == path[0] && s[1..] == path[1..] + rest;
      PathEndsAtQuery(path[1..], rest);
    }
  }

  // The text of a URL with an authority.
  function UrlText(scheme: Octets, authority: Octets, path: Octets, rest: Octets): Octets {
    scheme + (SCHEME_END + (authority + (path + rest)))
  }

  // A text from its first slash on.
  function FromSlash(s: Octets): Octets {
    if s == [] || s[0] == SLASH then s else FromSlash(s[1..])
  }

  lemma {:induction false} SlashIndex(s: Octets)
    ensures IndexOf(s, [SLASH]).None? <==> SLASH !in s
    ensures SLASH in s ==> IndexOf(s, [SLASH]).value <= |s| && s[IndexOf(s, [SLASH]).value..] == FromSlash(s)
  {
    if s != [] {
      assert s == [s[0]] + s[1..];
      if s[0] != SLASH {
        SlashIndex(s[1..]);
        if SLASH in s {
          assert s[1..][IndexOf(s[1..], [SLASH]).value..] == s[IndexOf(s, [SLASH]).value..];
        }
      }
    }
  }

  // Whether the check finds something in what follows `://`, or in the whole
  // text if there is none.
  predicate ScansDangerous(tail: Octets) {
    SLASH in tail && PathHasDangerousSequence(BeforeQuery(FromSlash(tail)))
  }

  lemma RawCheckWithoutSchemeEnd(url: Octets)
    requires IndexOf(url, SCHEME_END).None?
    ensures RawPathIsDangerous(url) <==> ScansDangerous(url)
  {
    SlashIndex(url);
  }

  lemma RawCheckAfterScheme(scheme: Octets, after: Octets)
    requires COLON !in scheme
    ensures RawPathIsDangerous(scheme + (SCHEME_END + after)) <==> ScansDangerous(after)
  {
    var url := scheme + (SCHEME_END + after);
    FirstIndex(scheme, SCHEME_END, after);
    assert url[|scheme| + 3..] == after;
    SlashIndex(after);
  }

  lemma {:induction false} FromSlashSkips(a: Octets, b: Octets)
    requires SLASH !in a
    ensures FromSlash(a + b) == FromSlash(b) && (SLASH in a + b <==> SLASH in b)
    decreases |a|
  {
    if a == [] {
      assert a + b == b;
    } else {
      assert (a + b)[1..] == a[1..] + b;
      FromSlashSkips(a[1..], b);
    }
  }

  lemma {:induction false} FromSlashSplits(s: Octets) returns (a: Octets)
    ensures s == a + FromSlash(s) && SLASH !in a
    ensures FromSlash(s) == [] || FromSlash(s)[0] == SLASH
    ensures SLASH in s <==> FromSlash(s) != []
  {
    if s == [] || s[0] == SLASH {
      a := [];
    } else {
      var tail := FromSlashSplits(s[1..]);
      a := [s[0]] + tail;
      assert s == [s[0]] + s[1..];
      assert s == a + FromSlash(s);
    }
  }

  lemma {:induction false} FromSlashEnds(path: Octets, rest: Octets)
    requires SLASH in path
    ensures FromSlash(path + rest) == FromSlash(path) + rest && SLASH in path + rest
    decreases |path|
  {
    assert path == [path[0]] + path[1..];
    if path[0] != SLASH {
      assert (path + rest)[1..] == path[1..] + rest;
      FromSlashEnds(path[1..], rest);
    }
  }

  // What the check looks at, for every path: the path from its first slash on,
  // or without a slash in it the query or fragment from its first slash on. So
  // it looks at exactly the path where that starts with a slash.
  lemma RawCheckIsPathCheck(scheme: Octets, authority: Octets, path: Octets, rest: Octets)
    requires COLON !in scheme && SLASH !in authority
    requires QUESTION !in path && HASH !in path
    requires rest == [] || rest[0] == QUESTION || rest[0] == HASH
    ensures RawPathIsDangerous(UrlText(scheme, authority, path, rest)) <==>
              if SLASH in path then PathHasDangerousSequence(FromSlash(path)) else ScansDangerous(rest)
    ensures path != [] && path[0] == SLASH ==> FromSlash(path) == path
  {
    RawCheckAfterScheme(scheme, authority + (path + rest));
    FromSlashSkips(authority, path + rest);
    if SLASH in path {
      FromSlashEnds(path, rest);
      SlashedPathEnds(path, rest);
    } else {
      FromSlashSkips(path, rest);
    }
  }

  lemma SlashedPathEnds(path: Octets, rest: Octets)
    requires QUESTION !in path && HASH !in path
    requires rest == [] || rest[0] == QUESTION || rest[0] == HASH
    ensures BeforeQuery(FromSlash(path) + rest) == FromSlash(path)
  {
    var a := FromSlashSplits(path);
    assert forall c :: c in FromSlash(path) ==> c in a + FromSlash(path);
    PathEndsAtQuery(FromSlash(path), rest);
  }

  lemma EmptyPathIsHarmless()
    ensures !PathHasDangerousSequence([])
  {
    PlainPathsAreFlagged([]);
  }

  lemma SlashIsHarmless()
    ensures !PathHasDangerousSequence([SLASH])
  {
    PlainPathsAreFlagged([SLASH]);
  }

  const TWO_SLASHES: Octets := [SLASH, SLASH]

  lemma TwoSlashesAreDangerous()
    ensures PathHasDangerousSequence(TWO_SLASHES)
  {
    PlainPathsAreFlagged(TWO_SLASHES);
    assert TWO_SLASHES[0 + 1] == TWO_SLASHES[0];
  }

  lemma TwoSlashesAreScanned(before: Octets)
    requires SLASH !in before
    ensures ScansDangerous(before + TWO_SLASHES)
  {
    FromSlashSkips(before, TWO_SLASHES);
    PathEndsAtQuery(TWO_SLASHES, []);
    assert TWO_SLASHES + [] == TWO_SLASHES;
    TwoSlashesAreDangerous();
  }

  // So a URL without a path is refused for two slashes in its query.
  lemma SlashesInQueryAreRefused(scheme: Octets, authority: Octets, query: Octets)
    requires COLON !in scheme && SLASH !in authority && SLASH !in query
    ensures RawPathIsDangerous(UrlText(scheme, authority, [], [QUESTION] + query + TWO_SLASHES))
    ensures !PathHasDangerousSequence([])
  {
    RawCheckIsPathCheck(scheme, authority, [], [QUESTION] + query + TWO_SLASHES);
    TwoSlashesAreScanned([QUESTION] + query);
    EmptyPathIsHarmless();
  }

  // The URL Standard lets a backslash start the path of an http URL. What
  // stands before the first slash of a path is never looked at.
  lemma BackslashPathsAreNotScanned(scheme: Octets, authority: Octets, path: Octets, slashed: Octets, rest: Octets)
    requires COLON !in scheme && SLASH !in authority && SLASH !in path
    ensures RawPathIsDangerous(UrlText(scheme, authority, path + slashed, rest)) <==>
              RawPathIsDangerous(UrlText(scheme, authority, slashed, rest))
  {
    ConcatAssoc(path, slashed, rest);
    RawCheckAfterScheme(scheme, authority + ((path + slashed) + rest));
    RawCheckAfterScheme(scheme, authority + (slashed + rest));
    FromSlashSkips(authority, path + (slashed + rest));
    FromSlashSkips(authority, slashed + rest);
    FromSlashSkips(path, slashed + rest);
  }

  const HTTP: Octets := [0x68, 0x74, 0x74, 0x70]

  // `http://a\..\b` passes although its path is dangerous.
  lemma BackslashTraversalIsMissed()
    ensures var path: Octets := [BACKSLASH, 0x2E, 0x2E, BACKSLASH, 0x62];
            PathHasDangerousSequence(path) && !RawPathIsDangerous(UrlText(HTTP, [0x61], path, []))
  {
    var path: Octets := [BACKSLASH, 0x2E, 0x2E, BACKSLASH, 0x62];
    RawCheckIsPathCheck(HTTP, [0x61], path, []);
    PlainPathsAreFlagged(path);
    assert path[0] == BACKSLASH;
  }

  // ----- Parsed URLs -----

  predicate IsIpv6Text(s: string) {
    && s != "" && s[|s| - 1] != '.'
    && forall i :: 0 <= i < |s| ==> '0' <= s[i] <= '9' || 'a' <= s[i] <= 'f' || s[i] == ':' || s[i] == '.'
  }

  type Ipv6Text = s: string | IsIpv6Text(s) witness "::"

  // A URL as the URL Standard's parser leaves it. An IPv6 address has two
  // printed forms, which the model does not compute and which may differ:
  // `text` within the URL and `display` from the standard library.
  datatype Host = Domain(name: string) | Ipv4Host(v4: Ipv4) | Ipv6Host(v6: Ipv6, text: Ipv6Text, display: Ipv6Text)

  datatype Url = Url(
    scheme: string, credentials: bool, host: Option<Host>, port: Option<nat>, path: Octets, rest: Octets)

  function Decimal(n: nat): string {
    if n < 10 then [DigitChar(n)] else Decimal(n / 10) + [DigitChar(n % 10)]
  }

  function DigitChar(d: nat): char
    requires d < 10
  {
    (d + 0x30) as char
  }

  function Dotted(x: Ipv4): string {
    Decimal(x.a) + "." + (Decimal(x.b) + "." + (Decimal(x.c) + "." + Decimal(x.d)))
  }

  function HostStr(host: Host): string {
    match host
    case Domain(name) => name
    case Ipv4Host(x) => Dotted(x)
    case Ipv6Host(_, text, _) => "[" + text + "]"
  }

  datatype ValidatedHost = ValidatedHost(host: string, ipAddr: Option<IpAddr>)

  datatype ParsedUrl = ParsedUrl(scheme: string, host: ValidatedHost, port: nat, path: Octets)

  predicate IsDomainByte(c: char) {
    'a' <= c <= 'z' || 'A' <= c <= 'Z' || '0' <= c <= '9' || c == '-'
  }

  predicate ValidLabel(part: string) {
    && 1 <= |part| <= 63
    && part[0] != '-' && part[|part| - 1] != '-'
    && forall i :: 0 <= i < |part| ==> IsDomainByte(part[i])
  }

  predicate ValidDomainShape(domain: string) {
    && |domain| <= 253
    && forall i :: 0 <= i < |Split(domain, '.')| ==> ValidLabel(Split(domain, '.')[i])
  }

  predicate ReservedName(domain: string) {
    var lower := Lower(domain);
    || lower == "localhost"
    || EndsWith(lower, ".localhost") || EndsWith(lower, ".local") || EndsWith(lower, ".internal")
  }

  function ValidateDomain(domain: string): Option<Error> {
    if !ValidDomainShape(domain) then Some(InvalidHost)
    else if ReservedName(domain) then Some(PrivateNetworkAccess)
    else None
  }

  // ----- The shape of a domain name, character by character -----

  predicate HasNameChars(s: string) {
    forall i :: 0 <= i < |s| ==>
      'a' <= s[i] <= 'z' || 'A' <= s[i] <= 'Z' || '0' <= s[i] <= '9' || s[i] == '-' || s[i] == '.'
  }

  predicate IsEdge(c: char) {
    c == '.' || c == '-'
  }

  // It neither starts nor ends with a dot or dash, and next to a dot there is
  // neither another one nor a dash.
  predicate HasFirmEdges(s: string) {
    && s != "" && !IsEdge(s[0]) && !IsEdge(s[|s| - 1])
    && forall i :: 0 < i < |s| - 1 && s[i] == '.' ==> !IsEdge(s[i - 1]) && !IsEdge(s[i + 1])
  }

  predicate HasDotSoon(s: string, i: int) {
    exists k :: i <= k < i + 64 && 0 <= k < |s| && s[k] == '.'
  }

  // Any 64 characters in a row hold a dot.
  predicate HasDotsOften(s: string) {
    forall i :: 0 <= i <= |s| - 64 ==> HasDotSoon(s, i)
  }

  predicate IsNameShaped(s: string) {
    HasNameChars(s) && HasFirmEdges(s) && HasDotsOften(s)
  }

  predicate AllValid(labels: seq<string>) {
    forall k :: 0 <= k < |labels| ==> ValidLabel(labels[k])
  }

  lemma OneLabelShape(s: string)
    requires '.' !in s
    ensures IsNameShaped(s) <==> ValidLabel(s)
  {
    if |s| >= 64 {
      assert !HasDotSoon(s, 0);
    }
  }

  lemma CharsSplit(a: string, b: string)
    ensures HasNameChars(a + "." + b) <==> HasNameChars(a) && HasNameChars(b)
  {
    var s := a + "." + b;
    assert forall i :: 0 <= i < |a| ==> s[i] == a[i];
    assert forall i :: 0 <= i < |b| ==> s[|a| + 1 + i] == b[i];
  }

  lemma EdgesOfParts(a: string, b: string)
    requires '.' !in a && HasFirmEdges(a + "." + b)
    ensures HasFirmEdges(a) && HasFirmEdges(b)
  {
    var s := a + "." + b;
    assert s[|a|] == '.';
    assert forall i :: 0 <= i < |a| ==> s[i] == a[i] && a[i] in a;
    assert forall i :: 0 <= i < |b| ==> s[|a| + 1 + i] == b[i];
    assert b != "" && a != "";
    forall i | 0 < i < |b| - 1 && b[i] == '.' ensures !IsEdge(b[i - 1]) && !IsEdge(b[i + 1]) {
      assert s[|a| + 1 + i] == '.';
    }
  }

  lemma DotInSecond(a: string, b: string, j: nat)
    requires HasFirmEdges(b) && j < |b| - 1 && b[j] == '.'
    ensures var s, i := a + "." + b, |a| + 1 + j; !IsEdge(s[i - 1]) && !IsEdge(s[i + 1])
  {
    var s, i := a + "." + b, |a| + 1 + j;
    assert j > 0 && s[i - 1] == b[j - 1] && s[i + 1] == b[j + 1];
  }

  lemma EdgesOfWhole(a: string, b: string)
    requires '.' !in a && HasFirmEdges(a) && HasFirmEdges(b)
    ensures HasFirmEdges(a + "." + b)
  {
    var s := a + "." + b;
    assert forall i :: 0 <= i < |a| ==> s[i] == a[i] && a[i] in a;
    forall i | 0 < i < |s| - 1 && s[i] == '.' ensures !IsEdge(s[i - 1]) && !IsEdge(s[i + 1]) {
      if i > |a| { DotInSecond(a, b, i - |a| - 1); }
    }
  }

  lemma EdgesSplit(a: string, b: string)
    requires '.' !in a
    ensures HasFirmEdges(a + "." + b) <==> HasFirmEdges(a) && HasFirmEdges(b)
  {
    if HasFirmEdges(a + "." + b) { EdgesOfParts(a, b); }
    if HasFirmEdges(a) && HasFirmEdges(b) { EdgesOfWhole(a, b); }
  }

  lemma DotsSplit(a: string, b: string)
    requires '.' !in a
    ensures HasDotsOften(a + "." + b) <==> |a| < 64 && HasDotsOften(b)
  {
    var s := a + "." + b;
    assert s[|a|] == '.';
    assert forall i :: 0 <= i < |a| ==> s[i] == a[i] && s[i] != '.';
    assert forall i :: 0 <= i < |b| ==> s[|a| + 1 + i] == b[i];
    if HasDotsOften(s) {
      assert |s| >= 64 ==> HasDotSoon(s, 0);
      forall i | 0 <= i <= |b| - 64 ensures HasDotSoon(b, i) {
        DotShifts(s, |a| + 1, b, i);
      }
    }
    if |a| < 64 && HasDotsOften(b) {
      forall i | 0 <= i <= |s| - 64 ensures HasDotSoon(s, i) {
        if i > |a| { DotShiftsBack(s, |a| + 1, b, i - |a| - 1); }
      }
    }
  }

  lemma DotShifts(s: string, n: nat, b: string, i: nat)
    requires |s| == n + |b| && forall j :: 0 <= j < |b| ==> s[n + j] == b[j]
    requires i <= |b| - 64 && HasDotsOften(s)
    ensures HasDotSoon(b, i)
  {
    assert HasDotSoon(s, n + i);
    var k :| n + i <= k < n + i + 64 && 0 <= k < |s| && s[k] == '.';
    assert b[k - n] == s[n + (k - n)];
  }

  lemma DotShiftsBack(s: string, n: nat, b: string, i: nat)
    requires |s| == n + |b| && forall j :: 0 <= j < |b| ==> s[n + j] == b[j]
    requires i <= |b| - 64 && HasDotsOften(b)
    ensures HasDotSoon(s, n + i)
  {
    assert HasDotSoon(b, i);
    var k :| i <= k < i + 64 && 0 <= k < |b| && b[k] == '.';
    assert s[n + k] == '.';
  }

  lemma FirstDot(s: string) returns (a: string, b: string)
    requires '.' in s
    ensures s == a + "." + b && '.' !in a
  {
    if s[0] == '.' {
      a, b := "", s[1..];
    } else {
      assert s == [s[0]] + s[1..];
      var c;
      c, b := FirstDot(s[1..]);
      a := [s[0]] + c;
    }
  }

  lemma ValidWithFirst(a: string, labels: seq<string>)
    ensures AllValid([a] + labels) <==> ValidLabel(a) && AllValid(labels)
  {
    var all := [a] + labels;
    assert all[0] == a && forall k :: 0 <= k < |labels| ==> all[k + 1] == labels[k];
  }

  lemma {:induction false} LabelsAreShaped(s: string)
    ensures AllValid(Split(s, '.')) <==> IsNameShaped(s)
    decreases |s|
  {
    if '.' in s {
      var a, b := FirstDot(s);
      SplitAtSeparator(a, '.', b);
      SplitWithoutSeparator(a, '.');
      ValidWithFirst(a, Split(b, '.'));
      LabelsAreShaped(b);
      OneLabelShape(a);
      CharsSplit(a, b);
      EdgesSplit(a, b);
      DotsSplit(a, b);
    } else {
      SplitWithoutSeparator(s, '.');
      OneLabelShape(s);
      assert Split(s, '.')[0] == s;
    }
  }

  // Exactly the letters, digits and dashes in labels of at most 63 characters
  // that make up a host name (section 2.1 of RFC 1123).
  lemma DomainShape(domain: string)
    ensures ValidDomainShape(domain) <==> |domain| <= 253 && IsNameShaped(domain)
  {
    LabelsAreShaped(domain);
    assert ValidDomainShape(domain) <==> |domain| <= 253 && AllValid(Split(domain, '.'));
  }

  function DefaultPort(scheme: string): nat {
    if scheme == "https" then 443 else 80
  }

  // `rawDangerous` is the verdict of the raw-text check, `parsed` what the URL
  // parser made of the text.
  function ValidateUrl(rawDangerous: bool, parsed: Option<Url>): Result<ParsedUrl> {
    if rawDangerous then Err(UrlError)
    else match parsed
      case None => Err(UrlError)
      case Some(url) =>
        if url.scheme != "http" && url.scheme != "https" then Err(InvalidScheme)
        else if url.credentials then Err(UrlError)
        else if url.port == Some(0) then Err(InvalidPort)
        else if PathHasDangerousSequence(url.path) then Err(UrlError)
        else
          var port := match url.port case Some(p) => p case None => DefaultPort(url.scheme);
          match url.host
          case None => Err(NoHost)
          case Some(Domain(name)) =>
            (match ValidateDomain(name)
             case Some(e) => Err(e)
             case None => Ok(ParsedUrl(url.scheme, ValidatedHost(name, None), port, url.path)))
          case Some(Ipv4Host(x)) =>
            if IsPrivateOrLoopback(x) then Err(PrivateNetworkAccess)
            else Ok(ParsedUrl(url.scheme, ValidatedHost(Dotted(x), Some(V4(x))), port, url.path))
          case Some(Ipv6Host(x, _, display)) =>
            if IsIpv6LoopbackOrMulticast(x) then Err(PrivateNetworkAccess)
            else Ok(ParsedUrl(url.scheme, ValidatedHost(display, Some(V6(x))), port, url.path))
  }

  // Validating a URL already parsed: its own text is what is checked again.
  function Revalidate(url: Url): Result<ParsedUrl> {
    ValidateUrl(PathHasDangerousSequence(url.path), Some(url))
  }

  predicate SafeHost(host: Host) {
    match host
    case Domain(name) => ValidDomainShape(name) && !ReservedName(name)
    case Ipv4Host(x) => !IsBlockedIp(V4(x))
    case Ipv6Host(x, _, _) => !IsBlockedIp(V6(x))
  }

  predicate IsWeb(scheme: string) {
    scheme == "http" || scheme == "https"
  }

  // What validation accepts, and what it reports about an accepted URL.
  lemma AcceptedUrls(url: Url)
    ensures Revalidate(url).Ok? <==>
              && (url.scheme == "http" || url.scheme == "https") && !url.credentials && url.port != Some(0)
              && url.host.Some? && SafeHost(url.host.value) && !PathHasDangerousSequence(url.path)
    ensures Revalidate(url).Ok? ==>
              var p := Revalidate(url).value;
              && p.scheme == url.scheme && p.path == url.path && p.port > 0
              && p.port == (if url.port.Some? then url.port.value else if url.scheme == "https" then 443 else 80)
              && p.host == (match url.host.value
                            case Domain(name) => ValidatedHost(name, None)
                            case Ipv4Host(x) => ValidatedHost(Dotted(x), Some(V4(x)))
                            case Ipv6Host(x, _, display) => ValidatedHost(display, Some(V6(x))))
              && (p.host.ipAddr.Some? ==> !IsBlockedIp(p.host.ipAddr.value))
  {}

  // For which reason a URL is refused, in the order in which they are tried.
  lemma RefusedUrls(url: Url)
    ensures Revalidate(url).Err? ==>
              Revalidate(url).error ==
                if PathHasDangerousSequence(url.path) then UrlError
                else if url.scheme != "http" && url.scheme != "https" then InvalidScheme
                else if url.credentials then UrlError
                else if url.port == Some(0) then InvalidPort
                else if url.host.None? then NoHost
                else if url.host.value.Domain? && !ValidDomainShape(url.host.value.name) then InvalidHost
                else PrivateNetworkAccess
  {}
}
