// The textual deny lists of src/builder.rs against the numeric block list and
// the reserved names of src/url_validation.rs.
module Builder {
  import opened Bytes
  import opened Text
  import opened Addresses
  import opened UrlValidation
  import opened RedirectPolicy

  // The list `create_request` adds, and the shorter one of
  // `create_scope_validator`.
  const REQUEST_DENY_LIST: seq<string> := ["0.0.0.0"] + VALIDATOR_DENY_LIST

  const VALIDATOR_DENY_LIST: seq<string> := [
    "10.*", "100.64.*", "127.0.0.1", "169.254.*", "172.16.*", "192.168.*", "198.18.*", "224.*", "240.*",
    "localhost", "*.localhost", "*.local", "*.internal"]

  predicate Denied(list: seq<string>, host: string) {
    exists k :: 0 <= k < |list| && MatchesHostPattern(list[k], host)
  }

  // ----- Decimal text -----

  predicate IsDigits(s: string) {
    s != "" && forall i :: 0 <= i < |s| ==> '0' <= s[i] <= '9'
  }

  lemma {:induction false} DecimalIsDigits(n: nat)
    ensures IsDigits(Decimal(n))
  {
    if n >= 10 { DecimalIsDigits(n / 10); }
  }

  lemma {:induction false} DecimalInjective(m: nat, n: nat)
    requires Decimal(m) == Decimal(n)
    ensures m == n
  {
    var s, t := Decimal(m), Decimal(n);
    DecimalIsDigits(m / 10);
    DecimalIsDigits(n / 10);
    assert s[|s| - 1] == DigitChar(m % 10) && t[|t| - 1] == DigitChar(n % 10);
    if m >= 10 && n >= 10 {
      assert s[..|s| - 1] == Decimal(m / 10) && t[..|t| - 1] == Decimal(n / 10);
      DecimalInjective(m / 10, n / 10);
    }
  }

  lemma DeniedByConcat(p: seq<Pattern>, q: seq<Pattern>, labels: seq<string>)
    ensures DeniedByLabels(p + q, labels) <==> DeniedByLabels(p, labels) || DeniedByLabels(q, labels)
  {
    var all := p + q;
    if k :| 0 <= k < |p| && Denotes(p[k], labels) {
      assert all[k] == p[k];
    }
    if k :| 0 <= k < |q| && Denotes(q[k], labels) {
      assert all[|p| + k] == q[k];
    }
    if k :| 0 <= k < |all| && Denotes(all[k], labels) {
      assert all[k] == if k < |p| then p[k] else q[k - |p|];
    }
  }

  lemma OneLabel(s: string)
    requires '.' !in s
    ensures Labels(s) == [s]
  {
    SplitWithoutSeparator(s, '.');
  }

  lemma DottedLabels(x: Ipv4)
    ensures Labels(Dotted(x)) == [Decimal(x.a), Decimal(x.b), Decimal(x.c), Decimal(x.d)]
  {
    DecimalIsDigits(x.a);
    DecimalIsDigits(x.b);
    DecimalIsDigits(x.c);
    DecimalIsDigits(x.d);
    OneLabel(Decimal(x.a));
    OneLabel(Decimal(x.b));
    OneLabel(Decimal(x.c));
    OneLabel(Decimal(x.d));
    LabelsOfJoined(Decimal(x.c), Decimal(x.d));
    LabelsOfJoined(Decimal(x.b), Decimal(x.c) + "." + Decimal(x.d));
    LabelsOfJoined(Decimal(x.a), Decimal(x.b) + "." + (Decimal(x.c) + "." + Decimal(x.d)));
  }

  lemma LabelsOfJoined(a: string, b: string)
    ensures Labels(a + "." + b) == Labels(a) + Labels(b)
  {
    SplitAtSeparator(a, '.', b);
  }

  // ----- Text normalisation leaves alone -----

  // Lower-case letters, digits, dots, dashes and stars, not ending in a dot.
  predicate Settled(s: string) {
    && (forall i :: 0 <= i < |s| ==>
         'a' <= s[i] <= 'z' || '0' <= s[i] <= '9' || s[i] == '.' || s[i] == '-' || s[i] == '*')
    && (s == "" || s[|s| - 1] != '.')
  }

  lemma SettledIsNormal(s: string)
    requires Settled(s)
    ensures NormalizeHost(s) == s
  {
    NothingToTrim(s);
    assert Lower(s) == s;
  }

  lemma DottedIsSettled(x: Ipv4)
    ensures Settled(Dotted(x))
  {
    DecimalIsDigits(x.a);
    DecimalIsDigits(x.b);
    DecimalIsDigits(x.c);
    DecimalIsDigits(x.d);
    JoinedIsSettled(Decimal(x.c), Decimal(x.d));
    JoinedIsSettled(Decimal(x.b), Decimal(x.c) + "." + Decimal(x.d));
    JoinedIsSettled(Decimal(x.a), Decimal(x.b) + "." + (Decimal(x.c) + "." + Decimal(x.d)));
  }

  lemma JoinedIsSettled(a: string, b: string)
    requires Settled(a) && Settled(b) && b != ""
    ensures Settled(a + "." + b)
  {
    var s := a + "." + b;
    assert forall i :: 0 <= i < |s| ==>
      s[i] == if i < |a| then a[i] else if i == |a| then '.' else b[i - |a| - 1];
  }

  // Against settled text, matching is by labels.
  lemma SettledMatch(pattern: string, host: string)
    requires Settled(pattern)
    ensures MatchesHostPattern(pattern, host) <==> Denotes(ParsePattern(pattern), Labels(NormalizeHost(host)))
  {
    SettledIsNormal(pattern);
    MatchingIsByLabels(pattern, NormalizeHost(host));
  }

  // ----- The meaning of the lists -----

  const REQUEST_DENIES: seq<Pattern> := [Exactly(["0", "0", "0", "0"])] + VALIDATOR_DENIES

  const VALIDATOR_DENIES: seq<Pattern> := ADDRESS_DENIES + NAME_DENIES

  const ADDRESS_DENIES: seq<Pattern> := [
    WithPrefix(["10"]), WithPrefix(["100", "64"]), Exactly(["127", "0", "0", "1"]), WithPrefix(["169", "254"]),
    WithPrefix(["172", "16"]), WithPrefix(["192", "168"]), WithPrefix(["198", "18"]), WithPrefix(["224"]),
    WithPrefix(["240"])]

  const NAME_DENIES: seq<Pattern> := [
    Exactly(["localhost"]), WithSuffix(["localhost"]), WithSuffix(["local"]), WithSuffix(["internal"])]

  predicate DeniedByLabels(patterns: seq<Pattern>, labels: seq<string>) {
    exists k :: 0 <= k < |patterns| && Denotes(patterns[k], labels)
  }

  predicate GoodChar(c: char) {
    'a' <= c <= 'z' || '0' <= c <= '9' || c == '-'
  }

  predicate GoodLabel(s: string) {
    s != "" && forall i :: 0 <= i < |s| ==> GoodChar(s[i])
  }

  predicate GoodLabels(labels: seq<string>) {
    labels != [] && forall i :: 0 <= i < |labels| ==> GoodLabel(labels[i])
  }

  function PatternText(p: Pattern): string
    requires !p.AnyHost? && p.labels != []
  {
    match p
    case WithSuffix(labels) => "*." + Join(labels, '.')
    case WithPrefix(labels) => Join(labels, '.') + ".*"
    case Exactly(labels) => Join(labels, '.')
  }

  lemma {:induction false} JoinedLabels(labels: seq<string>)
    requires GoodLabels(labels)
    ensures Labels(Join(labels, '.')) == labels
    ensures var s := Join(labels, '.');
            && s != "" && GoodChar(s[0]) && GoodChar(s[|s| - 1])
            && forall i :: 0 <= i < |s| ==> GoodChar(s[i]) || s[i] == '.'
  {
    if |labels| == 1 {
      OneLabel(labels[0]);
    } else {
      var s := Join(labels[1..], '.');
      JoinedLabels(labels[1..]);
      OneLabel(labels[0]);
      LabelsOfJoined(labels[0], s);
    }
  }

  lemma JoinedIsSettledText(labels: seq<string>)
    requires GoodLabels(labels)
    ensures Settled(Join(labels, '.')) && Join(labels, '.') != ""
  {
    JoinedLabels(labels);
  }

  lemma PrintedIsSettled(p: Pattern)
    requires !p.AnyHost? && GoodLabels(p.labels)
    ensures Settled(PatternText(p))
  {
    var s := Join(p.labels, '.');
    JoinedIsSettledText(p.labels);
    if p.WithSuffix? {
      JoinedIsSettled("*", s);
    } else if p.WithPrefix? {
      JoinedIsSettled(s, "*");
      assert s + "." + "*" == s + ".*";
    }
  }

  // Reading a printed pattern back.
  lemma PatternRoundTrip(p: Pattern)
    requires !p.AnyHost? && GoodLabels(p.labels)
    ensures ParsePattern(PatternText(p)) == p
  {
    var s, text := Join(p.labels, '.'), PatternText(p);
    JoinedLabels(p.labels);
    match p
    case WithSuffix(_) =>
      assert text[2..] == s;
    case WithPrefix(_) =>
      assert text[0] == s[0];
      AppendEndsWith(s, ".*");
      assert text[..|text| - 2] == s;
    case Exactly(_) =>
  }

  // `list` holds the patterns in print.
  predicate Prints(list: seq<string>, patterns: seq<Pattern>) {
    && |list| == |patterns|
    && forall k :: 0 <= k < |list| ==> PrintsOne(list[k], patterns[k])
  }

  predicate PrintsOne(text: string, p: Pattern) {
    !p.AnyHost? && GoodLabels(p.labels) && text == PatternText(p)
  }

  // A printed list denies exactly the hosts whose labels it describes.
  lemma ListMeans(list: seq<string>, patterns: seq<Pattern>, host: string)
    requires Prints(list, patterns)
    ensures Denied(list, host) <==> DeniedByLabels(patterns, Labels(NormalizeHost(host)))
  {
    forall k: nat | k < |list|
      ensures MatchesHostPattern(list[k], host) <==> Denotes(patterns[k], Labels(NormalizeHost(host)))
    {
      assert PrintsOne(list[k], patterns[k]);
      PatternRoundTrip(patterns[k]);
      PrintedIsSettled(patterns[k]);
      SettledMatch(list[k], host);
    }
  }

  lemma PrintsNames()
    ensures PrintsOne("localhost", Exactly(["localhost"]))
    ensures PrintsOne("*.localhost", WithSuffix(["localhost"]))
    ensures PrintsOne("*.local", WithSuffix(["local"]))
    ensures PrintsOne("*.internal", WithSuffix(["internal"]))
  {}

  lemma PrintsOctet()
    ensures PrintsOne("10.*", WithPrefix(["10"]))
    ensures PrintsOne("224.*", WithPrefix(["224"]))
    ensures PrintsOne("240.*", WithPrefix(["240"]))
  {}

  lemma PrintsOctets()
    ensures PrintsOne("100.64.*", WithPrefix(["100", "64"]))
    ensures PrintsOne("169.254.*", WithPrefix(["169", "254"]))
    ensures PrintsOne("172.16.*", WithPrefix(["172", "16"]))
  {}

  lemma PrintsMoreOctets()
    ensures PrintsOne("192.168.*", WithPrefix(["192", "168"]))
    ensures PrintsOne("198.18.*", WithPrefix(["198", "18"]))
  {}

  lemma PrintsUnspecified()
    ensures PrintsOne("0.0.0.0", Exactly(["0", "0", "0", "0"]))
  {}

  lemma PrintsLoopback()
    ensures PrintsOne("127.0.0.1", Exactly(["127", "0", "0", "1"]))
  {}

  lemma ListsArePrinted()
    ensures Prints(REQUEST_DENY_LIST, REQUEST_DENIES) && Prints(VALIDATOR_DENY_LIST, VALIDATOR_DENIES)
  {
    ValidatorListIsPrinted();
    PrintsUnspecified();
    PrintsConcat(["0.0.0.0"], [Exactly(["0", "0", "0", "0"])], VALIDATOR_DENY_LIST, VALIDATOR_DENIES);
  }

  lemma PrintsConcat(a: seq<string>, p: seq<Pattern>, b: seq<string>, q: seq<Pattern>)
    requires Prints(a, p) && Prints(b, q)
    ensures Prints(a + b, p + q)
  {
    forall k: nat | k < |a + b| ensures PrintsOne((a + b)[k], (p + q)[k]) {
      if k < |a| {
        assert PrintsOne(a[k], p[k]);
      } else {
        assert PrintsOne(b[k - |a|], q[k - |a|]);
      }
    }
  }

  lemma ValidatorListIsPrinted()
    ensures Prints(VALIDATOR_DENY_LIST, VALIDATOR_DENIES)
  {
    PrintsNames();
    PrintsOctet();
    PrintsOctets();
    PrintsMoreOctets();
    PrintsLoopback();
  }

  // ----- Addresses -----

  lemma DecimalTexts()
    ensures Decimal(0) == "0" && Decimal(1) == "1" && Decimal(10) == "10" && Decimal(16) == "16"
    ensures Decimal(18) == "18" && Decimal(64) == "64" && Decimal(100) == "100" && Decimal(127) == "127"
  {}

  lemma MoreDecimalTexts()
    ensures Decimal(168) == "168" && Decimal(169) == "169" && Decimal(172) == "172" && Decimal(192) == "192"
    ensures Decimal(198) == "198" && Decimal(224) == "224" && Decimal(240) == "240" && Decimal(254) == "254"
  {}

  // What the textual list says about an address, octet by octet.
  predicate TextuallyDenied(x: Ipv4) {
    exists k :: 0 <= k < |ADDRESS_DENIES| && EntryDenies(k, x)
  }

  predicate EntryDenies(k: nat, x: Ipv4) {
    match k
    case 0 => x.a == 10
    case 1 => x.a == 100 && x.b == 64
    case 2 => x == Ipv4(127, 0, 0, 1)
    case 3 => x.a == 169 && x.b == 254
    case 4 => x.a == 172 && x.b == 16
    case 5 => x.a == 192 && x.b == 168
    case 6 => x.a == 198 && x.b == 18
    case 7 => x.a == 224
    case 8 => x.a == 240
    case _ => false
  }

  lemma DecimalEq(m: nat, n: nat)
    ensures Decimal(m) == Decimal(n) <==> m == n
  {
    if Decimal(m) == Decimal(n) { DecimalInjective(m, n); }
  }

  lemma NotANumber(s: string, n: nat)
    requires s != "" && !('0' <= s[0] <= '9')
    ensures Decimal(n) != s
  {
    DecimalIsDigits(n);
  }

  lemma FirstOne(p: string, labels: seq<string>)
    requires |labels| > 0
    ensures [p] <= labels <==> labels[0] == p
  {
    if labels[0] == p { assert labels[..1] == [p]; }
  }

  lemma FirstTwo(p: string, q: string, labels: seq<string>)
    requires |labels| > 1
    ensures [p, q] <= labels <==> labels[0] == p && labels[1] == q
  {
    if labels[0] == p && labels[1] == q { assert labels[..2] == [p, q]; }
  }

  lemma OctetMeaning(m: Byte, x: Ipv4)
    ensures Denotes(WithPrefix([Decimal(m)]), Labels(Dotted(x))) <==> x.a == m
  {
    DottedLabels(x);
    FirstOne(Decimal(m), Labels(Dotted(x)));
    DecimalEq(x.a, m);
  }

  lemma OctetsMeaning(m: Byte, n: Byte, x: Ipv4)
    ensures Denotes(WithPrefix([Decimal(m), Decimal(n)]), Labels(Dotted(x))) <==> x.a == m && x.b == n
  {
    DottedLabels(x);
    FirstTwo(Decimal(m), Decimal(n), Labels(Dotted(x)));
    DecimalEq(x.a, m);
    DecimalEq(x.b, n);
  }

  lemma AddressMeaning(y: Ipv4, x: Ipv4)
    ensures Denotes(Exactly([Decimal(y.a), Decimal(y.b), Decimal(y.c), Decimal(y.d)]), Labels(Dotted(x))) <==> x == y
  {
    DottedLabels(x);
    DecimalEq(x.a, y.a);
    DecimalEq(x.b, y.b);
    DecimalEq(x.c, y.c);
    DecimalEq(x.d, y.d);
  }

  lemma NameMeaning(name: string, x: Ipv4)
    requires name != "" && !('0' <= name[0] <= '9')
    ensures !Denotes(Exactly([name]), Labels(Dotted(x))) && !Denotes(WithSuffix([name]), Labels(Dotted(x)))
  {
    DottedLabels(x);
    NotANumber(name, x.d);
  }

  lemma NameEntriesSkipAddresses(x: Ipv4)
    ensures !DeniedByLabels(NAME_DENIES, Labels(Dotted(x)))
  {
    NameMeaning("localhost", x);
    NameMeaning("local", x);
    NameMeaning("internal", x);
  }

  lemma EntryOnAddresses(k: nat, x: Ipv4)
    requires k < |ADDRESS_DENIES|
    ensures Denotes(ADDRESS_DENIES[k], Labels(Dotted(x))) <==> EntryDenies(k, x)
  {
    DecimalTexts();
    MoreDecimalTexts();
    match k
    case 0 => OctetMeaning(10, x);
    case 1 => OctetsMeaning(100, 64, x);
    case 2 => AddressMeaning(Ipv4(127, 0, 0, 1), x);
    case 3 => OctetsMeaning(169, 254, x);
    case 4 => OctetsMeaning(172, 16, x);
    case 5 => OctetsMeaning(192, 168, x);
    case 6 => OctetsMeaning(198, 18, x);
    case 7 => OctetMeaning(224, x);
    case 8 => OctetMeaning(240, x);
  }

  lemma DeniesOnAddresses(x: Ipv4)
    ensures DeniedByLabels(VALIDATOR_DENIES, Labels(Dotted(x))) <==> TextuallyDenied(x)
    ensures DeniedByLabels(REQUEST_DENIES, Labels(Dotted(x))) <==> TextuallyDenied(x) || x == Ipv4(0, 0, 0, 0)
  {
    var labels := Labels(Dotted(x));
    forall k: nat | k < |ADDRESS_DENIES| ensures Denotes(ADDRESS_DENIES[k], labels) <==> EntryDenies(k, x) {
      EntryOnAddresses(k, x);
    }
    NameEntriesSkipAddresses(x);
    DeniedByConcat(ADDRESS_DENIES, NAME_DENIES, labels);
    var zero := Exactly(["0", "0", "0", "0"]);
    DeniedByConcat([zero], VALIDATOR_DENIES, labels);
    assert Denotes(zero, labels) <==> x == Ipv4(0, 0, 0, 0) by {
      DecimalTexts();
      AddressMeaning(Ipv4(0, 0, 0, 0), x);
    }
    assert DeniedByLabels([zero], labels) <==> Denotes([zero][0], labels);
  }

  lemma DeniedAddresses(x: Ipv4)
    ensures Denied(REQUEST_DENY_LIST, Dotted(x)) <==> TextuallyDenied(x) || x == Ipv4(0, 0, 0, 0)
    ensures Denied(VALIDATOR_DENY_LIST, Dotted(x)) <==> TextuallyDenied(x)
  {
    ListsArePrinted();
    DottedIsSettled(x);
    SettledIsNormal(Dotted(x));
    ListMeans(REQUEST_DENY_LIST, REQUEST_DENIES, Dotted(x));
    ListMeans(VALIDATOR_DENY_LIST, VALIDATOR_DENIES, Dotted(x));
    DeniesOnAddresses(x);
  }

  lemma TextuallyDeniedIsPrivate(x: Ipv4)
    requires TextuallyDenied(x) || x.a == 0
    ensures Private(x)
  {}

  // The textual lists agree with the numeric one as far as they go: these are
  // the addresses whose dotted form they deny, and all of them are blocked.
  lemma DeniedAddressesAreBlocked(x: Ipv4)
    ensures Denied(REQUEST_DENY_LIST, Dotted(x)) <==> TextuallyDenied(x) || x == Ipv4(0, 0, 0, 0)
    ensures Denied(VALIDATOR_DENY_LIST, Dotted(x)) <==> TextuallyDenied(x)
    ensures Denied(REQUEST_DENY_LIST, Dotted(x)) || Denied(VALIDATOR_DENY_LIST, Dotted(x)) ==> IsBlockedIp(V4(x))
  {
    DeniedAddresses(x);
    if TextuallyDenied(x) || x.a == 0 {
      TextuallyDeniedIsPrivate(x);
      PrivateIntervals(x);
    }
  }

  predicate PastFirstSlice(x: Ipv4) {
    x.a == 172 && 17 <= x.b <= 31
  }

  lemma PastFirstSliceOctets(x: Ipv4)
    requires PastFirstSlice(x)
    ensures !TextuallyDenied(x) && x.a != 0 && Private(x)
  {}

  // It does not go all the way: most of 172.16.0.0/12 is blocked by number alone.
  lemma TextualListIsCoarser(x: Ipv4)
    requires PastFirstSlice(x)
    ensures IsBlockedIp(V4(x)) && !Denied(REQUEST_DENY_LIST, Dotted(x))
  {
    PastFirstSliceOctets(x);
    DeniedAddresses(x);
    PrivateIntervals(x);
  }

  // ----- Names -----

  lemma {:induction false} CharsOfParts(s: string, i: nat)
    requires i < |s| && forall k :: 0 <= k < |Labels(s)| ==> ValidLabel(Labels(s)[k]) || k == 0
    requires forall j :: 0 <= j < |Labels(s)[0]| ==> IsDomainByte(Labels(s)[0][j])
    ensures IsDomainByte(s[i]) || s[i] == '.'
  {
    var rest := Labels(s[1..]);
    if s[0] == '.' {
      assert Labels(s) == [""] + rest;
      if i > 0 {
        assert forall k :: 0 <= k < |rest| ==> rest[k] == Labels(s)[k + 1];
        CharsOfParts(s[1..], i - 1);
      }
    } else {
      assert Labels(s) == [[s[0]] + rest[0]] + rest[1..];
      assert IsDomainByte(Labels(s)[0][0]);
      if i > 0 {
        assert forall k :: 1 <= k < |rest| ==> rest[k] == Labels(s)[k];
        assert forall j :: 0 <= j < |rest[0]| ==> rest[0][j] == Labels(s)[0][j + 1];
        CharsOfParts(s[1..], i - 1);
      }
    }
  }

  lemma TrailingDotLeavesEmptyLabel(s: string)
    requires s != "" && s[|s| - 1] == '.'
    ensures var labels := Labels(s); !ValidLabel(labels[|labels| - 1])
  {
    var a := s[..|s| - 1];
    assert s == a + "." + "";
    LabelsOfJoined(a, "");
    assert Labels("") == [""];
  }

  // The characters of a name of valid shape.
  predicate IsNameText(s: string) {
    && (forall i :: 0 <= i < |s| ==> IsDomainByte(s[i]) || s[i] == '.')
    && (s == "" || s[|s| - 1] != '.')
  }

  lemma ValidNameText(domain: string)
    requires ValidDomainShape(domain)
    ensures IsNameText(domain)
  {
    forall i: nat | i < |domain| ensures IsDomainByte(domain[i]) || domain[i] == '.' {
      CharsOfParts(domain, i);
    }
    if domain != "" && domain[|domain| - 1] == '.' {
      TrailingDotLeavesEmptyLabel(domain);
    }
  }

  lemma NameTextSettles(s: string)
    requires IsNameText(s)
    ensures NormalizeHost(s) == Lower(s) && Settled(Lower(s))
  {
    NothingToTrim(s);
  }

  // A name of valid shape, lower-cased, is what normalisation leaves alone.
  lemma ValidNamesSettle(domain: string)
    requires ValidDomainShape(domain)
    ensures NormalizeHost(domain) == Lower(domain) && Settled(Lower(domain))
  {
    ValidNameText(domain);
    NameTextSettles(domain);
  }

  lemma NameSuffix(lower: string, name: string)
    requires '.' !in name
    ensures EndsWith(lower, "." + name) || lower == name <==> IsSuffix([name], Labels(lower))
  {
    OneLabel(name);
    SuffixOfParts(lower, name, '.');
  }

  // What the entries for one name deny.
  lemma ExactOrSuffix(lower: string, name: string)
    requires '.' !in name
    ensures Denotes(Exactly([name]), Labels(lower)) <==> lower == name
    ensures Denotes(WithSuffix([name]), Labels(lower)) <==> lower == name || EndsWith(lower, "." + name)
  {
    OneLabel(name);
    NameSuffix(lower, name);
    if Labels(lower) == [name] { SplitInjective(lower, name, '.'); }
  }

  lemma FourEntries(a: Pattern, b: Pattern, c: Pattern, d: Pattern, labels: seq<string>)
    ensures DeniedByLabels([a, b, c, d], labels) <==>
            Denotes(a, labels) || Denotes(b, labels) || Denotes(c, labels) || Denotes(d, labels)
  {
    var p := [a, b, c, d];
    assert p[0] == a && p[1] == b && p[2] == c && p[3] == d;
  }

  lemma NameEntriesFor(p: string, q: string, r: string, lower: string)
    requires '.' !in p && '.' !in q && '.' !in r
    ensures DeniedByLabels([Exactly([p]), WithSuffix([p]), WithSuffix([q]), WithSuffix([r])], Labels(lower)) <==>
            NamedOrUnder(lower, p, q, r)
  {
    ExactOrSuffix(lower, p);
    ExactOrSuffix(lower, q);
    ExactOrSuffix(lower, r);
    FourEntries(Exactly([p]), WithSuffix([p]), WithSuffix([q]), WithSuffix([r]), Labels(lower));
  }

  predicate NamedOrUnder(lower: string, p: string, q: string, r: string) {
    || lower == p || EndsWith(lower, "." + p)
    || lower == q || EndsWith(lower, "." + q)
    || lower == r || EndsWith(lower, "." + r)
  }

  lemma ReservedMeans(domain: string, lower: string)
    requires lower == Lower(domain)
    ensures NamedOrUnder(lower, "localhost", "local", "internal") <==>
              ReservedName(domain) || lower == "local" || lower == "internal"
  {
    assert "." + "localhost" == ".localhost" && "." + "local" == ".local" && "." + "internal" == ".internal";
  }

  // The name entries deny the reserved names and, beyond them, just the two
  // bare suffixes; so every name refused as reserved is denied by both lists.
  lemma ReservedNamesAreDenied(domain: string)
    requires ValidDomainShape(domain)
    ensures DeniedByLabels(NAME_DENIES, Labels(NormalizeHost(domain))) <==>
              ReservedName(domain) || Lower(domain) == "local" || Lower(domain) == "internal"
    ensures ReservedName(domain) ==> Denied(REQUEST_DENY_LIST, domain) && Denied(VALIDATOR_DENY_LIST, domain)
  {
    ValidNamesSettle(domain);
    NameEntries(Lower(domain));
    ReservedMeans(domain, Lower(domain));
    if ReservedName(domain) {
      DeniedByNames(domain);
    }
  }

  lemma NameEntries(lower: string)
    ensures DeniedByLabels(NAME_DENIES, Labels(lower)) <==> NamedOrUnder(lower, "localhost", "local", "internal")
  {
    NameEntriesFor("localhost", "local", "internal", lower);
  }

  lemma DeniedByNames(domain: string)
    requires DeniedByLabels(NAME_DENIES, Labels(NormalizeHost(domain)))
    ensures Denied(REQUEST_DENY_LIST, domain) && Denied(VALIDATOR_DENY_LIST, domain)
  {
    var labels := Labels(NormalizeHost(domain));
    ListsArePrinted();
    ListMeans(REQUEST_DENY_LIST, REQUEST_DENIES, domain);
    ListMeans(VALIDATOR_DENY_LIST, VALIDATOR_DENIES, domain);
    DeniedByConcat(ADDRESS_DENIES, NAME_DENIES, labels);
    DeniedByConcat([Exactly(["0", "0", "0", "0"])], VALIDATOR_DENIES, labels);
  }
}
