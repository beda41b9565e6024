// How long a response may be stored, and under which tag (src/cache.rs:117-166,
// 230-240): the header scan, and what it means.
module CacheLifetimes {
  import opened Wrappers
  import opened Bytes
  import opened Text
  import opened HeaderValidation
  import opened UrlValidation

  type Time = nat
  type Duration = nat

  const SECOND: Duration := 1_000_000_000

  datatype Response = Response(status: nat, headers: seq<Header>, body: Octets, url: string)

  datatype CacheConfig = CacheConfig(defaultTtl: Duration, useEtags: bool, useCacheControl: bool, maxSize: nat)

  predicate AllDigits(s: string) {
    forall i :: 0 <= i < |s| ==> '0' <= s[i] <= '9'
  }

  function DigitsValue(s: string): nat
    requires AllDigits(s)
  {
    if s == "" then 0 else DigitsValue(s[..|s| - 1]) * 10 + (s[|s| - 1] as int - '0' as int)
  }

  const U64_LIMIT: nat := 0x1_0000_0000_0000_0000

  function ParseU64(s: string): Option<nat> {
    var digits := if s != "" && s[0] == '+' then s[1..] else s;
    if digits == "" || !AllDigits(digits) then None
    else if DigitsValue(digits) < U64_LIMIT then Some(DigitsValue(digits))
    else None
  }

  const MAX_AGE := "max-age="

  function DirectiveMaxAge(directive: string): Option<nat> {
    var trimmed := Trim(directive);
    if MAX_AGE <= trimmed then ParseU64(Trim(trimmed[|MAX_AGE|..])) else None
  }

  function FirstMaxAge(directives: seq<string>): Option<nat> {
    if directives == [] then None
    else if DirectiveMaxAge(directives[0]).Some? then DirectiveMaxAge(directives[0])
    else FirstMaxAge(directives[1..])
  }

  function ParseMaxAge(cacheControl: string): Option<nat> {
    FirstMaxAge(Split(cacheControl, ','))
  }

  function FindHeader(headers: seq<Header>, name: string): Option<string> {
    if headers == [] then None
    else if EqIgnoreCase(headers[0].name, name) then Some(headers[0].value)
    else FindHeader(headers[1..], name)
  }

  predicate ForbidsCaching(cacheControl: string) {
    Contains(cacheControl, "no-store") || Contains(cacheControl, "no-cache")
  }

  function ResolveTtl(config: CacheConfig, response: Response): Duration {
    var control := FindHeader(response.headers, "cache-control");
    if config.useCacheControl && control.Some? then
      var lower := Lower(control.value);
      if ForbidsCaching(lower) then 0
      else if ParseMaxAge(lower).Some? then ParseMaxAge(lower).value * SECOND
      else config.defaultTtl
    else config.defaultTtl
  }

  // ----- What a directive says -----

  predicate IsBlank(s: string) {
    forall i :: 0 <= i < |s| ==> IsWhitespace(s[i])
  }

  function Zeros(k: nat): string {
    if k == 0 then "" else Zeros(k - 1) + "0"
  }

  function PlusIf(plus: bool): string {
    if plus then "+" else ""
  }

  function AgeText(plus: bool, k: nat, n: nat): string {
    PlusIf(plus) + (Zeros(k) + Decimal(n))
  }

  // A directive says that the age is `n` if it is `max-age=` and `n` in print,
  // with white space around either, and a plus sign and leading zeros at will.
  ghost predicate SaysAge(directive: string, n: nat) {
    n < 0x1_0000_0000_0000_0000 &&
    exists a, b, c, plus, k: nat :: IsBlank(a) && IsBlank(b) && IsBlank(c) &&
      directive == Padded(a, "max-age=" + Padded(b, AgeText(plus, k, n), ""), c)
  }

  function Padded(a: string, s: string, c: string): string {
    a + (s + c)
  }

  lemma {:induction false} TrimStartPads(a: string, s: string)
    requires IsBlank(a) && s != "" && !IsWhitespace(s[0])
    ensures TrimStart(a + s) == s
  {
    if a == "" {
      assert a + s == s;
    } else {
      assert (a + s)[0] == a[0] && (a + s)[1..] == a[1..] + s;
      TrimStartPads(a[1..], s);
    }
  }

  lemma {:induction false} TrimEndPads(s: string, c: string)
    requires IsBlank(c) && s != "" && !IsWhitespace(s[|s| - 1])
    ensures TrimEnd(s + c) == s
  {
    if c == "" {
      assert s + c == s;
    } else {
      var n := |s + c| - 1;
      assert (s + c)[n] == c[|c| - 1] && (s + c)[..n] == s + c[..|c| - 1];
      TrimEndPads(s, c[..|c| - 1]);
    }
  }

  lemma TrimPads(a: string, s: string, c: string)
    requires IsBlank(a) && IsBlank(c) && s != "" && !IsWhitespace(s[0]) && !IsWhitespace(s[|s| - 1])
    ensures Trim(Padded(a, s, c)) == s
  {
    TrimStartPads(a, s + c);
    TrimEndPads(s, c);
  }

  lemma {:induction false} TrimStartSplits(s: string) returns (a: string)
    ensures IsBlank(a) && s == a + TrimStart(s)
  {
    if s != "" && IsWhitespace(s[0]) {
      var rest := TrimStartSplits(s[1..]);
      a := [s[0]] + rest;
      assert s == [s[0]] + s[1..];
    } else {
      a := "";
    }
  }

  lemma {:induction false} TrimEndSplits(s: string) returns (c: string)
    ensures IsBlank(c) && s == TrimEnd(s) + c
  {
    if s != "" && IsWhitespace(s[|s| - 1]) {
      var rest := TrimEndSplits(s[..|s| - 1]);
      c := rest + [s[|s| - 1]];
      assert s == s[..|s| - 1] + [s[|s| - 1]];
    } else {
      c := "";
    }
  }

  lemma TrimSplits(s: string) returns (a: string, c: string)
    ensures IsBlank(a) && IsBlank(c) && s == Padded(a, Trim(s), c)
  {
    a := TrimStartSplits(s);
    c := TrimEndSplits(TrimStart(s));
  }

  lemma {:induction false} ZerosAreDigits(k: nat, n: nat)
    ensures var s := Zeros(k) + Decimal(n);
            AllDigits(s) && s != "" && DigitsValue(s) == n
    decreases n, k
  {
    if n >= 10 {
      ZerosAreDigits(k, n / 10);
      AppendDigit(Zeros(k) + Decimal(n / 10), n % 10);
      assert Zeros(k) + Decimal(n) == Zeros(k) + Decimal(n / 10) + [DigitChar(n % 10)];
    } else {
      ZerosHaveNoValue(k);
      AppendDigit(Zeros(k), n);
    }
  }

  lemma AppendDigit(s: string, d: nat)
    requires AllDigits(s) && d < 10
    ensures var t := s + [DigitChar(d)];
            AllDigits(t) && DigitsValue(t) == DigitsValue(s) * 10 + d
  {
    var t := s + [DigitChar(d)];
    assert t[..|t| - 1] == s;
  }

  lemma {:induction false} ZerosHaveNoValue(k: nat)
    ensures AllDigits(Zeros(k)) && DigitsValue(Zeros(k)) == 0
  {
    if k > 0 {
      ZerosHaveNoValue(k - 1);
      assert Zeros(k)[..|Zeros(k)| - 1] == Zeros(k - 1);
    }
  }

  // Any digits are a number in print after leading zeros.
  lemma {:induction false} DigitsInPrint(s: string) returns (k: nat)
    requires AllDigits(s) && s != ""
    ensures s == Zeros(k) + Decimal(DigitsValue(s))
    decreases |s|
  {
    var init, last := s[..|s| - 1], s[|s| - 1];
    assert s == init + [last];
    if init == "" {
      k := 0;
    } else {
      k := DigitsInPrint(init);
      if DigitsValue(init) == 0 { k := k + 1; }
    }
  }

  lemma AgeTextEnds(plus: bool, k: nat, n: nat)
    ensures var y := AgeText(plus, k, n);
            && y != "" && !IsWhitespace(y[0]) && !IsWhitespace(y[|y| - 1])
            && ParseU64(y) == if n < U64_LIMIT then Some(n) else None
  {
    var y, digits := AgeText(plus, k, n), Zeros(k) + Decimal(n);
    ZerosAreDigits(k, n);
    assert y[|y| - 1] == digits[|digits| - 1];
    if plus { assert y[1..] == digits; } else { assert y == digits; }
  }

  lemma NamedAge(value: string, age: string)
    requires age != "" && !IsWhitespace(age[|age| - 1])
    requires value == "max-age=" + age
    ensures value[0] == 'm' && !IsWhitespace(value[|value| - 1]) && MAX_AGE <= value && value[|MAX_AGE|..] == age
  {}

  lemma SaidIsRead(a: string, b: string, c: string, plus: bool, k: nat, n: nat)
    requires IsBlank(a) && IsBlank(b) && IsBlank(c) && n < U64_LIMIT
    ensures DirectiveMaxAge(Padded(a, "max-age=" + Padded(b, AgeText(plus, k, n), ""), c)) == Some(n)
  {
    var y := AgeText(plus, k, n);
    AgeTextEnds(plus, k, n);
    var age := Padded(b, y, "");
    assert y + "" == y && age == b + y && age[|age| - 1] == y[|y| - 1];
    TrimPads(b, y, "");
    NamedAge("max-age=" + age, age);
    TrimPads(a, "max-age=" + age, c);
  }

  lemma ParsedIsPrinted(y: string) returns (plus: bool, k: nat)
    requires ParseU64(y).Some?
    ensures y == AgeText(plus, k, ParseU64(y).value)
  {
    plus := y[0] == '+';
    var digits := if plus then y[1..] else y;
    k := DigitsInPrint(digits);
  }

  lemma Unpad(a: string, m: string, b: string, y: string, e: string, c: string)
    ensures Padded(a, m + Padded(b, y, e), c) == Padded(a, m + Padded(b, y, ""), e + c)
  {
    assert y + "" == y;
    assert (m + (b + (y + e))) + c == (m + (b + y)) + (e + c);
  }

  // Reading a directive finds exactly what it says.
  lemma DirectiveSaysAge(directive: string, n: nat)
    ensures DirectiveMaxAge(directive) == Some(n) <==> SaysAge(directive, n)
  {
    if SaysAge(directive, n) {
      var a, b, c, plus, k: nat :| IsBlank(a) && IsBlank(b) && IsBlank(c) &&
        directive == Padded(a, "max-age=" + Padded(b, AgeText(plus, k, n), ""), c);
      SaidIsRead(a, b, c, plus, k, n);
    }
    if DirectiveMaxAge(directive) == Some(n) {
      ReadIsSaid(directive, n);
    }
  }

  lemma ReadIsSaid(directive: string, n: nat)
    requires DirectiveMaxAge(directive) == Some(n)
    ensures SaysAge(directive, n)
  {
    var trimmed := Trim(directive);
    var rest := trimmed[|MAX_AGE|..];
    var a, c := TrimSplits(directive);
    var b, e := TrimSplits(rest);
    var plus, k := ParsedIsPrinted(Trim(rest));
    assert trimmed == "max-age=" + rest;
    Unpad(a, "max-age=", b, Trim(rest), e, c);
    assert IsBlank(e + c);
  }

  // ----- What a response asks for -----

  ghost predicate SaysNoAge(directive: string) {
    forall n: nat :: !SaysAge(directive, n)
  }

  // The first of the directives that names an age is the k-th, and names `n`
  // seconds.
  ghost predicate AsksAt(directives: seq<string>, k: int, n: nat) {
    && 0 <= k < |directives| && SaysAge(directives[k], n)
    && forall j :: 0 <= j < k ==> SaysNoAge(directives[j])
  }

  ghost predicate AsksForAge(directives: seq<string>, n: nat) {
    exists k :: AsksAt(directives, k, n)
  }

  lemma NoAgeIsRead(directive: string)
    ensures DirectiveMaxAge(directive).None? <==> SaysNoAge(directive)
  {
    var read := DirectiveMaxAge(directive);
    forall n: nat ensures SaysAge(directive, n) <==> read == Some(n) {
      DirectiveSaysAge(directive, n);
    }
    if read.Some? { assert SaysAge(directive, read.value); }
  }

  // Malformed directives are passed over, the first well-formed one wins.
  lemma {:induction false} FirstAgeWins(directives: seq<string>, n: nat)
    ensures FirstMaxAge(directives) == Some(n) <==> AsksForAge(directives, n)
  {
    if directives != [] {
      NoAgeIsRead(directives[0]);
      if DirectiveMaxAge(directives[0]).None? {
        LaterAge(directives, n);
        FirstAgeWins(directives[1..], n);
      } else {
        DirectiveSaysAge(directives[0], n);
        EarliestAge(directives, n);
      }
    }
  }

  lemma EarliestAge(directives: seq<string>, n: nat)
    requires directives != [] && !SaysNoAge(directives[0])
    ensures AsksForAge(directives, n) <==> SaysAge(directives[0], n)
  {
    if SaysAge(directives[0], n) { assert AsksAt(directives, 0, n); }
  }

  lemma LaterAge(directives: seq<string>, n: nat)
    requires directives != [] && SaysNoAge(directives[0])
    ensures AsksForAge(directives, n) <==> AsksForAge(directives[1..], n)
  {
    var rest := directives[1..];
    if k :| AsksAt(directives, k, n) {
      AsksEarlier(directives, k, n);
    }
    if k :| AsksAt(rest, k, n) {
      AsksLater(directives, k, n);
    }
  }

  lemma AsksEarlier(directives: seq<string>, k: int, n: nat)
    requires AsksAt(directives, k, n) && SaysNoAge(directives[0])
    ensures AsksAt(directives[1..], k - 1, n)
  {
    var rest := directives[1..];
    forall j | 0 <= j < k - 1 ensures SaysNoAge(rest[j]) {
      assert rest[j] == directives[j + 1];
    }
  }

  lemma AsksLater(directives: seq<string>, k: int, n: nat)
    requires directives != [] && AsksAt(directives[1..], k, n) && SaysNoAge(directives[0])
    ensures AsksAt(directives, k + 1, n)
  {
    var rest := directives[1..];
    forall j | 0 <= j < k + 1 ensures SaysNoAge(directives[j]) {
      if j > 0 { assert directives[j] == rest[j - 1]; }
    }
  }

  // The word stands in the text at position `i`, in any case.
  predicate SaysAt(value: string, word: string, i: int) {
    0 <= i <= |value| - |word| && Lower(value[i..i + |word|]) == word
  }

  ghost predicate ForbidsStoring(value: string) {
    exists i :: SaysAt(value, "no-store", i) || SaysAt(value, "no-cache", i)
  }

  lemma LowerSlice(s: string, i: int, j: int)
    requires 0 <= i <= j <= |s|
    ensures Lower(s)[i..j] == Lower(s[i..j])
  {}

  lemma LowerContains(value: string, word: string)
    ensures Contains(Lower(value), word) <==> exists i :: SaysAt(value, word, i)
  {
    if i :| 0 <= i <= |Lower(value)| && OccursAt(Lower(value), word, i) {
      LowerSlice(value, i, i + |word|);
      assert SaysAt(value, word, i);
    }
    if i :| SaysAt(value, word, i) {
      LowerSlice(value, i, i + |word|);
      assert OccursAt(Lower(value), word, i);
    }
  }

  lemma ForbiddenIsFound(value: string)
    ensures ForbidsCaching(Lower(value)) <==> ForbidsStoring(value)
  {
    LowerContains(value, "no-store");
    LowerContains(value, "no-cache");
  }

  lemma {:induction false} FindsFirst(headers: seq<Header>, name: string)
    ensures match FindHeader(headers, name)
            case None => forall k :: !IsFirstNamed(headers, name, k)
            case Some(value) => exists k :: IsFirstNamed(headers, name, k) && headers[k].value == value
  {
    if headers != [] {
      if EqIgnoreCase(headers[0].name, name) {
        assert IsFirstNamed(headers, name, 0);
      } else {
        var rest := headers[1..];
        FindsFirst(rest, name);
        if k :| IsFirstNamed(rest, name, k) && Some(rest[k].value) == FindHeader(rest, name) {
          assert IsFirstNamed(headers, name, k + 1) && headers[k + 1] == rest[k];
        }
        forall k | IsFirstNamed(headers, name, k) ensures IsFirstNamed(rest, name, k - 1) {}
      }
    }
  }

  lemma OneFirstNamed(headers: seq<Header>, name: string, j: int, k: int)
    requires IsFirstNamed(headers, name, j) && IsFirstNamed(headers, name, k)
    ensures j == k
  {}

  // The lifetime that the text of a Cache-Control header asks for: none if it
  // forbids storing, the seconds it names first, and else the default.
  ghost predicate IsAskedFor(value: string, defaultTtl: Duration, ttl: Duration) {
    var directives := Split(Lower(value), ',');
    if ForbidsStoring(value) then ttl == 0
    else
      && (forall n: nat :: AsksForAge(directives, n) ==> ttl == n * 1_000_000_000)
      && ((forall n: nat :: !AsksForAge(directives, n)) ==> ttl == defaultTtl)
  }

  // The lifetime of a response: what its first Cache-Control header asks for,
  // or the default without one or if such headers are to be ignored.
  ghost predicate IsLifetime(config: CacheConfig, headers: seq<Header>, ttl: Duration) {
    if config.useCacheControl && exists k :: IsFirstNamed(headers, "cache-control", k) then
      forall k :: IsFirstNamed(headers, "cache-control", k) ==> IsAskedFor(headers[k].value, config.defaultTtl, ttl)
    else ttl == config.defaultTtl
  }

  lemma LifetimeIsRight(config: CacheConfig, response: Response)
    ensures IsLifetime(config, response.headers, ResolveTtl(config, response))
  {
    var headers := response.headers;
    FindsFirst(headers, "cache-control");
    if config.useCacheControl && FindHeader(headers, "cache-control").Some? {
      var value := FindHeader(headers, "cache-control").value;
      AskedIsResolved(config, response, value);
      var j :| IsFirstNamed(headers, "cache-control", j) && headers[j].value == value;
      forall k | IsFirstNamed(headers, "cache-control", k)
        ensures IsAskedFor(headers[k].value, config.defaultTtl, ResolveTtl(config, response))
      {
        OneFirstNamed(headers, "cache-control", j, k);
      }
    }
  }

  lemma AskedIsResolved(config: CacheConfig, response: Response, value: string)
    requires config.useCacheControl && FindHeader(response.headers, "cache-control") == Some(value)
    ensures IsAskedFor(value, config.defaultTtl, ResolveTtl(config, response))
  {
    var directives := Split(Lower(value), ',');
    ForbiddenIsFound(value);
    forall n: nat ensures FirstMaxAge(directives) == Some(n) <==> AsksForAge(directives, n) {
      FirstAgeWins(directives, n);
    }
  }

  // The stored tag is that of the first ETag header, if tags are used.
  ghost predicate IsTag(config: CacheConfig, headers: seq<Header>, etag: Option<string>) {
    && (etag.Some? ==>
          config.useEtags && exists k :: IsFirstNamed(headers, "etag", k) && headers[k].value == etag.value)
    && (config.useEtags && (exists k :: IsFirstNamed(headers, "etag", k)) ==> etag.Some?)
  }

  function EtagOf(config: CacheConfig, response: Response): Option<string> {
    if config.useEtags then FindHeader(response.headers, "etag") else None
  }

  lemma TagIsRight(config: CacheConfig, response: Response)
    ensures IsTag(config, response.headers, EtagOf(config, response))
  {
    FindsFirst(response.headers, "etag");
  }
}
