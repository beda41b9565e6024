// Request and response headers (src/header_validation.rs). Which names and
// values the HTTP library takes is a parameter.
module HeaderValidation {
  import opened Wrappers
  import opened Text

  datatype Header = Header(name: string, value: string)

  // The syntax checks of the HTTP library.
  datatype Syntax = Syntax(nameOk: string -> bool, valueOk: string -> bool)

  // Whether the k-th header is the first one of this name, in any case.
  ghost predicate IsFirstNamed(headers: seq<Header>, name: string, k: int) {
    && 0 <= k < |headers| && Lower(headers[k].name) == Lower(name)
    && forall j :: 0 <= j < k ==> Lower(headers[j].name) != Lower(name)
  }

  const SENSITIVE: seq<string> := [
    "authorization", "proxy-authorization", "cookie", "set-cookie", "x-auth-token", "x-api-key",
    "x-access-token", "authentication", "proxy-authenticate", "www-authenticate"]

  const BLOCKED: seq<string> := ["host", "connection", "transfer-encoding", "content-length", "te"]

  predicate Listed(list: seq<string>, name: string) {
    exists k :: 0 <= k < |list| && EqIgnoreCase(name, list[k])
  }

  predicate IsSensitive(name: string) {
    Listed(SENSITIVE, name)
  }

  predicate IsBlocked(name: string) {
    Listed(BLOCKED, name)
  }

  function Redact(headers: seq<Header>): seq<Header> {
    if headers == [] then []
    else (if IsSensitive(headers[0].name) then [] else [headers[0]]) + Redact(headers[1..])
  }

  ghost predicate NothingSensitive(headers: seq<Header>) {
    forall h :: h in headers ==> !IsSensitive(h.name)
  }

  // The names of credentials, in any case.
  predicate NamesSecret(name: string) {
    var lower := Lower(name);
    || lower == "authorization" || lower == "proxy-authorization" || lower == "cookie" || lower == "set-cookie"
    || lower == "x-auth-token" || lower == "x-api-key" || lower == "x-access-token" || lower == "authentication"
    || lower == "proxy-authenticate" || lower == "www-authenticate"
  }

  // The names that the transport owns, in any case.
  predicate NamesFraming(name: string) {
    var lower := Lower(name);
    || lower == "host" || lower == "connection" || lower == "transfer-encoding" || lower == "content-length"
    || lower == "te"
  }

  predicate IsLower(s: string) {
    forall i :: 0 <= i < |s| ==> !('A' <= s[i] <= 'Z')
  }

  lemma ListedLower(list: seq<string>, name: string)
    requires forall k :: 0 <= k < |list| ==> IsLower(list[k])
    ensures Listed(list, name) <==> Lower(name) in list
  {
    forall k: nat | k < |list| ensures Lower(list[k]) == list[k] {
      assert IsLower(list[k]);
    }
    if Listed(list, name) {
      var k :| 0 <= k < |list| && EqIgnoreCase(name, list[k]);
      assert Lower(name) == list[k];
    }
    if Lower(name) in list {
      var k :| 0 <= k < |list| && list[k] == Lower(name);
      assert EqIgnoreCase(name, list[k]);
    }
  }

  lemma OneOfFive(x: string, a: string, b: string, c: string, d: string, e: string)
    ensures x in [a, b, c, d, e] <==> x == a || x == b || x == c || x == d || x == e
  {
    var all := [a, b, c, d, e];
    assert all[0] == a && all[1] == b && all[2] == c && all[3] == d && all[4] == e;
  }

  lemma OneOfTen(x: string, a: string, b: string, c: string, d: string, e: string,
                 f: string, g: string, h: string, i: string, j: string)
    ensures x in [a, b, c, d, e, f, g, h, i, j] <==> x in [a, b, c, d, e] || x in [f, g, h, i, j]
  {
    assert [a, b, c, d, e, f, g, h, i, j] == [a, b, c, d, e] + [f, g, h, i, j];
  }

  lemma ListedFive(name: string, a: string, b: string, c: string, d: string, e: string)
    requires IsLower(a) && IsLower(b) && IsLower(c) && IsLower(d) && IsLower(e)
    ensures var lower := Lower(name);
            Listed([a, b, c, d, e], name) <==> lower == a || lower == b || lower == c || lower == d || lower == e
  {
    ListedLower([a, b, c, d, e], name);
    OneOfFive(Lower(name), a, b, c, d, e);
  }

  lemma ListedTen(name: string, a: string, b: string, c: string, d: string, e: string,
                  f: string, g: string, h: string, i: string, j: string)
    requires IsLower(a) && IsLower(b) && IsLower(c) && IsLower(d) && IsLower(e)
    requires IsLower(f) && IsLower(g) && IsLower(h) && IsLower(i) && IsLower(j)
    ensures var lower := Lower(name);
            Listed([a, b, c, d, e, f, g, h, i, j], name) <==>
            || lower == a || lower == b || lower == c || lower == d || lower == e
            || lower == f || lower == g || lower == h || lower == i || lower == j
  {
    ListedLower([a, b, c, d, e, f, g, h, i, j], name);
    OneOfTen(Lower(name), a, b, c, d, e, f, g, h, i, j);
    OneOfFive(Lower(name), a, b, c, d, e);
    OneOfFive(Lower(name), f, g, h, i, j);
  }

  lemma CredentialsAreLower()
    ensures IsLower("authorization") && IsLower("proxy-authorization") && IsLower("cookie") && IsLower("set-cookie")
    ensures IsLower("x-auth-token") && IsLower("x-api-key") && IsLower("x-access-token")
  {}

  lemma ChallengesAreLower()
    ensures IsLower("authentication") && IsLower("proxy-authenticate") && IsLower("www-authenticate")
  {}

  lemma SensitiveAreSecret(name: string)
    ensures IsSensitive(name) <==> NamesSecret(name)
  {
    CredentialsAreLower();
    ChallengesAreLower();
    ListedTen(name, "authorization", "proxy-authorization", "cookie", "set-cookie", "x-auth-token", "x-api-key",
              "x-access-token", "authentication", "proxy-authenticate", "www-authenticate");
  }

  lemma BlockedAreFraming(name: string)
    ensures IsBlocked(name) <==> NamesFraming(name)
  {
    ListedFive(name, "host", "connection", "transfer-encoding", "content-length", "te");
  }

  // Redaction drops the headers that name a credential and keeps all others.
  lemma SecretsAreDropped(headers: seq<Header>, h: Header)
    ensures h in Redact(headers) <==> h in headers && !NamesSecret(h.name)
  {
    RedactKeepsTheRest(headers);
    SensitiveAreSecret(h.name);
    assert h in Redact(headers) <==> multiset(Redact(headers))[h] > 0;
    assert h in headers <==> multiset(headers)[h] > 0;
  }

  ghost predicate NothingSecret(headers: seq<Header>) {
    forall h :: h in headers ==> !NamesSecret(h.name)
  }

  lemma RedactedIsNotSecret(headers: seq<Header>)
    ensures NothingSecret(Redact(headers))
  {
    forall h | h in Redact(headers) ensures !NamesSecret(h.name) {
      SecretsAreDropped(headers, h);
    }
  }

  // Each header without a sensitive name survives as often as it occurs, and
  // no other does.
  lemma {:induction false} RedactKeepsTheRest(headers: seq<Header>)
    ensures forall h :: multiset(Redact(headers))[h] == if IsSensitive(h.name) then 0 else multiset(headers)[h]
    ensures NothingSensitive(Redact(headers))
  {
    if headers != [] {
      var first := headers[0];
      RedactKeepsTheRest(headers[1..]);
      assert headers == [first] + headers[1..];
      assert multiset(Redact(headers)) ==
             multiset(if IsSensitive(first.name) then [] else [first]) + multiset(Redact(headers[1..]));
      forall h | h in Redact(headers) ensures !IsSensitive(h.name) {
        if h in Redact(headers[1..]) {
        } else {
          assert h == first;
        }
      }
    }
  }

  // Order is kept: redaction works piece by piece.
  lemma {:induction false} RedactByPieces(a: seq<Header>, b: seq<Header>)
    ensures Redact(a + b) == Redact(a) + Redact(b)
    decreases |a|
  {
    if a == [] {
      assert a + b == b;
    } else {
      assert (a + b)[0] == a[0] && (a + b)[1..] == a[1..] + b;
      RedactByPieces(a[1..], b);
    }
  }

  lemma {:induction false} RedactNothing(headers: seq<Header>)
    requires NothingSensitive(headers)
    ensures Redact(headers) == headers
  {
    if headers != [] {
      assert headers == [headers[0]] + headers[1..];
      RedactNothing(headers[1..]);
    }
  }

  lemma RedactTwice(headers: seq<Header>)
    ensures Redact(Redact(headers)) == Redact(headers)
  {
    RedactKeepsTheRest(headers);
    RedactNothing(Redact(headers));
  }

  // ----- Validation -----

  // Unicode's Cc category.
  predicate IsControl(c: char) {
    c as int < 0x20 || 0x7F <= c as int < 0xA0
  }

  function ValidateName(syntax: Syntax, name: string): Option<Error> {
    var trimmed := Trim(name);
    if trimmed == "" || !syntax.nameOk(trimmed) then Some(HeaderError) else None
  }

  function ValidateValue(syntax: Syntax, value: string): Option<Error> {
    var trimmed := Trim(value);
    if '\r' in trimmed || '\n' in trimmed then Some(HeaderInjectionDetected)
    else if exists c :: c in trimmed && IsControl(c) && c != '\t' then Some(HeaderError)
    else if !syntax.valueOk(trimmed) then Some(HeaderError)
    else None
  }

  function ValidateHeaders(syntax: Syntax, headers: seq<Header>): Option<Error> {
    if headers == [] then None
    else if ValidateName(syntax, headers[0].name).Some? then ValidateName(syntax, headers[0].name)
    else if ValidateValue(syntax, headers[0].value).Some? then ValidateValue(syntax, headers[0].value)
    else ValidateHeaders(syntax, headers[1..])
  }

  predicate ValidHeader(syntax: Syntax, h: Header) {
    ValidateName(syntax, h.name).None? && ValidateValue(syntax, h.value).None?
  }

  // Between its ends, a value holds no control character but tabs.
  predicate IsPrintable(c: char) {
    var n := c as int;
    n == 0x09 || 0x20 <= n < 0x7F || 0xA0 <= n
  }

  lemma ValidHeaderMeans(syntax: Syntax, h: Header)
    ensures ValidHeader(syntax, h) <==>
              && Trim(h.name) != "" && syntax.nameOk(Trim(h.name)) && syntax.valueOk(Trim(h.value))
              && forall c :: c in Trim(h.value) ==> IsPrintable(c)
    ensures ValidateValue(syntax, h.value) == Some(HeaderInjectionDetected) <==>
              '\r' in Trim(h.value) || '\n' in Trim(h.value)
  {}

  // A list passes exactly when each of its headers does.
  lemma {:induction false} ValidateHeadersSpec(syntax: Syntax, headers: seq<Header>)
    ensures ValidateHeaders(syntax, headers).None? <==> forall h :: h in headers ==> ValidHeader(syntax, h)
  {
    if headers != [] {
      assert headers == [headers[0]] + headers[1..];
      assert ValidHeader(syntax, headers[0]) <==>
             ValidateName(syntax, headers[0].name).None? && ValidateValue(syntax, headers[0].value).None?;
      ValidateHeadersSpec(syntax, headers[1..]);
    }
  }

  function SanitizeHeader(syntax: Syntax, h: Header): Result<Header> {
    var name, value := Trim(h.name), Trim(h.value);
    if ValidateName(syntax, name).Some? then Err(ValidateName(syntax, name).value)
    else if ValidateValue(syntax, value).Some? then Err(ValidateValue(syntax, value).value)
    else Ok(Header(Lower(name), value))
  }

  // ----- What sanitising leaves passes validation -----

  predicate Trimmed(s: string) {
    s == "" || (!IsWhitespace(s[0]) && !IsWhitespace(s[|s| - 1]))
  }

  lemma TrimTrims(s: string)
    ensures Trimmed(Trim(s)) && Trim(Trim(s)) == Trim(s)
    ensures Trim(Lower(Trim(s))) == Lower(Trim(s))
  {
    TrimStartStops(s);
    TrimEndStops(TrimStart(s));
    assert TrimEnd(TrimStart(s)) <= TrimStart(s);
    TrimmedStays(Trim(s));
    LowerKeepsWhitespace(Trim(s));
    TrimmedStays(Lower(Trim(s)));
  }

  lemma TrimmedStays(s: string)
    requires Trimmed(s)
    ensures Trim(s) == s
  {}

  lemma LowerKeepsWhitespace(s: string)
    requires Trimmed(s)
    ensures Trimmed(Lower(s))
  {}

  // A sanitised header has a lower-case name, no surrounding space and no
  // line break, sanitising it again changes nothing, and the gate on every
  // send path lets it through. Header names are case-insensitive
  // (section 5.1 of RFC 9110), so the library's syntax check must be too.
  lemma SanitizedHeaderValidates(syntax: Syntax, h: Header)
    requires forall name :: syntax.nameOk(name) ==> syntax.nameOk(Lower(name))
    requires SanitizeHeader(syntax, h).Ok?
    ensures var clean := SanitizeHeader(syntax, h).value;
            && ValidHeader(syntax, clean) && SanitizeHeader(syntax, clean) == Ok(clean)
            && clean.name == Lower(Trim(h.name)) && clean.value == Trim(h.value)
            && '\r' !in clean.value && '\n' !in clean.value
  {
    TrimTrims(h.name);
    TrimTrims(h.value);
    LowerTwice(Trim(h.name));
  }
}
