// Host patterns, the redirect policy and the scope validator of
// src/redirect_policy.rs.
module RedirectPolicy {
  import opened Wrappers
  import opened Text
  import opened UrlValidation

  function NormalizeHost(host: string): string {
    Lower(TrimHost(host))
  }

  function TrimHost(host: string): string {
    TrimEndMatches(TrimEndMatches(TrimStartMatches(Trim(host), '['), ']'), '.')
  }

  // Matching, on a pattern and a host that are already normalised.
  predicate MatchesNormalized(pattern: string, host: string) {
    if pattern == "*" then true
    else if "*." <= pattern then
      var suffix := pattern[2..];
      host == suffix || EndsWith(host, "." + suffix)
    else if "*" <= pattern then
      var suffix := pattern[1..];
      host == suffix || (EndsWith(host, suffix) && EndsWith(host[..|host| - |suffix|], "."))
    else if EndsWith(pattern, ".*") then
      var prefix := pattern[..|pattern| - 2];
      host == prefix || (prefix <= host && "." <= host[|prefix|..])
    else pattern == host
  }

  predicate MatchesHostPattern(pattern: string, host: string) {
    MatchesNormalized(NormalizeHost(pattern), NormalizeHost(host))
  }

  predicate MatchesAny(patterns: set<string>, host: string) {
    exists p :: p in patterns && MatchesHostPattern(p, host)
  }

  // ----- What a pattern means: a set of label lists -----

  datatype Pattern =
    | AnyHost
    | WithSuffix(labels: seq<string>)
    | WithPrefix(labels: seq<string>)
    | Exactly(labels: seq<string>)

  function Labels(host: string): seq<string> {
    Split(host, '.')
  }

  function ParsePattern(pattern: string): Pattern {
    if pattern == "*" then AnyHost
    else if "*." <= pattern then WithSuffix(Labels(pattern[2..]))
    else if "*" <= pattern then WithSuffix(Labels(pattern[1..]))
    else if EndsWith(pattern, ".*") then WithPrefix(Labels(pattern[..|pattern| - 2]))
    else Exactly(Labels(pattern))
  }

  predicate Denotes(pattern: Pattern, host: seq<string>) {
    match pattern
    case AnyHost => true
    case WithSuffix(labels) => IsSuffix(labels, host)
    case WithPrefix(labels) => labels <= host
    case Exactly(labels) => host == labels
  }

  // A pattern matches exactly the hosts whose labels it describes: `*.S` and
  // `*S` those whose last labels are S's, `P.*` those whose first labels are
  // P's. No partial label ever matches.
  lemma MatchingIsByLabels(pattern: string, host: string)
    ensures MatchesNormalized(pattern, host) <==> Denotes(ParsePattern(pattern), Labels(host))
  {
    if pattern == "*" {
    } else if "*." <= pattern {
      SuffixOfParts(host, pattern[2..], '.');
    } else if "*" <= pattern {
      SuffixOfParts(host, pattern[1..], '.');
      DotThenSuffix(host, pattern[1..]);
    } else if EndsWith(pattern, ".*") {
      PrefixOfParts(host, pattern[..|pattern| - 2], '.');
      PrefixThenDot(host, pattern[..|pattern| - 2]);
    } else if Labels(pattern) == Labels(host) {
      SplitInjective(pattern, host, '.');
    }
  }

  lemma DotThenSuffix(host: string, suffix: string)
    ensures EndsWith(host, "." + suffix) <==>
            EndsWith(host, suffix) && EndsWith(host[..|host| - |suffix|], ".")
  {
    if EndsWith(host, "." + suffix) {
      var head := host[..|host| - |suffix| - 1];
      assert host == head + ("." + suffix);
      assert host == (head + ".") + suffix;
      assert host[..|host| - |suffix|] == head + ".";
    }
    if EndsWith(host, suffix) && EndsWith(host[..|host| - |suffix|], ".") {
      var head := host[..|host| - |suffix|];
      assert host == head + suffix;
      assert head == head[..|head| - 1] + ".";
      assert host == head[..|head| - 1] + ("." + suffix);
    }
  }

  lemma PrefixThenDot(host: string, prefix: string)
    ensures prefix + "." <= host <==> prefix <= host && "." <= host[|prefix|..]
  {}

  // ----- Normalising twice -----

  // One pass is enough: what it leaves has no white space around it and does
  // not end in a bracket.
  predicate NormalizesOnce(host: string) {
    var t := TrimHost(host);
    t == "" || (!IsWhitespace(t[0]) && !IsWhitespace(t[|t| - 1]) && t[|t| - 1] != ']')
  }

  lemma TrimHostStops(host: string)
    ensures var t := TrimHost(host); t != "" ==> t[0] != '[' && t[|t| - 1] != '.'
  {
    TrimStartMatchesStops(Trim(host), '[');
  }

  lemma NothingToTrim(s: string)
    requires s != "" ==> !IsWhitespace(s[0]) && !IsWhitespace(s[|s| - 1])
    requires s != "" ==> s[0] != '[' && s[|s| - 1] != ']' && s[|s| - 1] != '.'
    ensures NormalizeHost(s) == Lower(s)
  {}

  lemma SomethingToTrim(s: string)
    requires s != ""
    requires IsWhitespace(s[0]) || IsWhitespace(s[|s| - 1]) || s[|s| - 1] == ']'
    ensures |TrimHost(s)| < |s|
  {
    TrimShortens(s);
    TrimStartMatchesShortens(Trim(s), '[');
    if Trim(s) == s && s[0] == '[' {
      TrimStartMatchesShortens(s[1..], '[');
    }
  }

  lemma TrimmedIsLower(p: string)
    requires NormalShape(p)
    ensures Lower(TrimHost(p)) == TrimHost(p)
  {
    var t := TrimHost(p);
    TrimHostKeeps(p);
    assert forall i :: 0 <= i < |p| ==> LowerChar(p[i]) == p[i];
    assert forall c :: c in p ==> LowerChar(c) == c;
    assert forall i :: 0 <= i < |t| ==> t[i] in t;
    assert Lower(t) == t;
  }

  lemma TrimHostKeeps(p: string)
    ensures forall c :: c in TrimHost(p) ==> c in p
  {
    TrimKeeps(p);
    TrimStartMatchesKeeps(Trim(p), '[');
    PrefixKeeps(TrimHost(p), TrimStartMatches(Trim(p), '['));
  }

  lemma PrefixKeeps(t: string, s: string)
    requires t <= s
    ensures forall c :: c in t ==> c in s
  {
    assert forall i :: 0 <= i < |t| ==> t[i] == s[i];
  }

  // Normalisation is idempotent exactly there.
  lemma NormalizeTwice(host: string)
    ensures NormalizeHost(NormalizeHost(host)) == NormalizeHost(host) <==> NormalizesOnce(host)
  {
    var t, n := TrimHost(host), NormalizeHost(host);
    TrimHostStops(host);
    LowerTwice(t);
    if NormalizesOnce(host) {
      NothingToTrim(n);
    } else {
      SomethingToTrim(n);
    }
  }

  predicate EndsInBracket(s: string) {
    s != "" && s[|s| - 1] == ']'
  }

  lemma {:induction false} TrimEndKeepsFront(c: char, s: string, d: char)
    requires c != d
    ensures TrimEndMatches([c] + s, d) == [c] + TrimEndMatches(s, d)
  {
    var all := [c] + s;
    if s != "" && s[|s| - 1] == d {
      assert all[..|all| - 1] == [c] + s[..|s| - 1];
      TrimEndKeepsFront(c, s[..|s| - 1], d);
    }
  }

  lemma {:induction false} LeadingBracketsDoNotMatter(s: string)
    ensures EndsInBracket(TrimEndMatches(TrimEndMatches(TrimStartMatches(s, '['), ']'), '.')) <==>
            EndsInBracket(TrimEndMatches(TrimEndMatches(s, ']'), '.'))
  {
    if s != "" && s[0] == '[' {
      var rest := s[1..];
      assert s == ['['] + rest;
      TrimEndKeepsFront('[', rest, ']');
      TrimEndKeepsFront('[', TrimEndMatches(rest, ']'), '.');
      LeadingBracketsDoNotMatter(rest);
    }
  }

  // For text without white space, which host names and addresses are: a
  // bracket must not be left over once the closing brackets and then the dots
  // at the end are gone.
  lemma NormalizesOnceWithoutSpace(host: string)
    requires WithoutSpace(host)
    ensures NormalizesOnce(host) <==> !EndsInBracket(TrimEndMatches(TrimEndMatches(host, ']'), '.'))
  {
    TrimShortens(host);
    TrimStartMatchesKeeps(host, '[');
    LeadingBracketsDoNotMatter(host);
    PrefixWithoutSpace(TrimHost(host), TrimStartMatches(host, '['));
  }

  ghost predicate WithoutSpace(s: string) {
    forall c :: c in s ==> !IsWhitespace(c)
  }

  lemma PrefixWithoutSpace(t: string, s: string)
    requires t <= s && WithoutSpace(s)
    ensures t != "" ==> !IsWhitespace(t[0]) && !IsWhitespace(t[|t| - 1])
  {
    assert forall i :: 0 <= i < |t| ==> t[i] == s[i] && s[i] in s;
  }

  lemma PlainPatternIsExact(pattern: string, host: string)
    requires '*' !in pattern
    ensures MatchesNormalized(pattern, host) <==> pattern == host
  {
    assert "*"[0] == '*' && "*."[0] == '*' && ".*"[1] == '*';
  }

  // A bracket before a final dot is left over.
  lemma BracketsNeedTwoPasses()
    ensures NormalizeHost("a].") == "a]" && NormalizeHost("a]") == "a" && NormalizeHost("a") == "a"
  {
    assert Trim("a].") == "a]." && Trim("a]") == "a]" && Trim("a") == "a";
    assert TrimEndMatches("a].", ']') == "a].";
    assert "a]."[..2] == "a]" && "a]"[..1] == "a";
    assert TrimEndMatches("a].", '.') == "a]";
    assert TrimEndMatches("a]", ']') == "a";
    assert Lower("a]") == "a]" && Lower("a") == "a";
  }

  // ----- Entries as stored and as written -----

  // The texts that normalisation gives.
  predicate NormalShape(x: string) {
    Lower(x) == x && (x != "" ==> x[0] != '[' && x[|x| - 1] != '.')
  }

  lemma NormalShapeIsReached(x: string)
    requires NormalShape(x)
    ensures NormalizeHost("[" + x + ".") == x
  {
    var s, t := "[" + x + ".", x + ".";
    TrimShortens(s);
    assert s[1..] == t && t[..|x|] == x;
    assert TrimStartMatches(s, '[') == t;
    assert TrimEndMatches(t, ']') == t;
    assert TrimEndMatches(t, '.') == x;
  }

  lemma NormalizedShape(host: string)
    ensures NormalShape(NormalizeHost(host))
  {
    TrimHostStops(host);
    LowerTwice(TrimHost(host));
  }

  // What a pattern of each form matches.
  predicate IsStarred(p: string) {
    p != "" && p != "*" && p[0] == '*'
  }

  function StarredSuffix(p: string): string
    requires IsStarred(p)
  {
    if p[1] == '.' then p[2..] else p[1..]
  }

  lemma StarredMatches(p: string, x: string)
    requires IsStarred(p)
    ensures MatchesNormalized(p, x) <==> x == StarredSuffix(p) || EndsWith(x, "." + StarredSuffix(p))
  {
    DotThenSuffix(x, p[1..]);
  }

  predicate IsOpenEnded(p: string) {
    |p| >= 2 && p[0] != '*' && p[|p| - 2] == '.' && p[|p| - 1] == '*'
  }

  lemma OpenEndedMatches(p: string, x: string)
    requires IsOpenEnded(p)
    ensures var prefix := p[..|p| - 2]; MatchesNormalized(p, x) <==> x == prefix || prefix + "." <= x
  {
    PrefixThenDot(x, p[..|p| - 2]);
    EndsOpen(p);
  }

  lemma EndsOpen(p: string)
    ensures EndsWith(p, ".*") <==> |p| >= 2 && p[|p| - 2] == '.' && p[|p| - 1] == '*'
  {
    if |p| >= 2 {
      assert p[|p| - 2..] == [p[|p| - 2], p[|p| - 1]];
    }
  }

  lemma OtherwiseExact(p: string, x: string)
    requires p != "*" && !IsStarred(p) && !IsOpenEnded(p)
    ensures MatchesNormalized(p, x) <==> p == x
  {
    EndsOpen(p);
  }

  // A pattern that normalisation has more to trim from.
  predicate IsUnsettled(p: string) {
    && NormalShape(p) && p != ""
    && (IsWhitespace(p[0]) || IsWhitespace(p[|p| - 1]) || p[|p| - 1] == ']')
  }

  // How what is left of it lies within it.
  ghost predicate IsWithin(q: string, p: string)
    requires p != ""
  {
    && NormalShape(q) && |q| < |p|
    && (!IsWhitespace(p[0]) ==> q <= p)
    && (p[0] == '*' ==> q != "")
    && (IsWhitespace(p[0]) && IsOpenEnded(p) ==> exists k :: IsTail(q, p, k))
  }

  predicate IsTail(q: string, p: string, k: nat) {
    1 <= k <= |p| - 2 && q == p[k..] && (IsWhitespace(q[0]) ==> 2 <= k)
  }

  lemma TrimmedFront(p: string)
    requires IsUnsettled(p) && !IsWhitespace(p[0])
    ensures TrimHost(p) <= p && (p[0] == '*' ==> TrimHost(p) != "")
  {
    TrimEndStops(p);
    var t := TrimEnd(p);
    TrimEndKeepsFirst(p);
    assert Trim(p) == t && TrimStartMatches(t, '[') == t;
    if p[0] == '*' {
      TrimEndMatchesKeepsFirst(t, ']');
      TrimEndMatchesKeepsFirst(TrimEndMatches(t, ']'), '.');
    }
  }

  lemma KeepsStarAtEnd(u: string)
    requires u != "" && u[|u| - 1] == '*'
    ensures TrimEnd(u) == u && TrimEndMatches(TrimEndMatches(u, ']'), '.') == u
  {}

  lemma TrimHostIs(p: string, t: string, u: string)
    requires TrimStart(p) == t && TrimStartMatches(t, '[') == u
    requires t != "" && t[|t| - 1] == '*' && u != "" && u[|u| - 1] == '*'
    ensures TrimHost(p) == u
  {
    KeepsStarAtEnd(t);
    KeepsStarAtEnd(u);
  }

  lemma TrimmedTail(p: string)
    requires IsUnsettled(p) && IsWhitespace(p[0]) && IsOpenEnded(p)
    ensures exists k :: IsTail(TrimHost(p), p, k)
  {
    var i := |p| - 2;
    var j := TrimStartKeepsFrom(p, i);
    var t := p[j..];
    TrimStartStops(p);
    var m := TrimStartMatchesKeepsFrom(t, '[', i - j);
    var u := t[m..];
    TrimHostIs(p, t, u);
    TailOfTail(p, j, m);
    assert IsTail(u, p, j + m);
  }

  lemma TailOfTail(p: string, j: nat, m: nat)
    requires j + m <= |p|
    ensures p[j..][m..] == p[j + m..]
  {}

  lemma SecondPassIsWithin(p: string)
    requires IsUnsettled(p)
    ensures IsWithin(NormalizeHost(p), p) && NormalizeHost(p) == TrimHost(p)
  {
    SomethingToTrim(p);
    TrimmedIsLower(p);
    NormalizedShape(p);
    if !IsWhitespace(p[0]) {
      TrimmedFront(p);
    } else if IsOpenEnded(p) {
      TrimmedTail(p);
    }
  }

  // A host that what is left matches and the whole does not.
  lemma AnyMatchesMore(p: string)
    requires IsUnsettled(p)
    ensures !MatchesNormalized(p, "b") && MatchesNormalized("*", "b") && NormalShape("b")
  {
    if IsStarred(p) {
      StarredMatches(p, "b");
    } else if IsOpenEnded(p) {
      OpenEndedMatches(p, "b");
    } else {
      OtherwiseExact(p, "b");
    }
  }

  lemma TailsAreNotExact(p: string, q: string)
    ensures forall k :: IsOpenEnded(p) && IsTail(q, p, k) ==> IsStarred(q) || IsOpenEnded(q)
  {}

  lemma ExactMatchesMore(p: string, q: string)
    requires IsUnsettled(p) && IsWithin(q, p) && q != "*" && !IsStarred(q) && !IsOpenEnded(q)
    ensures MatchesNormalized(q, q) && !MatchesNormalized(p, q)
  {
    OtherwiseExact(q, q);
    TailsAreNotExact(p, q);
    OtherwiseExact(p, q);
  }

  lemma ShorterSuffixMisses(whole: string, s: string, c: char)
    requires |s| < |whole| && c != whole[0] && c != '.'
    ensures var x := [c] + "." + s; x != whole && !EndsWith(x, "." + whole)
  {
    var x, t := [c] + "." + s, "." + whole;
    assert x[0] == c && t[0] == '.';
    assert |x| <= |t|;
  }

  lemma StarredAfterLetter(q: string, c: char)
    requires IsStarred(q) && NormalShape(q) && LowerChar(c) == c && c != '['
    ensures var x := [c] + "." + StarredSuffix(q); NormalShape(x) && MatchesNormalized(q, x)
  {
    var s := StarredSuffix(q);
    var x := [c] + "." + s;
    assert x[1..] == "." + s;
    StarredMatches(q, x);
    assert forall i :: 0 <= i < |q| ==> LowerChar(q[i]) == q[i];
  }

  // A pattern that does not start with a star starts with white space, if what
  // is left of it starts with another character.
  lemma StartsWithSpace(p: string, q: string)
    requires IsUnsettled(p) && IsWithin(q, p) && q != "" && q[0] != p[0]
    ensures IsWhitespace(p[0])
  {}

  lemma SpacedPatternMisses(p: string, x: string)
    requires IsUnsettled(p) && IsWhitespace(p[0]) && x != "" && x[0] != p[0]
    ensures !MatchesNormalized(p, x)
  {
    if IsOpenEnded(p) {
      OpenEndedMatches(p, x);
    } else {
      OtherwiseExact(p, x);
    }
  }

  lemma StarredMatchesMore(p: string, q: string) returns (x: string)
    requires IsUnsettled(p) && IsWithin(q, p) && IsStarred(q)
    ensures NormalShape(x) && MatchesNormalized(q, x) && !MatchesNormalized(p, x)
  {
    var c := if IsStarred(p) && StarredSuffix(p)[0] == 'b' then 'c' else 'b';
    x := [c] + "." + StarredSuffix(q);
    StarredAfterLetter(q, c);
    if IsStarred(p) {
      assert |StarredSuffix(q)| < |StarredSuffix(p)|;
      ShorterSuffixMisses(StarredSuffix(p), StarredSuffix(q), c);
      StarredMatches(p, x);
    } else {
      StartsWithSpace(p, q);
      SpacedPatternMisses(p, x);
    }
  }

  lemma LongerPrefixMisses(whole: string, k: nat, m: char)
    requires 1 <= k <= |whole| && IsWhitespace(whole[0]) && m != whole[|whole| - 1]
    requires k < |whole| && IsWhitespace(whole[k]) ==> 2 <= k
    ensures var x := whole[k..] + "." + [m]; x != whole && !(whole + "." <= x)
  {
    var x, t := whole[k..] + "." + [m], whole + ".";
    assert x[|x| - 1] == m && t[0] == whole[0];
    assert x[0] == if k < |whole| then whole[k] else '.';
  }

  lemma OpenEndedBeforeLetter(q: string, m: char)
    requires IsOpenEnded(q) && NormalShape(q) && LowerChar(m) == m && m != '.'
    ensures var x := q[..|q| - 2] + "." + [m]; NormalShape(x) && MatchesNormalized(q, x)
  {
    OpenEndedMatches(q, q[..|q| - 2] + "." + [m]);
    assert forall i :: 0 <= i < |q| ==> LowerChar(q[i]) == q[i];
  }

  lemma OpenEndedMatchesMore(p: string, q: string) returns (x: string)
    requires IsUnsettled(p) && IsWithin(q, p) && IsOpenEnded(q)
    ensures NormalShape(x) && MatchesNormalized(q, x) && !MatchesNormalized(p, x)
  {
    if IsOpenEnded(p) {
      var k :| IsTail(q, p, k);
      x := OpenEndedTailMatchesMore(p, q, k);
    } else {
      var m := if p[|p| - 1] == 'b' then 'c' else 'b';
      x := q[..|q| - 2] + "." + [m];
      OpenEndedBeforeLetter(q, m);
      OtherwiseExact(p, x);
      assert x[|x| - 1] == m;
    }
  }

  lemma OpenEndedTailMatchesMore(p: string, q: string, k: nat) returns (x: string)
    requires IsOpenEnded(p) && IsWhitespace(p[0]) && IsOpenEnded(q) && NormalShape(q) && IsTail(q, p, k)
    ensures NormalShape(x) && MatchesNormalized(q, x) && !MatchesNormalized(p, x)
  {
    var whole := p[..|p| - 2];
    var m := if whole[|whole| - 1] == 'b' then 'c' else 'b';
    x := q[..|q| - 2] + "." + [m];
    OpenEndedBeforeLetter(q, m);
    assert q[..|q| - 2] == whole[k..];
    LongerPrefixMisses(whole, k, m);
    OpenEndedMatches(p, x);
  }

  lemma LeftoverMatchesMore(p: string) returns (x: string)
    requires IsUnsettled(p)
    ensures NormalShape(x) && MatchesNormalized(NormalizeHost(p), x) && !MatchesNormalized(p, x)
  {
    var q := NormalizeHost(p);
    SecondPassIsWithin(p);
    if q == "*" {
      AnyMatchesMore(p);
      x := "b";
    } else if IsStarred(q) {
      x := StarredMatchesMore(p, q);
    } else if IsOpenEnded(q) {
      x := OpenEndedMatchesMore(p, q);
    } else {
      ExactMatchesMore(p, q);
      x := q;
    }
  }

  // An entry that does not settle in one pass matches, as stored, a host that
  // it does not match as written.
  lemma UnsettledEntryMatchesMore(entry: string) returns (host: string)
    requires !NormalizesOnce(entry)
    ensures MatchesHostPattern(NormalizeHost(entry), host) && !MatchesHostPattern(entry, host)
  {
    NormalizedShape(entry);
    var x := LeftoverMatchesMore(NormalizeHost(entry));
    host := "[" + x + ".";
    NormalShapeIsReached(x);
  }

  // What the stored entry matches, and what it was written to match.
  predicate StoredMatches(entry: string, host: string) {
    MatchesHostPattern(NormalizeHost(entry), host)
  }

  // An entry stored normalised matches what the entry as written would, on
  // every host, if and only if it settles in one pass.
  lemma StoredPatternMatchesAlike(entry: string)
    ensures (forall h :: StoredMatches(entry, h) <==> MatchesHostPattern(entry, h)) <==> NormalizesOnce(entry)
  {
    if NormalizesOnce(entry) {
      NormalizeTwice(entry);
    } else {
      var h := UnsettledEntryMatchesMore(entry);
      assert StoredMatches(entry, h) && !MatchesHostPattern(entry, h);
    }
  }

  // ----- Redirect policy -----

  datatype Policy = Policy(
    maxRedirects: nat,
    trackAllRedirects: bool,
    allowedHosts: set<string>,
    deniedHosts: set<string>,
    allowAnyRedirect: bool,
    followRedirects: bool,
    allowSchemeDowngrade: bool)

  const DEFAULT_POLICY := Policy(10, true, {}, {}, false, false, false)

  predicate AnySecure(urls: seq<Url>) {
    exists i :: 0 <= i < |urls| && urls[i].scheme == "https"
  }

  function CheckRedirect(policy: Policy, previous: seq<Url>, next: Url): Option<Error> {
    if |previous| >= policy.maxRedirects then Some(TooManyRedirects(policy.maxRedirects))
    else if next.scheme != "http" && next.scheme != "https" then Some(RedirectBlocked)
    else if !policy.allowSchemeDowngrade && AnySecure(previous + [next]) && next.scheme == "http" then
      Some(RedirectBlocked)
    else match next.host
      case None => Some(NoHost)
      case Some(host) =>
        var name := HostStr(host);
        if MatchesAny(policy.deniedHosts, name) then Some(RedirectBlocked)
        else if !policy.trackAllRedirects && policy.allowAnyRedirect then None
        else if MatchesAny(policy.allowedHosts, name) then None
        else Some(HostNotAllowed)
  }

  // ----- Scope validator -----

  datatype Scope = Scope(allowList: set<string>, denyList: set<string>, defaultDeny: bool)

  function CheckUrl(scope: Scope, parsed: Option<Url>): Option<Error> {
    match parsed
    case None => Some(UrlError)
    case Some(url) =>
      if url.scheme != "http" && url.scheme != "https" then Some(InvalidScheme)
      else match url.host
        case None => Some(NoHost)
        case Some(host) =>
          var name := HostStr(host);
          if MatchesAny(scope.denyList, name) then Some(RedirectBlocked)
          else if MatchesAny(scope.allowList, name) then None
          else if scope.defaultDeny then Some(RedirectBlocked)
          else None
  }

  predicate InScope(scope: Scope, host: string) {
    && !MatchesAny(scope.denyList, host)
    && (MatchesAny(scope.allowList, host) || !scope.defaultDeny)
  }

  lemma ScopeAccepts(scope: Scope, url: Url)
    ensures CheckUrl(scope, Some(url)).None? <==>
            IsWeb(url.scheme) && url.host.Some? && InScope(scope, HostStr(url.host.value))
  {}

  // Adding an entry to either list, host by host.
  lemma AllowWidens(scope: Scope, entry: string, host: string)
    ensures InScope(scope.(allowList := scope.allowList + {entry}), host) <==>
              InScope(scope, host) || (MatchesHostPattern(entry, host) && !MatchesAny(scope.denyList, host))
  {
    var wider := scope.allowList + {entry};
    assert entry in wider;
    assert MatchesAny(wider, host) <==> MatchesAny(scope.allowList, host) || MatchesHostPattern(entry, host);
  }

  lemma DenyNarrows(scope: Scope, entries: set<string>, host: string)
    ensures InScope(scope.(denyList := scope.denyList + entries), host) <==>
              InScope(scope, host) && !MatchesAny(entries, host)
  {}

  lemma MatchesOne(entry: string, host: string)
    ensures MatchesAny({entry}, host) <==> MatchesHostPattern(entry, host)
  {
    assert entry in {entry};
  }

  lemma AllowedHosts(before: Scope, entry: string)
    ensures var after := before.(allowList := before.allowList + {NormalizeHost(entry)});
            forall h :: InScope(after, h) <==>
              InScope(before, h) || (StoredMatches(entry, h) && !MatchesAny(before.denyList, h))
    ensures NormalizesOnce(entry) <==> forall h :: StoredMatches(entry, h) <==> MatchesHostPattern(entry, h)
  {
    var after := before.(allowList := before.allowList + {NormalizeHost(entry)});
    forall h
      ensures InScope(after, h) <==>
                InScope(before, h) || (StoredMatches(entry, h) && !MatchesAny(before.denyList, h))
    {
      AllowWidens(before, NormalizeHost(entry), h);
    }
    StoredPatternMatchesAlike(entry);
  }

  lemma DeniedHosts(before: Scope, entry: string)
    ensures var after := before.(denyList := before.denyList + {NormalizeHost(entry)});
            forall h :: InScope(after, h) <==> InScope(before, h) && !StoredMatches(entry, h)
    ensures NormalizesOnce(entry) <==> forall h :: StoredMatches(entry, h) <==> MatchesHostPattern(entry, h)
  {
    var after := before.(denyList := before.denyList + {NormalizeHost(entry)});
    forall h ensures InScope(after, h) <==> InScope(before, h) && !StoredMatches(entry, h) {
      DenyNarrows(before, {NormalizeHost(entry)}, h);
      MatchesOne(NormalizeHost(entry), h);
    }
    StoredPatternMatchesAlike(entry);
  }

  // The validator's lists, updated in place.
  class ScopeValidator {
    var allowList: set<string>
    var denyList: set<string>
    const defaultDeny: bool

    function Lists(): Scope
      reads this
    {
      Scope(allowList, denyList, defaultDeny)
    }

    constructor (defaultDeny: bool)
      ensures Lists() == Scope({}, {}, defaultDeny)
    {
      allowList, denyList := {}, {};
      this.defaultDeny := defaultDeny;
    }

    // Exactly the undenied hosts that the stored entry matches come into
    // scope; these are the ones it matches as written just if it settles in
    // one pass.
    method AllowHost(host: string)
      modifies this
      ensures Lists() == old(Lists()).(allowList := old(allowList) + {NormalizeHost(host)})
      ensures forall h :: InScope(Lists(), h) <==>
                InScope(old(Lists()), h) || (StoredMatches(host, h) && !MatchesAny(denyList, h))
      ensures NormalizesOnce(host) <==> forall h :: StoredMatches(host, h) <==> MatchesHostPattern(host, h)
    {
      AllowedHosts(Lists(), host);
      allowList := allowList + {NormalizeHost(host)};
    }

    // Exactly the hosts that the stored entry matches go out of scope.
    method DenyHost(host: string)
      modifies this
      ensures Lists() == old(Lists()).(denyList := old(denyList) + {NormalizeHost(host)})
      ensures forall h :: InScope(Lists(), h) <==> InScope(old(Lists()), h) && !StoredMatches(host, h)
      ensures NormalizesOnce(host) <==> forall h :: StoredMatches(host, h) <==> MatchesHostPattern(host, h)
    {
      DeniedHosts(Lists(), host);
      denyList := denyList + {NormalizeHost(host)};
    }

    // The same for a whole list.
    method WithDenyList(hosts: seq<string>)
      modifies this
      ensures Lists() == old(Lists()).(denyList := old(denyList) + NormalizeAll(hosts))
      ensures forall h :: InScope(Lists(), h) <==>
                InScope(old(Lists()), h) && !MatchesAny(NormalizeAll(hosts), h)
    {
      for i := 0 to |hosts|
        invariant allowList == old(allowList)
        invariant denyList == old(denyList) + NormalizeAll(hosts[..i])
      {
        NormalizeOneMore(hosts, i);
        DenyHost(hosts[i]);
      }
      assert hosts[..|hosts|] == hosts;
      forall h ensures InScope(Lists(), h) <==> InScope(old(Lists()), h) && !MatchesAny(NormalizeAll(hosts), h) {
        DenyNarrows(old(Lists()), NormalizeAll(hosts), h);
      }
    }
  }

  lemma NormalizeOneMore(hosts: seq<string>, i: nat)
    requires i < |hosts|
    ensures NormalizeAll(hosts[..i + 1]) == NormalizeAll(hosts[..i]) + {NormalizeHost(hosts[i])}
  {
    assert hosts[..i + 1][..i] == hosts[..i];
  }

  function NormalizeAll(hosts: seq<string>): set<string> {
    if hosts == [] then {}
    else NormalizeAll(hosts[..|hosts| - 1]) + {NormalizeHost(hosts[|hosts| - 1])}
  }

  // Deny beats allow, whatever is added to the allow list later.
  lemma DenyBeatsAllow(scope: Scope, entry: string, more: set<string>, host: string)
    requires entry in scope.denyList && MatchesHostPattern(entry, host)
    ensures !InScope(scope.(allowList := scope.allowList + more), host)
  {}
}
