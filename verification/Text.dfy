// The string operations of Rust's standard library that the source uses.
module Text {
  // ASCII lower-casing leaves every other character alone.
  function LowerChar(c: char): char {
    if 'A' <= c <= 'Z' then (c as int + 32) as char else c
  }

  function Lower(s: string): (r: string)
    ensures |r| == |s| && forall i :: 0 <= i < |s| ==> r[i] == LowerChar(s[i])
  {
    seq(|s|, i requires 0 <= i < |s| => LowerChar(s[i]))
  }

  lemma LowerTwice(s: string)
    ensures Lower(Lower(s)) == Lower(s)
  {}

  predicate EqIgnoreCase(a: string, b: string) {
    Lower(a) == Lower(b)
  }

  // The Unicode White_Space property.
  predicate IsWhitespace(c: char) {
    var n := c as int;
    || 0x09 <= n <= 0x0D || n == 0x20 || n == 0x85 || n == 0xA0 || n == 0x1680
    || 0x2000 <= n <= 0x200A || n == 0x2028 || n == 0x2029 || n == 0x202F || n == 0x205F || n == 0x3000
  }

  function TrimStart(s: string): string {
    if s != "" && IsWhitespace(s[0]) then TrimStart(s[1..]) else s
  }

  function TrimEnd(s: string): string {
    if s != "" && IsWhitespace(s[|s| - 1]) then TrimEnd(s[..|s| - 1]) else s
  }

  function Trim(s: string): string {
    TrimEnd(TrimStart(s))
  }

  function TrimStartMatches(s: string, c: char): string {
    if s != "" && s[0] == c then TrimStartMatches(s[1..], c) else s
  }

  function TrimEndMatches(s: string, c: char): (r: string)
    ensures r <= s
    ensures r != "" ==> r[|r| - 1] != c
  {
    if s != "" && s[|s| - 1] == c then TrimEndMatches(s[..|s| - 1], c) else s
  }

  lemma {:induction false} TrimEndStops(s: string)
    ensures TrimEnd(s) == "" || !IsWhitespace(TrimEnd(s)[|TrimEnd(s)| - 1])
    ensures TrimEnd(s) <= s
  {
    if s != "" && IsWhitespace(s[|s| - 1]) { TrimEndStops(s[..|s| - 1]); }
  }

  lemma {:induction false} TrimStartStops(s: string)
    ensures TrimStart(s) == "" || !IsWhitespace(TrimStart(s)[0])
  {
    if s != "" && IsWhitespace(s[0]) { TrimStartStops(s[1..]); }
  }

  // Trimming at the front stops at the latest at a character it keeps.
  lemma {:induction false} TrimStartKeepsFrom(s: string, i: nat) returns (j: nat)
    requires i < |s| && !IsWhitespace(s[i])
    ensures j <= i && TrimStart(s) == s[j..] && (IsWhitespace(s[0]) ==> 0 < j)
  {
    if IsWhitespace(s[0]) {
      j := TrimStartKeepsFrom(s[1..], i - 1);
      assert s[1..][j..] == s[j + 1..];
      j := j + 1;
    } else {
      j := 0;
    }
  }

  lemma {:induction false} TrimStartMatchesKeepsFrom(s: string, c: char, i: nat) returns (j: nat)
    requires i < |s| && s[i] != c
    ensures j <= i && TrimStartMatches(s, c) == s[j..]
  {
    if s[0] == c {
      j := TrimStartMatchesKeepsFrom(s[1..], c, i - 1);
      assert s[1..][j..] == s[j + 1..];
      j := j + 1;
    } else {
      j := 0;
    }
  }

  lemma {:induction false} TrimStartMatchesStops(s: string, c: char)
    ensures var r := TrimStartMatches(s, c); r != "" ==> r[0] != c
  {
    if s != "" && s[0] == c { TrimStartMatchesStops(s[1..], c); }
  }

  lemma {:induction false} TrimStartMatchesShortens(s: string, c: char)
    ensures |TrimStartMatches(s, c)| <= |s|
  {
    if s != "" && s[0] == c { TrimStartMatchesShortens(s[1..], c); }
  }

  lemma {:induction false} TrimStartMatchesKeeps(s: string, c: char)
    ensures forall x :: x in TrimStartMatches(s, c) ==> x in s
  {
    if s != "" && s[0] == c { TrimStartMatchesKeeps(s[1..], c); }
  }

  lemma {:induction false} TrimStartKeeps(s: string)
    ensures forall x :: x in TrimStart(s) ==> x in s
  {
    if s != "" && IsWhitespace(s[0]) { TrimStartKeeps(s[1..]); }
  }

  lemma TrimKeeps(s: string)
    ensures forall x :: x in Trim(s) ==> x in s
  {
    TrimStartKeeps(s);
    TrimEndStops(TrimStart(s));
  }

  lemma {:induction false} TrimEndKeepsFirst(s: string)
    requires s != "" && !IsWhitespace(s[0])
    ensures TrimEnd(s) != "" && TrimEnd(s)[0] == s[0]
  {
    if IsWhitespace(s[|s| - 1]) { TrimEndKeepsFirst(s[..|s| - 1]); }
  }

  lemma {:induction false} TrimEndMatchesKeepsFirst(s: string, c: char)
    requires s != "" && s[0] != c
    ensures TrimEndMatches(s, c) != "" && TrimEndMatches(s, c)[0] == s[0]
  {
    if s[|s| - 1] == c { TrimEndMatchesKeepsFirst(s[..|s| - 1], c); }
  }

  lemma {:induction false} TrimStartShortens(s: string)
    ensures |TrimStart(s)| <= |s|
  {
    if s != "" && IsWhitespace(s[0]) { TrimStartShortens(s[1..]); }
  }

  lemma {:induction false} TrimEndShortens(s: string)
    ensures |TrimEnd(s)| <= |s|
  {
    if s != "" && IsWhitespace(s[|s| - 1]) { TrimEndShortens(s[..|s| - 1]); }
  }

  // Trimming shortens text with white space around it and no other.
  lemma TrimShortens(s: string)
    ensures if s != "" && (IsWhitespace(s[0]) || IsWhitespace(s[|s| - 1])) then |Trim(s)| < |s| else Trim(s) == s
  {
    TrimEndShortens(TrimStart(s));
    if s != "" {
      TrimStartShortens(s[1..]);
      TrimEndShortens(s[..|s| - 1]);
    }
  }

  predicate EndsWith(s: string, t: string) {
    |t| <= |s| && s[|s| - |t|..] == t
  }

  // ----- Splitting at a separator -----

  function Split(s: string, sep: char): (parts: seq<string>)
    ensures |parts| > 0
  {
    if s == "" then [""]
    else
      var rest := Split(s[1..], sep);
      if s[0] == sep then [""] + rest else [[s[0]] + rest[0]] + rest[1..]
  }

  function Join(parts: seq<string>, sep: char): string
    requires |parts| > 0
  {
    if |parts| == 1 then parts[0] else parts[0] + [sep] + Join(parts[1..], sep)
  }

  lemma {:induction false} JoinSplit(s: string, sep: char)
    ensures Join(Split(s, sep), sep) == s
  {
    if s != "" {
      JoinSplit(s[1..], sep);
      var rest := Split(s[1..], sep);
      if s[0] == sep {
        assert ([""] + rest)[1..] == rest;
      } else {
        var parts := [[s[0]] + rest[0]] + rest[1..];
        assert parts[1..] == rest[1..];
      }
    }
  }

  lemma SplitInjective(s: string, t: string, sep: char)
    requires Split(s, sep) == Split(t, sep)
    ensures s == t
  {
    JoinSplit(s, sep);
    JoinSplit(t, sep);
  }

  lemma {:induction false} SplitWithoutSeparator(s: string, sep: char)
    requires sep !in s
    ensures Split(s, sep) == [s]
  {
    if s != "" {
      SplitWithoutSeparator(s[1..], sep);
      assert s == [s[0]] + s[1..];
    }
  }

  lemma {:induction false} SplitAtSeparator(a: string, sep: char, b: string)
    ensures Split(a + [sep] + b, sep) == Split(a, sep) + Split(b, sep)
  {
    var s := a + [sep] + b;
    if a == "" {
      assert s[1..] == b;
    } else {
      assert s[1..] == a[1..] + [sep] + b;
      SplitAtSeparator(a[1..], sep, b);
    }
  }

  lemma {:induction false} JoinAppend(a: seq<string>, b: seq<string>, sep: char)
    requires |a| > 0 && |b| > 0
    ensures Join(a + b, sep) == Join(a, sep) + [sep] + Join(b, sep)
  {
    if |a| == 1 {
      assert (a + b)[1..] == b;
    } else {
      assert (a + b)[1..] == a[1..] + b;
      JoinAppend(a[1..], b, sep);
    }
  }

  predicate IsSuffix(tail: seq<string>, all: seq<string>) {
    |tail| <= |all| && all[|all| - |tail|..] == tail
  }

  lemma SuffixJoins(s: string, head: seq<string>, t: string, sep: char)
    requires head != [] && Split(s, sep) == head + Split(t, sep)
    ensures s == Join(head, sep) + ([sep] + t)
  {
    JoinSplit(s, sep);
    JoinSplit(t, sep);
    JoinAppend(head, Split(t, sep), sep);
  }

  lemma AppendEndsWith(a: string, b: string)
    ensures EndsWith(a + b, b)
  {}

  lemma CutSuffix(tail: seq<string>, all: seq<string>) returns (head: seq<string>)
    requires IsSuffix(tail, all)
    ensures all == head + tail && (head == [] ==> all == tail)
  {
    head := all[..|all| - |tail|];
  }

  lemma SuffixIsText(s: string, t: string, sep: char)
    requires IsSuffix(Split(t, sep), Split(s, sep))
    ensures s == t || EndsWith(s, [sep] + t)
  {
    var head := CutSuffix(Split(t, sep), Split(s, sep));
    if head == [] {
      SplitInjective(s, t, sep);
    } else {
      SuffixJoins(s, head, t, sep);
      AppendEndsWith(Join(head, sep), [sep] + t);
    }
  }

  lemma ConcatIsSuffix(a: seq<string>, b: seq<string>)
    ensures IsSuffix(b, a + b)
  {
    assert (a + b)[|a|..] == b;
  }

  lemma TextIsSuffix(s: string, t: string, sep: char)
    requires EndsWith(s, [sep] + t)
    ensures IsSuffix(Split(t, sep), Split(s, sep))
  {
    var a := s[..|s| - |t| - 1];
    assert s[|a|..] == [sep] + t;
    assert s == a + s[|a|..];
    assert a + ([sep] + t) == a + [sep] + t;
    SplitAtSeparator(a, sep, t);
    ConcatIsSuffix(Split(a, sep), Split(t, sep));
  }

  // One list of parts ends another exactly when the texts are equal or one
  // follows a separator in the other.
  lemma SuffixOfParts(s: string, t: string, sep: char)
    ensures IsSuffix(Split(t, sep), Split(s, sep)) <==> s == t || EndsWith(s, [sep] + t)
  {
    if IsSuffix(Split(t, sep), Split(s, sep)) {
      SuffixIsText(s, t, sep);
    }
    if s == t {
      ConcatIsSuffix([], Split(t, sep));
      assert [] + Split(t, sep) == Split(t, sep);
    }
    if EndsWith(s, [sep] + t) {
      TextIsSuffix(s, t, sep);
    }
  }

  lemma PrefixJoins(s: string, t: string, tail: seq<string>, sep: char)
    requires tail != [] && Split(s, sep) == Split(t, sep) + tail
    ensures t + [sep] <= s
  {
    JoinSplit(s, sep);
    JoinSplit(t, sep);
    JoinAppend(Split(t, sep), tail, sep);
    assert s == (t + [sep]) + Join(tail, sep);
  }

  lemma CutPrefix(head: seq<string>, all: seq<string>) returns (tail: seq<string>)
    requires head <= all
    ensures all == head + tail && (tail == [] ==> all == head)
  {
    tail := all[|head|..];
  }

  lemma PrefixIsText(s: string, t: string, sep: char)
    requires Split(t, sep) <= Split(s, sep)
    ensures s == t || t + [sep] <= s
  {
    var tail := CutPrefix(Split(t, sep), Split(s, sep));
    if tail == [] {
      SplitInjective(s, t, sep);
    } else {
      PrefixJoins(s, t, tail, sep);
    }
  }

  lemma TextIsPrefix(s: string, t: string, sep: char)
    requires t + [sep] <= s
    ensures Split(t, sep) <= Split(s, sep)
  {
    var b := s[|t| + 1..];
    assert s == t + [sep] + b;
    SplitAtSeparator(t, sep, b);
  }

  lemma PrefixOfParts(s: string, t: string, sep: char)
    ensures Split(t, sep) <= Split(s, sep) <==> s == t || t + [sep] <= s
  {
    if Split(t, sep) <= Split(s, sep) {
      PrefixIsText(s, t, sep);
    }
    if t + [sep] <= s {
      TextIsPrefix(s, t, sep);
    }
  }
}
