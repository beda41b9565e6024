// `String::from_utf8_lossy` as the standard library scans bytes: the longest
// valid prefix of a sequence is kept, a maximal invalid part becomes U+FFFD.
module Utf8 {
  import opened Bytes

  const REPLACEMENT: Octets := [0xEF, 0xBF, 0xBD]

  // The byte at `i`, or zero past the end.
  function Get(s: Octets, i: nat): Byte {
    if i < |s| then s[i] else 0
  }

  predicate Continues(b: Byte) {
    0x80 <= b <= 0xBF
  }

  predicate SecondOfThree(first: Byte, second: Byte) {
    if first == 0xE0 then 0xA0 <= second <= 0xBF
    else if first == 0xED then 0x80 <= second <= 0x9F
    else 0x80 <= second <= 0xBF
  }

  predicate SecondOfFour(first: Byte, second: Byte) {
    if first == 0xF0 then 0x90 <= second <= 0xBF
    else if first == 0xF4 then 0x80 <= second <= 0x8F
    else 0x80 <= second <= 0xBF
  }

  // How many bytes the next part takes, and whether it is one valid character.
  datatype Part = Part(size: nat, valid: bool)

  function NextPart(s: Octets): (p: Part)
    requires s != []
    ensures 1 <= p.size <= |s|
  {
    var first := s[0];
    if first < 0x80 then Part(1, true)
    else if 0xC2 <= first <= 0xDF then
      if Continues(Get(s, 1)) then Part(2, true) else Part(1, false)
    else if 0xE0 <= first <= 0xEF then
      if !SecondOfThree(first, Get(s, 1)) then Part(1, false)
      else if Continues(Get(s, 2)) then Part(3, true) else Part(2, false)
    else if 0xF0 <= first <= 0xF4 then
      if !SecondOfFour(first, Get(s, 1)) then Part(1, false)
      else if !Continues(Get(s, 2)) then Part(2, false)
      else if Continues(Get(s, 3)) then Part(4, true) else Part(3, false)
    else Part(1, false)
  }

  function Lossy(s: Octets): Octets {
    if s == [] then []
    else
      var p := NextPart(s);
      (if p.valid then s[..p.size] else REPLACEMENT) + Lossy(s[p.size..])
  }

  // An ASCII byte ends whatever precedes it, just as the end of input does.
  lemma NextPartStopsAtAscii(a: Octets, c: Byte, b: Octets)
    requires a != [] && c < 0x80
    ensures NextPart(a + ([c] + b)) == NextPart(a)
  {
    var s := a + ([c] + b);
    assert forall i :: 0 <= i < |a| ==> Get(s, i) == Get(a, i);
    assert Get(s, |a|) == c;
  }

  lemma {:induction false} LossySplitsAtAscii(a: Octets, c: Byte, b: Octets)
    requires c < 0x80
    ensures Lossy(a + ([c] + b)) == Lossy(a) + ([c] + Lossy(b))
    decreases |a|
  {
    var s := a + ([c] + b);
    if a == [] {
      assert s == [c] + b && s[1..] == b;
    } else {
      NextPartStopsAtAscii(a, c, b);
      var n := NextPart(a).size;
      assert s[..n] == a[..n] && s[n..] == a[n..] + ([c] + b);
      LossySplitsAtAscii(a[n..], c, b);
    }
  }

  predicate IsAscii(t: Octets) {
    forall i :: 0 <= i < |t| ==> t[i] < 0x80
  }

  lemma {:induction false} LossyOfAsciiPrefix(t: Octets, b: Octets)
    requires IsAscii(t)
    ensures Lossy(t + b) == t + Lossy(b)
    decreases |t|
  {
    if t == [] {
      assert t + b == b;
    } else {
      var s := t + b;
      assert s[..1] == t[..1] && s[1..] == t[1..] + b;
      LossyOfAsciiPrefix(t[1..], b);
      ConcatAssoc(t[..1], t[1..], Lossy(b));
      assert t == t[..1] + t[1..];
    }
  }

  // ASCII text comes through unchanged and in place, whatever surrounds it.
  lemma LossyKeepsAscii(a: Octets, t: Octets, b: Octets)
    requires IsAscii(t) && t != []
    ensures Lossy(a + (t + b)) == Lossy(a) + (t + Lossy(b))
  {
    var c, rest := [t[0]], t[1..];
    assert t == c + rest;
    ConcatAssoc(c, rest, b);
    LossySplitsAtAscii(a, t[0], rest + b);
    LossyOfAsciiPrefix(rest, b);
    ConcatAssoc(c, rest, Lossy(b));
  }

  // ----- Characters (section 3 of RFC 3629) -----

  type Scalar = c: int | 0 <= c < 0xD800 || 0xE000 <= c < 0x11_0000

  function Encode(c: Scalar): (e: Octets)
    ensures 1 <= |e| <= 4
  {
    if c < 0x80 then [c]
    else if c < 0x800 then [0xC0 + c / 0x40, 0x80 + c % 0x40]
    else if c < 0x1_0000 then [0xE0 + c / 0x1000, 0x80 + c / 0x40 % 0x40, 0x80 + c % 0x40]
    else [0xF0 + c / 0x4_0000, 0x80 + c / 0x1000 % 0x40, 0x80 + c / 0x40 % 0x40, 0x80 + c % 0x40]
  }

  // The six bits of a byte that continues a character.
  function Six(b: Byte): int {
    b - 0x80
  }

  lemma LastSix(d: nat, y: nat)
    requires y < 0x40
    ensures (d * 0x40 + y) / 0x40 == d && (d * 0x40 + y) % 0x40 == y
  {}

  lemma DivideTwice(c: nat)
    ensures c / 0x1000 == c / 0x40 / 0x40
  {}

  lemma DivideThrice(c: nat)
    ensures c / 0x4_0000 == c / 0x1000 / 0x40
  {}

  lemma TwoBytes(x: Byte, y: Byte) returns (c: Scalar)
    requires 0xC2 <= x <= 0xDF && Continues(y)
    ensures Encode(c) == [x, y]
  {
    c := (x - 0xC0) * 0x40 + Six(y);
  }

  lemma ThreeBytes(x: Byte, y: Byte, z: Byte) returns (c: Scalar)
    requires 0xE0 <= x <= 0xEF && SecondOfThree(x, y) && Continues(z)
    ensures Encode(c) == [x, y, z]
  {
    var first := (x - 0xE0) * 0x40 + Six(y);
    c := first * 0x40 + Six(z);
    LastSix(x - 0xE0, Six(y));
    LastSix(first, Six(z));
    DivideTwice(c);
  }

  lemma FourBytes(x: Byte, y: Byte, z: Byte, u: Byte) returns (c: Scalar)
    requires 0xF0 <= x <= 0xF4 && SecondOfFour(x, y) && Continues(z) && Continues(u)
    ensures Encode(c) == [x, y, z, u]
  {
    var first := (x - 0xF0) * 0x40 + Six(y);
    var second := first * 0x40 + Six(z);
    c := second * 0x40 + Six(u);
    LastSix(x - 0xF0, Six(y));
    LastSix(first, Six(z));
    LastSix(second, Six(u));
    DivideTwice(c);
    DivideThrice(c);
  }

  // How a character is spelled, byte by byte.
  predicate IsSpelled(e: Octets) {
    match |e|
    case 1 => e[0] < 0x80
    case 2 => 0xC2 <= e[0] <= 0xDF && Continues(e[1])
    case 3 => 0xE0 <= e[0] <= 0xEF && SecondOfThree(e[0], e[1]) && Continues(e[2])
    case 4 => 0xF0 <= e[0] <= 0xF4 && SecondOfFour(e[0], e[1]) && Continues(e[2]) && Continues(e[3])
    case _ => false
  }

  lemma EncodedIsSpelled(c: Scalar)
    ensures IsSpelled(Encode(c))
  {}

  lemma SpelledIsEncoded(e: Octets) returns (c: Scalar)
    requires IsSpelled(e)
    ensures Encode(c) == e
  {
    if |e| == 1 {
      c := e[0];
    } else if |e| == 2 {
      c := TwoBytes(e[0], e[1]);
    } else if |e| == 3 {
      c := ThreeBytes(e[0], e[1], e[2]);
    } else {
      c := FourBytes(e[0], e[1], e[2], e[3]);
    }
  }

  lemma ValidPartIsSpelled(s: Octets)
    requires s != []
    ensures NextPart(s).valid ==> IsSpelled(s[..NextPart(s).size])
  {}

  lemma SpelledIsValidPart(s: Octets, e: Octets)
    requires IsSpelled(e) && e <= s
    ensures NextPart(s) == Part(|e|, true)
  {
    assert forall i :: 0 <= i < |e| ==> s[i] == e[i] && Get(s, i) == e[i];
  }

  ghost predicate Begins(t: Octets) {
    exists c: Scalar :: t <= Encode(c)
  }

  lemma InvalidPartBegins(s: Octets)
    requires s != [] && !NextPart(s).valid && NextPart(s).size > 1
    ensures Begins(s[..NextPart(s).size])
  {
    var c: Scalar;
    if NextPart(s).size == 3 {
      c := FourBytes(s[0], s[1], s[2], 0x80);
    } else if s[0] < 0xF0 {
      c := ThreeBytes(s[0], s[1], 0x80);
    } else {
      c := FourBytes(s[0], s[1], 0x80, 0x80);
    }
    assert s[..NextPart(s).size] <= Encode(c);
  }

  lemma SameBytes(s: Octets, j: nat, e: Octets)
    requires j <= |s| && s[..j] <= e
    ensures forall i: nat :: i < j ==> e[i] == Get(s, i)
  {
    assert forall i: nat :: i < j ==> s[..j][i] == s[i];
  }

  lemma InvalidPartIsLongest(s: Octets, e: Octets, j: nat)
    requires s != [] && !NextPart(s).valid && NextPart(s).size < j <= |s| && IsSpelled(e)
    ensures !(s[..j] <= e)
  {
    if s[..j] <= e {
      SameBytes(s, j, e);
    }
  }

  // The next part of a text is one character, or if it starts with none the
  // longest beginning of one, or a single byte that begins none.
  lemma NextPartIsMaximal(s: Octets)
    requires s != []
    ensures var p := NextPart(s);
            if p.valid then exists c: Scalar :: s[..p.size] == Encode(c)
            else
              && (p.size > 1 ==> Begins(s[..p.size]))
              && forall j :: p.size < j <= |s| ==> !Begins(s[..j])
  {
    var p := NextPart(s);
    if p.valid {
      ValidPartIsSpelled(s);
      var c := SpelledIsEncoded(s[..p.size]);
    } else {
      if p.size > 1 { InvalidPartBegins(s); }
      forall j | p.size < j <= |s| ensures !Begins(s[..j]) {
        forall c: Scalar ensures !(s[..j] <= Encode(c)) {
          EncodedIsSpelled(c);
          InvalidPartIsLongest(s, Encode(c), j);
        }
      }
    }
  }

  function EncodeAll(cs: seq<Scalar>): Octets {
    if cs == [] then [] else Encode(cs[0]) + EncodeAll(cs[1..])
  }

  // Text in UTF-8 comes through unchanged,
  lemma {:induction false} LossyKeepsText(cs: seq<Scalar>)
    ensures Lossy(EncodeAll(cs)) == EncodeAll(cs)
  {
    if cs != [] {
      var e, rest := Encode(cs[0]), EncodeAll(cs[1..]);
      EncodedIsSpelled(cs[0]);
      SpelledIsValidPart(e + rest, e);
      assert (e + rest)[..|e|] == e && (e + rest)[|e|..] == rest;
      LossyKeepsText(cs[1..]);
    }
  }

  // and whatever comes out is such text.
  lemma {:induction false} LossyIsText(s: Octets) returns (cs: seq<Scalar>)
    ensures Lossy(s) == EncodeAll(cs)
  {
    if s == [] {
      cs := [];
    } else {
      var p := NextPart(s);
      var rest := LossyIsText(s[p.size..]);
      var c: Scalar := 0xFFFD;
      if p.valid {
        ValidPartIsSpelled(s);
        c := SpelledIsEncoded(s[..p.size]);
      }
      cs := [c] + rest;
      assert cs[1..] == rest;
    }
  }
}
