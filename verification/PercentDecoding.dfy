// Bounded multi-round percent-decoding and the dangerous-sequence test
// (src/url_validation.rs:65-117, 438-459).
module PercentDecoding {
  import opened Bytes
  import opened Utf8

  const PERCENT: Byte := 0x25
  const DOT: Byte := 0x2E
  const SLASH: Byte := 0x2F
  const BACKSLASH: Byte := 0x5C
  const NUL: Byte := 0x00

  predicate IsHexDigit(b: Byte) {
    0x30 <= b <= 0x39 || 0x41 <= b <= 0x46 || 0x61 <= b <= 0x66
  }

  function HexValue(b: Byte): (v: Byte)
    requires IsHexDigit(b)
    ensures v < 16
  {
    if b <= 0x39 then b - 0x30 else if b <= 0x46 then b - 0x41 + 10 else b - 0x61 + 10
  }

  predicate StartsWithEscape(s: Octets) {
    |s| > 2 && s[0] == PERCENT && IsHexDigit(s[1]) && IsHexDigit(s[2])
  }

  // One left-to-right pass.
  function DecodeOnce(s: Octets): (d: Octets)
    ensures |d| <= |s|
  {
    if s == [] then []
    else if StartsWithEscape(s) then [16 * HexValue(s[1]) + HexValue(s[2])] + DecodeOnce(s[3..])
    else [s[0]] + DecodeOnce(s[1..])
  }

  // A pass that replaces nothing ends the decoding early.
  function Rounds(s: Octets, n: nat): Octets
    decreases n, |s|
  {
    if n == 0 || |DecodeOnce(s)| == |s| then s else Rounds(Lossy(DecodeOnce(s)), n - 1)
  }

  const MAX_ROUNDS: nat := 5

  method DecodePercentEncoded(value: Octets) returns (current: Octets)
    ensures current == Rounds(value, MAX_ROUNDS)
  {
    current := value;
    for round := 0 to MAX_ROUNDS
      invariant Rounds(value, MAX_ROUNDS) == Rounds(current, MAX_ROUNDS - round)
    {
      var decoded, changed := DecodePass(current);
      if !changed {
        break;
      }
      current := Lossy(decoded);
    }
  }

  // The inner loop.
  method DecodePass(bytes: Octets) returns (decoded: Octets, changed: bool)
    ensures decoded == DecodeOnce(bytes)
    ensures changed <==> |decoded| != |bytes|
  {
    decoded, changed := [], false;
    var index := 0;
    DecodeStarts(bytes);
    while index < |bytes|
      invariant IsDecoded(bytes, decoded, index)
      invariant |decoded| <= index && (changed <==> |decoded| < index)
    {
      if bytes[index] == PERCENT && index + 2 < |bytes|
         && IsHexDigit(bytes[index + 1]) && IsHexDigit(bytes[index + 2])
      {
        var byte := 16 * HexValue(bytes[index + 1]) + HexValue(bytes[index + 2]);
        DecodeStep(bytes, decoded, index, 3, byte);
        decoded := decoded + [byte];
        changed := true;
        index := index + 3;
      } else {
        DecodeStep(bytes, decoded, index, 1, bytes[index]);
        decoded := decoded + [bytes[index]];
        index := index + 1;
      }
    }
    DecodeEnds(bytes, decoded);
  }

  // The bytes before `index` have been decoded.
  predicate IsDecoded(bytes: Octets, decoded: Octets, index: nat) {
    index <= |bytes| && decoded + DecodeOnce(bytes[index..]) == DecodeOnce(bytes)
  }

  lemma DecodeStarts(bytes: Octets)
    ensures IsDecoded(bytes, [], 0)
  {
    assert bytes[0..] == bytes;
  }

  lemma DecodeEnds(bytes: Octets, decoded: Octets)
    requires IsDecoded(bytes, decoded, |bytes|)
    ensures decoded == DecodeOnce(bytes)
  {
    assert bytes[|bytes|..] == [];
  }

  lemma DecodeStep(bytes: Octets, decoded: Octets, index: nat, n: nat, byte: Byte)
    requires index + n <= |bytes| && IsDecoded(bytes, decoded, index)
    requires n == if StartsWithEscape(bytes[index..]) then 3 else 1
    requires byte == if n == 3 then 16 * HexValue(bytes[index + 1]) + HexValue(bytes[index + 2]) else bytes[index]
    ensures IsDecoded(bytes, decoded + [byte], index + n)
  {
    DecodeHead(bytes, index, n, byte);
    ConcatAssoc(decoded, [byte], DecodeOnce(bytes[index + n..]));
  }

  lemma DecodeHead(bytes: Octets, index: nat, n: nat, byte: Byte)
    requires index + n <= |bytes|
    requires n == if StartsWithEscape(bytes[index..]) then 3 else 1
    requires byte == if n == 3 then 16 * HexValue(bytes[index + 1]) + HexValue(bytes[index + 2]) else bytes[index]
    ensures DecodeOnce(bytes[index..]) == [byte] + DecodeOnce(bytes[index + n..])
  {
    assert bytes[index..][n..] == bytes[index + n..];
  }

  function LowerByte(b: Byte): Byte {
    if 0x41 <= b <= 0x5A then b + 0x20 else b
  }

  function LowerBytes(s: Octets): (r: Octets)
    ensures |r| == |s| && forall i :: 0 <= i < |s| ==> r[i] == LowerByte(s[i])
  {
    seq(|s|, i requires 0 <= i < |s| => LowerByte(s[i]))
  }

  // `..`, `\`, `%2f`, `%5c`, `%2e`, `%00`, NUL and `//`.
  const DANGEROUS: seq<Octets> := [
    [0x2E, 0x2E], [0x5C], [0x25, 0x32, 0x66], [0x25, 0x35, 0x63], [0x25, 0x32, 0x65], [0x25, 0x30, 0x30], [0x00],
    [0x2F, 0x2F]]

  predicate Dangerous(candidate: Octets) {
    exists k :: 0 <= k < |DANGEROUS| && Contains(LowerBytes(candidate), DANGEROUS[k])
  }

  predicate PathHasDangerousSequence(path: Octets) {
    Dangerous(path) || Dangerous(Rounds(path, MAX_ROUNDS))
  }

  // ----- Escapes in print -----

  // The digits of `0123456789abcdef`, in either case.
  function HexDigit(v: nat, upper: bool): Byte
    requires v < 16
  {
    if v < 10 then 0x30 + v else if upper then 0x37 + v else 0x57 + v
  }

  function Printed(c: Byte, hi: bool, lo: bool): Octets {
    [HexDigit(c / 16, hi), HexDigit(c % 16, lo)]
  }

  // Neighbouring text cannot swallow an escape, nor half of one: a pass splits
  // before every byte that is not a hex digit.
  lemma {:induction false} DecodeSplits(a: Octets, t: Octets)
    requires t != [] && !IsHexDigit(t[0])
    ensures DecodeOnce(a + t) == DecodeOnce(a) + DecodeOnce(t)
    decreases |a|
  {
    var s := a + t;
    if a == [] {
      assert s == t;
    } else {
      assert StartsWithEscape(s) <==> StartsWithEscape(a);
      var n := if StartsWithEscape(a) then 3 else 1;
      assert s[n..] == a[n..] + t;
      DecodeSplits(a[n..], t);
    }
  }

  lemma DecodeTwoLiterals(x: Octets, b: Octets)
    requires |x| == 2 && x[0] != PERCENT && x[1] != PERCENT
    ensures DecodeOnce(x + b) == x + DecodeOnce(b)
  {
    var s := x + b;
    assert s[1..][1..] == b;
    assert DecodeOnce(s) == [x[0]] + ([x[1]] + DecodeOnce(b));
  }

  lemma DecodeEscape(x: Octets, b: Octets)
    requires |x| == 3 && StartsWithEscape(x)
    ensures DecodeOnce(x + b) == [16 * HexValue(x[1]) + HexValue(x[2])] + DecodeOnce(b)
  {
    assert (x + b)[3..] == b;
  }

  lemma DigitIsRead(v: nat, upper: bool)
    requires v < 16
    ensures IsHexDigit(HexDigit(v, upper)) && HexValue(HexDigit(v, upper)) == v
  {}

  lemma PrintedIsDecoded(c: Byte, hi: bool, lo: bool, b: Octets)
    ensures DecodeOnce([PERCENT] + Printed(c, hi, lo) + b) == [c] + DecodeOnce(b)
  {
    DigitIsRead(c / 16, hi);
    DigitIsRead(c % 16, lo);
    DecodeEscape([PERCENT] + Printed(c, hi, lo), b);
  }

  // A pass turns every byte in print back into itself, inside any text.
  lemma PrintedIsRead(a: Octets, c: Byte, hi: bool, lo: bool, b: Octets)
    ensures DecodeOnce(a + ([PERCENT] + Printed(c, hi, lo) + b)) == DecodeOnce(a) + ([c] + DecodeOnce(b))
  {
    DecodeSplits(a, [PERCENT] + Printed(c, hi, lo) + b);
    PrintedIsDecoded(c, hi, lo, b);
  }

  // ----- Bytes under layers of encoding -----

  // A byte in print under `layers` layers: each one further out turns the
  // percent sign into `%25`.
  datatype Wrapped = Wrapped(byte: Byte, layers: nat, hi: bool, lo: bool)

  // Bytes that neither are nor make up an escape.
  predicate IsPlain(c: Byte) {
    c < 0x80 && !IsHexDigit(c) && c != PERCENT
  }

  ghost predicate ArePlain(ws: seq<Wrapped>) {
    forall k :: 0 <= k < |ws| ==> IsPlain(ws[k].byte)
  }

  // What follows the first percent sign.
  function EscapeTail(w: Wrapped): Octets
    requires w.layers > 0
    decreases w.layers
  {
    if w.layers == 1 then Printed(w.byte, w.hi, w.lo) else [0x32, 0x35] + EscapeTail(w.(layers := w.layers - 1))
  }

  function Spelled(w: Wrapped): Octets {
    if w.layers == 0 then [w.byte] else [PERCENT] + EscapeTail(w)
  }

  function TextOf(ws: seq<Wrapped>): Octets {
    if ws == [] then [] else Spelled(ws[0]) + TextOf(ws[1..])
  }

  function Peeled(w: Wrapped, n: nat): Wrapped {
    w.(layers := if n <= w.layers then w.layers - n else 0)
  }

  function PeelAll(ws: seq<Wrapped>, n: nat): (r: seq<Wrapped>)
    ensures |r| == |ws| && forall k :: 0 <= k < |ws| ==> r[k] == Peeled(ws[k], n)
  {
    seq(|ws|, k requires 0 <= k < |ws| => Peeled(ws[k], n))
  }

  lemma TailDigits(w: Wrapped)
    requires w.layers == 1
    ensures |EscapeTail(w)| == 2 && EscapeTail(w)[0] != PERCENT && EscapeTail(w)[1] != PERCENT
  {
    DigitIsRead(w.byte / 16, w.hi);
    DigitIsRead(w.byte % 16, w.lo);
  }

  lemma {:induction false} DecodeTail(w: Wrapped, b: Octets)
    requires w.layers > 0
    ensures DecodeOnce(EscapeTail(w) + b) == EscapeTail(w) + DecodeOnce(b)
    decreases w.layers
  {
    if w.layers == 1 {
      TailDigits(w);
      DecodeTwoLiterals(EscapeTail(w), b);
    } else {
      var inner := w.(layers := w.layers - 1);
      ConcatAssoc([0x32, 0x35], EscapeTail(inner), b);
      DecodeTwoLiterals([0x32, 0x35], EscapeTail(inner) + b);
      DecodeTail(inner, b);
      ConcatAssoc([0x32, 0x35], EscapeTail(inner), DecodeOnce(b));
    }
  }

  // One pass peels one layer, whatever follows.
  lemma DecodeWrapped(w: Wrapped, b: Octets)
    requires IsPlain(w.byte)
    ensures DecodeOnce(Spelled(w) + b) == Spelled(Peeled(w, 1)) + DecodeOnce(b)
  {
    if w.layers == 0 {
      assert (Spelled(w) + b)[1..] == b;
    } else if w.layers == 1 {
      PrintedIsDecoded(w.byte, w.hi, w.lo, b);
    } else {
      DecodeOuter(w, b);
    }
  }

  lemma DecodeOuter(w: Wrapped, b: Octets)
    requires w.layers > 1
    ensures DecodeOnce(Spelled(w) + b) == Spelled(Peeled(w, 1)) + DecodeOnce(b)
  {
    var inner := w.(layers := w.layers - 1);
    var tail := EscapeTail(inner);
    assert Spelled(w) == [PERCENT, 0x32, 0x35] + tail;
    ConcatAssoc([PERCENT, 0x32, 0x35], tail, b);
    DecodeEscape([PERCENT, 0x32, 0x35], tail + b);
    DecodeTail(inner, b);
    ConcatAssoc([PERCENT], tail, DecodeOnce(b));
  }

  lemma PeelCons(ws: seq<Wrapped>, n: nat)
    requires ws != []
    ensures PeelAll(ws, n) != [] && PeelAll(ws, n)[0] == Peeled(ws[0], n) && PeelAll(ws, n)[1..] == PeelAll(ws[1..], n)
  {}

  lemma {:induction false} DecodeText(ws: seq<Wrapped>, b: Octets)
    requires ArePlain(ws)
    ensures DecodeOnce(TextOf(ws) + b) == TextOf(PeelAll(ws, 1)) + DecodeOnce(b)
  {
    if ws == [] {
      assert [] + b == b;
      assert [] + DecodeOnce(b) == DecodeOnce(b);
    } else {
      var rest := ws[1..];
      ConcatAssoc(Spelled(ws[0]), TextOf(rest), b);
      DecodeWrapped(ws[0], TextOf(rest) + b);
      DecodeText(rest, b);
      PeelCons(ws, 1);
      ConcatAssoc(Spelled(Peeled(ws[0], 1)), TextOf(PeelAll(rest, 1)), DecodeOnce(b));
    }
  }

  lemma TextStarts(ws: seq<Wrapped>)
    requires ws != [] && ArePlain(ws)
    ensures TextOf(ws) != [] && !IsHexDigit(TextOf(ws)[0])
  {}

  lemma PassPeels(a: Octets, ws: seq<Wrapped>, b: Octets)
    requires ws != [] && ArePlain(ws)
    ensures DecodeOnce(a + (TextOf(ws) + b)) == DecodeOnce(a) + (TextOf(PeelAll(ws, 1)) + DecodeOnce(b))
  {
    TextStarts(ws);
    DecodeSplits(a, TextOf(ws) + b);
    DecodeText(ws, b);
  }

  lemma {:induction false} TailIsAscii(w: Wrapped)
    requires w.layers > 0
    ensures IsAscii(EscapeTail(w))
    decreases w.layers
  {
    if w.layers > 1 { TailIsAscii(w.(layers := w.layers - 1)); }
  }

  lemma SpelledIsAscii(w: Wrapped)
    requires IsPlain(w.byte)
    ensures IsAscii(Spelled(w))
  {
    if w.layers > 0 { TailIsAscii(w); }
  }

  lemma {:induction false} TextIsAscii(ws: seq<Wrapped>)
    requires ArePlain(ws)
    ensures IsAscii(TextOf(ws))
  {
    if ws != [] {
      SpelledIsAscii(ws[0]);
      TextIsAscii(ws[1..]);
    }
  }

  lemma {:induction false} TailLength(w: Wrapped)
    requires w.layers > 0
    ensures |EscapeTail(w)| == 2 * w.layers
    decreases w.layers
  {
    if w.layers > 1 { TailLength(w.(layers := w.layers - 1)); }
  }

  lemma SpelledLength(w: Wrapped)
    ensures |Spelled(w)| == 1 + 2 * w.layers
  {
    if w.layers > 0 { TailLength(w); }
  }

  // Peeling shortens the text unless every byte is bare.
  lemma {:induction false} PeelingShortens(ws: seq<Wrapped>)
    ensures |TextOf(PeelAll(ws, 1))| <= |TextOf(ws)|
    ensures |TextOf(PeelAll(ws, 1))| == |TextOf(ws)| ==> forall k :: 0 <= k < |ws| ==> ws[k].layers == 0
  {
    if ws != [] {
      SpelledLength(ws[0]);
      SpelledLength(Peeled(ws[0], 1));
      PeelCons(ws, 1);
      PeelingShortens(ws[1..]);
      assert ws == [ws[0]] + ws[1..];
    }
  }

  lemma UnchangedIsBare(a: Octets, ws: seq<Wrapped>, b: Octets)
    requires ws != [] && ArePlain(ws) && |DecodeOnce(a + (TextOf(ws) + b))| == |a + (TextOf(ws) + b)|
    ensures PeelAll(ws, 1) == ws
  {
    PassPeels(a, ws, b);
    PeelingShortens(ws);
  }

  lemma LossyPasses(a: Octets, ws: seq<Wrapped>, b: Octets)
    requires ws != [] && ArePlain(ws)
    ensures Lossy(DecodeOnce(a + (TextOf(ws) + b))) ==
            Lossy(DecodeOnce(a)) + (TextOf(PeelAll(ws, 1)) + Lossy(DecodeOnce(b)))
  {
    var peeled := PeelAll(ws, 1);
    PassPeels(a, ws, b);
    TextStarts(peeled);
    TextIsAscii(peeled);
    LossyKeepsAscii(DecodeOnce(a), TextOf(peeled), DecodeOnce(b));
  }

  // One round peels one layer; bare bytes are left when nothing changes.
  lemma RoundPeels(a: Octets, ws: seq<Wrapped>, b: Octets, n: nat) returns (a': Octets, b': Octets)
    requires n > 0 && ws != [] && ArePlain(ws)
    ensures Rounds(a + (TextOf(ws) + b), n) == Rounds(a' + (TextOf(PeelAll(ws, 1)) + b'), n - 1)
    ensures (a == [] ==> a' == []) && (b == [] ==> b' == [])
  {
    var s := a + (TextOf(ws) + b);
    if |DecodeOnce(s)| == |s| {
      UnchangedIsBare(a, ws, b);
      a', b' := a, b;
    } else {
      LossyPasses(a, ws, b);
      a', b' := Lossy(DecodeOnce(a)), Lossy(DecodeOnce(b));
    }
  }

  lemma PeeledArePlain(ws: seq<Wrapped>)
    requires ws != [] && ArePlain(ws)
    ensures PeelAll(ws, 1) != [] && ArePlain(PeelAll(ws, 1))
  {}

  lemma PeelNone(ws: seq<Wrapped>)
    ensures PeelAll(ws, 0) == ws
  {}

  lemma PeelTwice(ws: seq<Wrapped>, n: nat)
    requires n > 0
    ensures PeelAll(PeelAll(ws, 1), n - 1) == PeelAll(ws, n)
  {}

  // `n` rounds peel `n` layers off all of them and keep them together.
  lemma {:induction false} RoundsPeel(a: Octets, ws: seq<Wrapped>, b: Octets, n: nat)
    returns (a': Octets, b': Octets)
    requires ws != [] && ArePlain(ws)
    ensures Rounds(a + (TextOf(ws) + b), n) == a' + (TextOf(PeelAll(ws, n)) + b')
    ensures (a == [] ==> a' == []) && (b == [] ==> b' == [])
    decreases n
  {
    if n == 0 {
      PeelNone(ws);
      return a, b;
    }
    var inner := PeelAll(ws, 1);
    PeeledArePlain(ws);
    PeelTwice(ws, n);
    a', b' := RoundPeels(a, ws, b, n);
    a', b' := RoundsPeel(a', inner, b', n - 1);
  }

  // ----- What is flagged -----

  lemma DangerousInside(a: Octets, t: Octets, b: Octets, k: nat, at: nat)
    requires k < |DANGEROUS| && at + |DANGEROUS[k]| <= |t|
    requires forall m :: 0 <= m < |DANGEROUS[k]| ==> LowerByte(t[at + m]) == DANGEROUS[k][m]
    ensures Dangerous(a + (t + b))
  {
    var s := a + (t + b);
    var lower, sub, i := LowerBytes(s), DANGEROUS[k], |a| + at;
    assert forall m :: 0 <= m < |t| ==> s[|a| + m] == t[m];
    assert lower[i..i + |sub|] == sub;
    assert OccursAt(lower, sub, i);
  }

  // The bytes looked for in print, and those that are not to occur at all.
  predicate IsWatched(c: Byte) {
    c == DOT || c == SLASH || c == BACKSLASH || c == NUL
  }

  predicate IsForbidden(c: Byte) {
    c == BACKSLASH || c == NUL
  }

  lemma EscapeIsDangerous(a: Octets, w: Wrapped, b: Octets)
    requires IsWatched(w.byte) && w.layers == 1
    ensures Dangerous(a + (Spelled(w) + b))
  {
    var k := if w.byte == SLASH then 2 else if w.byte == BACKSLASH then 3 else if w.byte == DOT then 4 else 5;
    DangerousInside(a, Spelled(w), b, k, 0);
  }

  lemma BareIsDangerous(a: Octets, c: Byte, b: Octets)
    requires IsForbidden(c)
    ensures Dangerous(a + ([c] + b))
  {
    DangerousInside(a, [c], b, if c == BACKSLASH then 1 else 6, 0);
  }

  // One byte under so many layers is flagged: a backslash or NUL up to six,
  // a dot or slash just one or six.
  predicate IsReached(w: Wrapped) {
    w.layers == 1 || w.layers == 6 || (IsForbidden(w.byte) && w.layers <= 6)
  }

  lemma OneByteText(w: Wrapped)
    ensures TextOf([w]) == Spelled(w)
  {
    assert TextOf([w][1..]) == [];
  }

  lemma ByteIsFlagged(a: Octets, w: Wrapped, b: Octets)
    requires IsWatched(w.byte) && IsReached(w)
    ensures PathHasDangerousSequence(a + (Spelled(w) + b))
  {
    OneByteText(w);
    var left := Peeled(w, MAX_ROUNDS);
    var a', b' := RoundsPeel(a, [w], b, MAX_ROUNDS);
    assert PeelAll([w], MAX_ROUNDS) == [left];
    OneByteText(left);
    if w.layers == 1 {
      EscapeIsDangerous(a, w, b);
    } else if w.layers == 6 {
      EscapeIsDangerous(a', left, b');
    } else {
      BareIsDangerous(a', w.byte, b');
    }
  }

  // ----- Two of a kind -----

  // Dots and slashes are harmless one at a time.
  predicate IsPaired(c: Byte) {
    c == DOT || c == SLASH
  }

  lemma BarePairIsDangerous(a: Octets, c: Byte, b: Octets)
    requires IsPaired(c)
    ensures Dangerous(a + ([c, c] + b))
  {
    DangerousInside(a, [c, c], b, if c == DOT then 0 else 7, 0);
  }

  // One pass of the test finds two of them when both are bare or one is
  // encoded just once.
  predicate InPlainSight(i: nat, j: nat) {
    (i == 0 && j == 0) || i == 1 || j == 1
  }

  lemma PairText(x: Wrapped, y: Wrapped)
    ensures TextOf([x, y]) == Spelled(x) + Spelled(y)
  {
    assert [x, y][1..] == [y];
    OneByteText(y);
  }

  lemma PairIsDangerous(a: Octets, x: Wrapped, y: Wrapped, b: Octets)
    requires IsPaired(x.byte) && y.byte == x.byte && InPlainSight(x.layers, y.layers)
    ensures Dangerous(a + (TextOf([x, y]) + b))
  {
    PairText(x, y);
    ConcatAssoc(Spelled(x), Spelled(y), b);
    ConcatAssoc(a, Spelled(x), Spelled(y) + b);
    if x.layers == 1 {
      EscapeIsDangerous(a, x, Spelled(y) + b);
    } else if y.layers == 1 {
      EscapeIsDangerous(a + Spelled(x), y, b);
    } else {
      assert Spelled(x) + Spelled(y) == [x.byte, x.byte];
      BarePairIsDangerous(a, x.byte, b);
    }
  }

  // The layers that five rounds reach: up to six on both, or exactly one or
  // six on either.
  predicate Reached(i: nat, j: nat) {
    (i <= 6 && j <= 6) || i == 1 || i == 6 || j == 1 || j == 6
  }

  lemma PeelPair(x: Wrapped, y: Wrapped)
    ensures PeelAll([x, y], MAX_ROUNDS) == [Peeled(x, MAX_ROUNDS), Peeled(y, MAX_ROUNDS)]
  {}

  // Two adjacent dots, or slashes, under layers within reach are flagged inside
  // any surrounding path text.
  lemma PairsAreFlagged(a: Octets, x: Wrapped, y: Wrapped, b: Octets)
    requires IsPaired(x.byte) && y.byte == x.byte && Reached(x.layers, y.layers)
    ensures PathHasDangerousSequence(a + (TextOf([x, y]) + b))
  {
    if InPlainSight(x.layers, y.layers) {
      PairIsDangerous(a, x, y, b);
    } else {
      var a', b' := RoundsPeel(a, [x, y], b, MAX_ROUNDS);
      PeelPair(x, y);
      PairIsDangerous(a', Peeled(x, MAX_ROUNDS), Peeled(y, MAX_ROUNDS), b');
    }
  }

  // ----- What is not flagged -----

  // No forbidden byte, no two dots or slashes side by side, and each percent
  // sign followed by `25`.
  predicate IsCleanAt(s: Octets, p: nat)
    requires p < |s|
  {
    && !IsForbidden(s[p])
    && (IsPaired(s[p]) && p + 1 < |s| ==> s[p + 1] != s[p])
    && (s[p] == PERCENT ==> p + 2 < |s| && s[p + 1] == 0x32 && s[p + 2] == 0x35)
  }

  predicate IsClean(s: Octets) {
    forall p :: 0 <= p < |s| ==> IsCleanAt(s, p)
  }

  lemma DangerousShape(k: nat)
    requires k < |DANGEROUS|
    ensures var sub := DANGEROUS[k];
            || (|sub| == 3 && sub[0] == PERCENT && sub[2] != 0x35)
            || (|sub| == 2 && IsPaired(sub[0]) && sub[1] == sub[0])
            || (|sub| == 1 && IsForbidden(sub[0]))
  {}

  lemma OccursByte(s: Octets, sub: Octets, i: nat, m: nat)
    requires OccursAt(LowerBytes(s), sub, i) && m < |sub|
    ensures i + m < |s| && LowerByte(s[i + m]) == sub[m]
  {
    assert LowerBytes(s)[i..i + |sub|][m] == LowerBytes(s)[i + m];
  }

  lemma LowerBytesOf(s: Octets, i: nat)
    requires IsClean(s) && i < |s|
    ensures var b := LowerByte(s[i]);
            && !IsForbidden(b)
            && (IsPaired(b) && i + 1 < |s| ==> LowerByte(s[i + 1]) != b)
            && (b == PERCENT ==> i + 2 < |s| && LowerByte(s[i + 2]) == 0x35)
  {
    assert IsCleanAt(s, i);
  }

  lemma CleanIsHarmless(s: Octets)
    requires IsClean(s)
    ensures !Dangerous(s)
  {
    if Dangerous(s) {
      var lower := LowerBytes(s);
      var k :| 0 <= k < |DANGEROUS| && Contains(lower, DANGEROUS[k]);
      var sub := DANGEROUS[k];
      var i :| 0 <= i <= |lower| && OccursAt(lower, sub, i);
      DangerousShape(k);
      OccursByte(s, sub, i, 0);
      if |sub| > 1 { OccursByte(s, sub, i, 1); }
      if |sub| > 2 { OccursByte(s, sub, i, 2); }
      LowerBytesOf(s, i);
    }
  }

  lemma {:induction false} TailIsClean(w: Wrapped)
    requires w.layers > 0 && IsWatched(w.byte)
    ensures forall x :: x in EscapeTail(w) ==> IsHexDigit(x)
    ensures w.layers > 1 ==> EscapeTail(w)[0] == 0x32 && EscapeTail(w)[1] == 0x35
    decreases w.layers
  {
    DigitIsRead(w.byte / 16, w.hi);
    DigitIsRead(w.byte % 16, w.lo);
    if w.layers > 1 { TailIsClean(w.(layers := w.layers - 1)); }
  }

  lemma SpelledIsClean(w: Wrapped)
    requires IsWatched(w.byte) && w.layers != 1 && (w.layers == 0 ==> IsPaired(w.byte))
    ensures IsClean(Spelled(w)) && (w.layers > 0 ==> forall x :: x in Spelled(w) ==> !IsPaired(x))
  {
    if w.layers > 0 {
      var tail, s := EscapeTail(w), Spelled(w);
      TailIsClean(w);
      TailLength(w);
      assert forall p :: 1 <= p < |s| ==> s[p] == tail[p - 1] && tail[p - 1] in tail;
    }
  }

  lemma CleanConcat(x: Octets, y: Octets)
    requires IsClean(x) && IsClean(y)
    requires x != [] && y != [] && (!IsPaired(x[|x| - 1]) || y[0] != x[|x| - 1])
    ensures IsClean(x + y)
  {
    var s := x + y;
    forall p | 0 <= p < |s| ensures IsCleanAt(s, p) {
      if p < |x| {
        assert IsCleanAt(x, p);
      } else {
        assert IsCleanAt(y, p - |x|);
      }
    }
  }

  lemma PairIsClean(x: Wrapped, y: Wrapped)
    requires IsPaired(x.byte) && y.byte == x.byte && !InPlainSight(x.layers, y.layers)
    ensures IsClean(TextOf([x, y]))
  {
    PairText(x, y);
    SpelledIsClean(x);
    SpelledIsClean(y);
    var s, t := Spelled(x), Spelled(y);
    assert s[|s| - 1] in s && t[0] in t;
    CleanConcat(s, t);
  }

  lemma Alone(t: Octets)
    ensures [] + (t + []) == t
  {}

  // That is exactly the reach of five rounds: one byte alone, and two of a
  // kind alone, are flagged if and only if their layers are within it.
  lemma ByteIsFlaggedWithinReach(w: Wrapped)
    requires IsWatched(w.byte)
    ensures PathHasDangerousSequence(Spelled(w)) <==> IsReached(w)
  {
    Alone(Spelled(w));
    if IsReached(w) {
      ByteIsFlagged([], w, []);
    } else {
      var left := Peeled(w, MAX_ROUNDS);
      OneByteText(w);
      OneByteText(left);
      assert PeelAll([w], MAX_ROUNDS) == [left];
      var a', b' := RoundsPeel([], [w], [], MAX_ROUNDS);
      Alone(Spelled(left));
      SpelledIsClean(w);
      CleanIsHarmless(Spelled(w));
      SpelledIsClean(left);
      CleanIsHarmless(Spelled(left));
    }
  }

  lemma SixLayersIsTheReach(x: Wrapped, y: Wrapped)
    requires IsPaired(x.byte) && y.byte == x.byte
    ensures PathHasDangerousSequence(TextOf([x, y])) <==> Reached(x.layers, y.layers)
  {
    var path := TextOf([x, y]);
    Alone(path);
    if Reached(x.layers, y.layers) {
      PairsAreFlagged([], x, y, []);
    } else {
      var p, q := Peeled(x, MAX_ROUNDS), Peeled(y, MAX_ROUNDS);
      var a', b' := RoundsPeel([], [x, y], [], MAX_ROUNDS);
      PeelPair(x, y);
      Alone(TextOf([p, q]));
      PairIsClean(x, y);
      CleanIsHarmless(path);
      PairIsClean(p, q);
      CleanIsHarmless(TextOf([p, q]));
    }
  }

  // ----- Paths without escapes -----

  lemma {:induction false} NothingToDecode(s: Octets)
    requires PERCENT !in s
    ensures DecodeOnce(s) == s
  {
    if s != [] {
      NothingToDecode(s[1..]);
      assert s == [s[0]] + s[1..];
    }
  }

  // Such a path is flagged if and only if it holds a backslash or NUL, or two
  // dots or two slashes side by side.
  lemma PlainPathsAreFlagged(path: Octets)
    requires PERCENT !in path
    ensures PathHasDangerousSequence(path) <==>
              (exists p :: 0 <= p < |path| && (path[p] == BACKSLASH || path[p] == NUL))
              || exists p :: 0 <= p < |path| - 1 && path[p + 1] == path[p] && (path[p] == DOT || path[p] == SLASH)
  {
    NothingToDecode(path);
    assert Rounds(path, MAX_ROUNDS) == path;
    if IsClean(path) {
      CleanIsHarmless(path);
      forall p | 0 <= p < |path|
        ensures !IsForbidden(path[p]) && (p + 1 < |path| && IsPaired(path[p]) ==> path[p + 1] != path[p])
      {
        assert IsCleanAt(path, p);
      }
    } else {
      var p :| 0 <= p < |path| && !IsCleanAt(path, p);
      UncleanIsDangerous(path, p);
    }
  }

  lemma UncleanIsDangerous(path: Octets, p: nat)
    requires p < |path| && path[p] != PERCENT && !IsCleanAt(path, p)
    ensures Dangerous(path)
  {
    var c, n := path[p], if IsForbidden(path[p]) then 1 else 2;
    var a, b := path[..p], path[p + n..];
    assert path == a + (path[p..p + n] + b);
    if IsForbidden(c) {
      assert path[p..p + n] == [c];
      BareIsDangerous(a, c, b);
    } else {
      assert path[p..p + n] == [c, c];
      BarePairIsDangerous(a, c, b);
    }
  }
}
