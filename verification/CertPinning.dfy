// The hand-written DER walk of src/cert_pinning.rs: reading one
// tag-length-value element, and walking a certificate to its
// SubjectPublicKeyInfo (section 4.1 of RFC 5280).
module CertPinning {
  import opened Wrappers
  import opened Bytes

  // One element of a buffer: its tag, where its contents start, where it ends.
  datatype Tlv = Tlv(tag: Byte, content: nat, end: nat)

  function BigEndian(digits: Octets): nat {
    if digits == [] then 0
    else BigEndian(digits[..|digits| - 1]) * 256 + digits[|digits| - 1]
  }

  // The definite forms of section 8.1.3 of ITU-T X.690, with at most four
  // subsequent octets: `octets` denotes the length `n`.
  ghost predicate DenotesLength(octets: Octets, n: nat) {
    if |octets| == 1 then
      n == octets[0] < 0x80
    else
      && 2 <= |octets| <= 5
      && octets[0] == 0x80 + |octets| - 1
      && n == BigEndian(octets[1..])
  }

  ghost predicate ElementAt(buf: Octets, pos: nat, t: Tlv) {
    && pos + 2 <= t.content <= t.end <= |buf|
    && buf[pos] == t.tag
    && DenotesLength(buf[pos + 1..t.content], t.end - t.content)
  }

  // Reading the element that starts at `pos`.
  function TlvAt(buf: Octets, pos: nat): Option<Tlv> {
    if pos + 2 > |buf| then None
    else
      var first := buf[pos + 1];
      var octets := if first < 0x80 then 0 else first - 0x80;
      if first == 0x80 || octets > 4 || pos + 2 + octets > |buf| then None
      else
        var content := pos + 2 + octets;
        var end := content + if first < 0x80 then first else BigEndian(buf[pos + 2..content]);
        if end > |buf| then None else Some(Tlv(buf[pos], content, end))
  }

  // It reads exactly the definite-length elements with at most four length
  // octets.
  lemma TlvIs(buf: Octets, pos: nat, t: Tlv)
    ensures ElementAt(buf, pos, t) <==> TlvAt(buf, pos) == Some(t)
  {
    if ElementAt(buf, pos, t) {
      var octets := buf[pos + 1..t.content];
      assert octets[0] == buf[pos + 1];
      assert octets[1..] == buf[pos + 2..t.content];
    }
    if TlvAt(buf, pos) == Some(t) {
      var octets := buf[pos + 1..t.content];
      assert octets[0] == buf[pos + 1];
      assert octets[1..] == buf[pos + 2..t.content];
    }
  }

  method ReadTlv(buf: Octets, pos: nat) returns (r: Option<Tlv>)
    ensures r == TlvAt(buf, pos)
  {
    if pos + 2 > |buf| {
      return None;
    }
    var tag := buf[pos];
    var i := pos + 1;
    var first := buf[i];
    i := i + 1;
    var len: nat;
    TopBit(first);
    if BitAnd(first, 0x80) == 0 {
      len := first;
    } else {
      var n := BitAnd(first, 0x7F);
      if n == 0 || n > 4 || i + n > |buf| {
        return None;
      }
      len := ReadLength(buf, i, n);
      i := i + n;
    }
    var content := i;
    var end := content + len;
    if end > |buf| {
      return None;
    }
    return Some(Tlv(tag, content, end));
  }

  // The accumulation loop of the long form.
  method ReadLength(buf: Octets, start: nat, n: nat) returns (len: nat)
    requires n <= 4 && start + n <= |buf|
    ensures len == BigEndian(buf[start..start + n])
    ensures len < 0x1_0000_0000
  {
    var length := 0;
    var i := start;
    for k := 0 to n
      invariant i == start + k
      invariant length == BigEndian(buf[start..i])
      invariant length < (if k == 0 then 1 else if k == 1 then 0x100 else if k == 2 then 0x1_0000
                          else if k == 3 then 0x100_0000 else 0x1_0000_0000)
    {
      ShiftOr(length, buf[i]);
      BigEndianNext(buf, start, i);
      length := BitOr(ShiftLeft8(length), buf[i]);
      i := i + 1;
    }
    return length;
  }

  // ----- Locality: an element is read from its own bytes alone -----

  // The bytes `e` lie in `buf` from `pos` on.
  ghost predicate At(buf: Octets, pos: nat, e: Octets) {
    pos + |e| <= |buf| && forall k {:trigger e[k]} :: 0 <= k < |e| ==> e[k] == buf[pos + k]
  }

  lemma AtSplit(buf: Octets, pos: nat, a: Octets, b: Octets)
    requires At(buf, pos, a + b)
    ensures At(buf, pos, a) && At(buf, pos + |a|, b)
  {
    var e := a + b;
    assert forall k {:trigger a[k]} :: 0 <= k < |a| ==> a[k] == e[k];
    assert forall k {:trigger b[k]} :: 0 <= k < |b| ==> b[k] == e[|a| + k];
  }

  lemma ReadIsLocal(e: Octets, t: Tlv, buf: Octets, pos: nat)
    requires At(buf, pos, e)
    ensures TlvAt(e, 0) == Some(t) <==>
            t.end <= |e| && TlvAt(buf, pos) == Some(Tlv(t.tag, pos + t.content, pos + t.end))
  {
    var u := Tlv(t.tag, pos + t.content, pos + t.end);
    if 2 <= t.content <= t.end <= |e| {
      assert buf[pos + 1..u.content] == e[1..t.content];
    }
    assert ElementAt(e, 0, t) <==> t.end <= |e| && ElementAt(buf, pos, u);
    TlvIs(e, 0, t);
    TlvIs(buf, pos, u);
  }

  // ----- The matching encoder -----

  function EncodeLength(n: nat): (octets: Octets)
    requires n < 0x1_0000_0000
  {
    if n < 0x80 then [n]
    else if n <= 0xff then [0x81] + [n]
    else if n <= 0xffff then [0x82] + [n / 0x100, n % 0x100]
    else if n <= 0xff_ffff then [0x83] + [n / 0x1_0000, n / 0x100 % 0x100, n % 0x100]
    else [0x84] + [n / 0x100_0000, n / 0x1_0000 % 0x100, n / 0x100 % 0x100, n % 0x100]
  }

  function Encode(tag: Byte, content: Octets): Octets
    requires |content| < 0x1_0000_0000
  {
    [tag] + EncodeLength(|content|) + content
  }

  lemma BigEndianSnoc(s: Octets, a: Byte)
    ensures BigEndian(s + [a]) == BigEndian(s) * 256 + a
  {
    assert (s + [a])[..|s|] == s;
  }

  lemma BigEndianNext(buf: Octets, start: nat, i: nat)
    requires start <= i < |buf|
    ensures BigEndian(buf[start..i + 1]) == BigEndian(buf[start..i]) * 256 + buf[i]
  {
    assert buf[start..i + 1] == buf[start..i] + [buf[i]];
    BigEndianSnoc(buf[start..i], buf[i]);
  }

  lemma BigEndianFour(a: Byte, b: Byte, c: Byte, d: Byte)
    ensures BigEndian([a]) == a
    ensures BigEndian([a, b]) == a * 0x100 + b
    ensures BigEndian([a, b, c]) == a * 0x1_0000 + b * 0x100 + c
    ensures BigEndian([a, b, c, d]) == a * 0x100_0000 + b * 0x1_0000 + c * 0x100 + d
  {
    assert [] + [a] == [a] && [a] + [b] == [a, b] && [a, b] + [c] == [a, b, c] && [a, b, c] + [d] == [a, b, c, d];
    BigEndianSnoc([], a);
    BigEndianSnoc([a], b);
    BigEndianSnoc([a, b], c);
    BigEndianSnoc([a, b, c], d);
  }

  lemma Digits(n: nat)
    requires n < 0x1_0000_0000
    ensures n == n / 0x100 * 0x100 + n % 0x100
    ensures n == n / 0x1_0000 * 0x1_0000 + n / 0x100 % 0x100 * 0x100 + n % 0x100
    ensures n == n / 0x100_0000 * 0x100_0000 + n / 0x1_0000 % 0x100 * 0x1_0000 + n / 0x100 % 0x100 * 0x100 + n % 0x100
  {}

  lemma LongForm(digits: Octets, n: nat)
    requires 1 <= |digits| <= 4 && n == BigEndian(digits)
    ensures DenotesLength([0x80 + |digits|] + digits, n)
  {
    assert ([0x80 + |digits|] + digits)[1..] == digits;
  }

  lemma EncodeLengthDenotes(n: nat)
    requires n < 0x1_0000_0000
    ensures DenotesLength(EncodeLength(n), n)
  {
    Digits(n);
    if n < 0x80 {
    } else if n <= 0xff {
      BigEndianFour(n, 0, 0, 0);
      LongForm([n], n);
    } else if n <= 0xffff {
      BigEndianFour(n / 0x100, n % 0x100, 0, 0);
      LongForm([n / 0x100, n % 0x100], n);
    } else if n <= 0xff_ffff {
      BigEndianFour(n / 0x1_0000, n / 0x100 % 0x100, n % 0x100, 0);
      LongForm([n / 0x1_0000, n / 0x100 % 0x100, n % 0x100], n);
    } else {
      BigEndianFour(n / 0x100_0000, n / 0x1_0000 % 0x100, n / 0x100 % 0x100, n % 0x100);
      LongForm([n / 0x100_0000, n / 0x1_0000 % 0x100, n / 0x100 % 0x100, n % 0x100], n);
    }
  }

  // `e` is a definite-length encoding of `content`, minimal or not.
  ghost predicate Encodes(e: Octets, tag: Byte, content: Octets) {
    exists octets: Octets :: DenotesLength(octets, |content|) && e == [tag] + octets + content
  }

  lemma EncodeEncodes(tag: Byte, content: Octets)
    requires |content| < 0x1_0000_0000
    ensures Encodes(Encode(tag, content), tag, content)
  {
    EncodeLengthDenotes(|content|);
    assert Encode(tag, content) == [tag] + EncodeLength(|content|) + content;
  }

  // Reading undoes encoding, at any offset and whatever surrounds the element.
  lemma ReadInvertsEncoding(buf: Octets, pos: nat, e: Octets, tag: Byte, content: Octets)
    requires At(buf, pos, e) && Encodes(e, tag, content)
    ensures TlvAt(buf, pos) == Some(Tlv(tag, pos + |e| - |content|, pos + |e|))
    ensures At(buf, pos + |e| - |content|, content)
  {
    var octets: Octets :| DenotesLength(octets, |content|) && e == [tag] + octets + content;
    var t := Tlv(tag, 1 + |octets|, |e|);
    assert e[1..t.content] == octets;
    TlvIs(e, 0, t);
    ReadIsLocal(e, t, buf, pos);
    AtSplit(buf, pos, [tag] + octets, content);
  }

  // Conversely, whatever is read really is such an encoding.
  lemma ReadFindsEncoding(buf: Octets, pos: nat)
    requires TlvAt(buf, pos).Some?
    ensures var t := TlvAt(buf, pos).value;
            pos < t.content <= t.end <= |buf| && Encodes(buf[pos..t.end], t.tag, buf[t.content..t.end])
  {
    var t := TlvAt(buf, pos).value;
    var octets := buf[pos + 1..t.content];
    assert buf[pos..t.end] == [t.tag] + octets + buf[t.content..t.end];
  }

  // ----- The walk to the SubjectPublicKeyInfo -----

  // The position after `n` consecutive elements.
  function SkipElements(cert: Octets, pos: nat, n: nat): Option<nat>
    decreases n, |cert|
  {
    if n == 0 then Some(pos)
    else match TlvAt(cert, pos)
      case None => None
      case Some(t) => SkipElements(cert, t.end, n - 1)
  }

  function SkipVersion(cert: Octets, pos: nat): nat {
    match TlvAt(cert, pos)
    case Some(t) => if t.tag == 0xA0 then t.end else pos
    case None => pos
  }

  // Past the version, `n` fields are skipped and the next one returned whole.
  function SpkiFrom(cert: Octets, first: nat, n: nat): Option<Octets> {
    match SkipElements(cert, first, n)
    case None => None
    case Some(start) =>
      match TlvAt(cert, start)
      case None => None
      case Some(spki) => Some(cert[start..spki.end])
  }

  function SpkiWalk(cert: Octets): Option<Octets> {
    match TlvAt(cert, 0)
    case None => None
    case Some(outer) =>
      match TlvAt(cert, outer.content)
      case None => None
      case Some(tbs) =>
        if tbs.tag != 0x30 then None else SpkiFrom(cert, SkipVersion(cert, tbs.content), 5)
  }

  method SpkiDer(cert: Octets) returns (r: Option<Octets>)
    ensures r == SpkiWalk(cert)
  {
    var outer := ReadTlv(cert, 0);
    if outer.None? { return None; }
    var tbs := ReadTlv(cert, outer.value.content);
    if tbs.None? { return None; }
    if tbs.value.tag != 0x30 { return None; }
    var pos := tbs.value.content;

    var version := ReadTlv(cert, pos);
    if version.Some? {
      if version.value.tag == 0xA0 {
        pos := version.value.end;
      }
    }
    ghost var first := pos;
    for i := 0 to 5
      invariant SkipElements(cert, first, 5) == SkipElements(cert, pos, 5 - i)
    {
      var field := ReadTlv(cert, pos);
      if field.None? { return None; }
      pos := field.value.end;
    }
    var spki := ReadTlv(cert, pos);
    if spki.None? { return None; }
    return Some(cert[pos..spki.value.end]);
  }

  // ----- What the walk finds, element by element -----

  // An element lies between the two positions.
  ghost predicate Spans(cert: Octets, start: nat, end: nat) {
    exists t: Tlv :: ElementAt(cert, start, t) && t.end == end
  }

  // The positions between which elements lie, one after the other.
  ghost predicate AreConsecutive(cert: Octets, p: seq<nat>) {
    p != [] && forall k :: 0 <= k < |p| - 1 ==> Spans(cert, p[k], p[k + 1])
  }

  // The fields start after the version, if there is one.
  ghost predicate StartFields(cert: Octets, pos: nat, first: nat) {
    if exists t: Tlv :: ElementAt(cert, pos, t) && t.tag == 0xA0 then
      exists t: Tlv :: ElementAt(cert, pos, t) && first == t.end
    else first == pos
  }

  ghost predicate IsLaidOut(cert: Octets, outer: Tlv, tbs: Tlv, p: seq<nat>) {
    && ElementAt(cert, 0, outer) && ElementAt(cert, outer.content, tbs) && tbs.tag == 0x30
    && |p| == 7 && StartFields(cert, tbs.content, p[0]) && AreConsecutive(cert, p) && p[5] <= p[6] <= |cert|
  }

  lemma SpansIsRead(cert: Octets, start: nat, end: nat)
    ensures Spans(cert, start, end) <==> TlvAt(cert, start).Some? && TlvAt(cert, start).value.end == end
  {
    if TlvAt(cert, start).Some? { TlvIs(cert, start, TlvAt(cert, start).value); }
    forall t: Tlv ensures ElementAt(cert, start, t) <==> TlvAt(cert, start) == Some(t) {
      TlvIs(cert, start, t);
    }
  }

  lemma VersionIsRead(cert: Octets, pos: nat, first: nat)
    ensures StartFields(cert, pos, first) <==> first == SkipVersion(cert, pos)
  {
    forall t: Tlv ensures ElementAt(cert, pos, t) <==> TlvAt(cert, pos) == Some(t) {
      TlvIs(cert, pos, t);
    }
    if TlvAt(cert, pos).Some? { assert ElementAt(cert, pos, TlvAt(cert, pos).value); }
  }

  lemma {:induction false} SkipsAlong(cert: Octets, p: seq<nat>, n: nat)
    requires AreConsecutive(cert, p) && n < |p|
    ensures SkipElements(cert, p[0], n) == Some(p[n])
    decreases n
  {
    if n > 0 {
      SpansIsRead(cert, p[0], p[1]);
      var rest := p[1..];
      forall k | 0 <= k < |rest| - 1 ensures Spans(cert, rest[k], rest[k + 1]) {
        var j := k + 1;
        assert Spans(cert, p[j], p[j + 1]);
      }
      SkipsAlong(cert, rest, n - 1);
    }
  }

  lemma {:induction false} SkippedPositions(cert: Octets, first: nat, n: nat) returns (p: seq<nat>)
    requires SkipElements(cert, first, n).Some?
    ensures |p| == n + 1 && p[0] == first && Some(p[n]) == SkipElements(cert, first, n) && AreConsecutive(cert, p)
    decreases n
  {
    if n == 0 {
      p := [first];
    } else {
      var next := TlvAt(cert, first).value.end;
      var rest := SkippedPositions(cert, next, n - 1);
      SpansIsRead(cert, first, next);
      p := [first] + rest;
      forall k | 0 <= k < |p| - 1 ensures Spans(cert, p[k], p[k + 1]) {
        if k > 0 { assert Spans(cert, rest[k - 1], rest[k]); }
      }
    }
  }

  // The walk returns `spki` if and only if the first element of the buffer
  // starts with a SEQUENCE, that starts with five elements after the version,
  // if there is one, and the next element is `spki`.
  lemma WalkMeans(cert: Octets, spki: Octets)
    ensures SpkiWalk(cert) == Some(spki) <==>
              exists outer, tbs, p :: IsLaidOut(cert, outer, tbs, p) && spki == cert[p[5]..p[6]]
  {
    if outer, tbs, p :| IsLaidOut(cert, outer, tbs, p) && spki == cert[p[5]..p[6]] {
      LaidOutIsWalked(cert, outer, tbs, p);
    }
    if SpkiWalk(cert) == Some(spki) {
      WalkedIsLaidOut(cert, spki);
    }
  }

  lemma LaidOutIsWalked(cert: Octets, outer: Tlv, tbs: Tlv, p: seq<nat>)
    requires IsLaidOut(cert, outer, tbs, p)
    ensures SpkiWalk(cert) == Some(cert[p[5]..p[6]])
  {
    TlvIs(cert, 0, outer);
    TlvIs(cert, outer.content, tbs);
    VersionIsRead(cert, tbs.content, p[0]);
    SkipsAlong(cert, p, 5);
    SpansIsRead(cert, p[5], p[6]);
  }

  lemma WalkedIsLaidOut(cert: Octets, spki: Octets)
    requires SpkiWalk(cert) == Some(spki)
    ensures exists outer, tbs, p :: IsLaidOut(cert, outer, tbs, p) && spki == cert[p[5]..p[6]]
  {
    var outer := TlvAt(cert, 0).value;
    var tbs := TlvAt(cert, outer.content).value;
    TlvIs(cert, 0, outer);
    TlvIs(cert, outer.content, tbs);
    var first := SkipVersion(cert, tbs.content);
    VersionIsRead(cert, tbs.content, first);
    var p := SkippedPositions(cert, first, 5);
    var end := TlvAt(cert, p[5]).value.end;
    SpansIsRead(cert, p[5], end);
    AppendedPosition(cert, p, end);
    assert IsLaidOut(cert, outer, tbs, p + [end]);
  }

  lemma AppendedPosition(cert: Octets, p: seq<nat>, end: nat)
    requires AreConsecutive(cert, p) && Spans(cert, p[|p| - 1], end)
    ensures AreConsecutive(cert, p + [end]) && p[|p| - 1] <= end <= |cert|
  {
    var all := p + [end];
    forall k | 0 <= k < |all| - 1 ensures Spans(cert, all[k], all[k + 1]) {
      if k < |p| - 1 { assert Spans(cert, p[k], p[k + 1]); }
    }
  }

  function Concat(parts: seq<Octets>): Octets {
    if parts == [] then [] else parts[0] + Concat(parts[1..])
  }

  ghost predicate IsElement(e: Octets) {
    exists tag: Byte, content: Octets :: Encodes(e, tag, content)
  }

  lemma {:induction false} SkipsEncodedElements(buf: Octets, pos: nat, parts: seq<Octets>)
    requires forall p :: p in parts ==> IsElement(p)
    requires At(buf, pos, Concat(parts))
    ensures SkipElements(buf, pos, |parts|) == Some(pos + |Concat(parts)|)
    decreases |parts|
  {
    if parts != [] {
      assert IsElement(parts[0]);
      var tag: Byte, content: Octets :| Encodes(parts[0], tag, content);
      AtSplit(buf, pos, parts[0], Concat(parts[1..]));
      ReadInvertsEncoding(buf, pos, parts[0], tag, content);
      SkipsEncodedElements(buf, pos + |parts[0]|, parts[1..]);
    }
  }

  // The seven leading fields of a TBSCertificate. `version` is empty or the
  // explicitly tagged [0] element; `fields` are serialNumber, signature,
  // issuer, validity and subject.
  datatype TbsFields = TbsFields(version: Octets, fields: seq<Octets>, spki: Octets, extensions: Octets)

  ghost predicate IsTbs(f: TbsFields) {
    && |f.fields| == 5
    && (forall p :: p in f.fields ==> IsElement(p))
    && IsElement(f.spki)
    && (f.version == [] || exists content: Octets :: Encodes(f.version, 0xA0, content))
  }

  // Without a version, a first field with the version's tag is taken for it.
  predicate ReadsAsVersion(f: TbsFields) {
    f.version == [] && f.fields != [] && f.fields[0] != [] && f.fields[0][0] == 0xA0
  }

  ghost predicate WellFormedTbs(f: TbsFields) {
    IsTbs(f) && !ReadsAsVersion(f)
  }

  function TbsContent(f: TbsFields): Octets {
    f.version + (Concat(f.fields) + (f.spki + f.extensions))
  }

  // A certificate for those fields: any outer tag, any definite length form at
  // either level, anything after the to-be-signed part.
  ghost predicate CertifiesFields(cert: Octets, f: TbsFields) {
    exists outerTag: Byte, tbs: Octets, signature: Octets ::
      Encodes(tbs, 0x30, TbsContent(f)) && Encodes(cert, outerTag, tbs + signature)
  }

  lemma AtStart(cert: Octets, trailing: Octets)
    ensures At(cert + trailing, 0, cert)
  {}

  lemma LocateInside(buf: Octets, cert: Octets, tag: Byte, tbs: Octets, signature: Octets, content: Octets)
    returns (q: nat)
    requires At(buf, 0, cert) && Encodes(cert, tag, tbs + signature) && Encodes(tbs, 0x30, content)
    ensures TlvAt(buf, 0).Some?
    ensures var inner := TlvAt(buf, TlvAt(buf, 0).value.content);
            inner.Some? && inner.value.tag == 0x30 && inner.value.content == q && At(buf, q, content)
    ensures q + |content| + |signature| == |cert| && At(buf, q + |content|, signature)
  {
    ReadInvertsEncoding(buf, 0, cert, tag, tbs + signature);
    var p := |cert| - |tbs + signature|;
    AtSplit(buf, p, tbs, signature);
    ReadInvertsEncoding(buf, p, tbs, 0x30, content);
    q := p + |tbs| - |content|;
  }

  lemma LocateTbs(f: TbsFields, cert: Octets, trailing: Octets) returns (q: nat)
    requires CertifiesFields(cert, f)
    ensures var buf := cert + trailing;
            && TlvAt(buf, 0).Some?
            && TlvAt(buf, TlvAt(buf, 0).value.content).Some?
            && var tbs := TlvAt(buf, TlvAt(buf, 0).value.content).value;
               tbs.tag == 0x30 && tbs.content == q && At(buf, q, TbsContent(f))
  {
    var outerTag: Byte, tbs: Octets, signature: Octets :|
      Encodes(tbs, 0x30, TbsContent(f)) && Encodes(cert, outerTag, tbs + signature);
    AtStart(cert, trailing);
    q := LocateInside(cert + trailing, cert, outerTag, tbs, signature, TbsContent(f));
  }

  // The walk inverts certificate encoding: whatever the contents of the
  // fields, whether or not the version is present, and whatever follows the
  // SPKI, the to-be-signed part or the certificate.
  lemma WalkInvertsCertificate(f: TbsFields, cert: Octets, trailing: Octets)
    requires WellFormedTbs(f) && CertifiesFields(cert, f)
    ensures SpkiWalk(cert + trailing) == Some(f.spki)
  {
    var q := LocateTbs(f, cert, trailing);
    WalkFields(f, cert + trailing, q);
  }

  lemma LocateFields(f: TbsFields, buf: Octets, pos: nat)
    requires At(buf, pos, TbsContent(f))
    ensures At(buf, pos, f.version)
    ensures At(buf, pos + |f.version|, Concat(f.fields))
    ensures At(buf, pos + |f.version| + |Concat(f.fields)|, f.spki)
  {
    var rest := f.spki + f.extensions;
    AtSplit(buf, pos, f.version, Concat(f.fields) + rest);
    AtSplit(buf, pos + |f.version|, Concat(f.fields), rest);
    AtSplit(buf, pos + |f.version| + |Concat(f.fields)|, f.spki, f.extensions);
  }

  lemma SpkiAfterFields(buf: Octets, pos: nat, fields: seq<Octets>, spki: Octets)
    requires forall p :: p in fields ==> IsElement(p)
    requires IsElement(spki)
    requires At(buf, pos, Concat(fields)) && At(buf, pos + |Concat(fields)|, spki)
    ensures SpkiFrom(buf, pos, |fields|) == Some(spki)
  {
    SkipsEncodedElements(buf, pos, fields);
    var start := pos + |Concat(fields)|;
    ElementIsRead(buf, start, spki);
    assert buf[start..start + |spki|] == spki;
  }

  lemma WalkFields(f: TbsFields, buf: Octets, pos: nat)
    requires WellFormedTbs(f) && At(buf, pos, TbsContent(f))
    ensures SpkiFrom(buf, SkipVersion(buf, pos), |f.fields|) == Some(f.spki)
  {
    LocateFields(f, buf, pos);
    VersionIsSkipped(f, buf, pos);
    SpkiAfterFields(buf, pos + |f.version|, f.fields, f.spki);
  }

  lemma ElementIsRead(buf: Octets, pos: nat, e: Octets)
    requires At(buf, pos, e) && IsElement(e)
    ensures TlvAt(buf, pos).Some? && TlvAt(buf, pos).value.end == pos + |e|
  {
    var tag: Byte, content: Octets :| Encodes(e, tag, content);
    ReadInvertsEncoding(buf, pos, e, tag, content);
  }

  lemma VersionIsSkipped(f: TbsFields, buf: Octets, pos: nat)
    requires WellFormedTbs(f) && At(buf, pos, f.version) && At(buf, pos + |f.version|, Concat(f.fields))
    ensures SkipVersion(buf, pos) == pos + |f.version|
  {
    if f.version == [] {
      assert f.fields[0] in f.fields;
      var tag: Byte, content: Octets :| Encodes(f.fields[0], tag, content);
      AtSplit(buf, pos, f.fields[0], Concat(f.fields[1..]));
      ReadInvertsEncoding(buf, pos, f.fields[0], tag, content);
    } else {
      var content: Octets :| Encodes(f.version, 0xA0, content);
      ReadInvertsEncoding(buf, pos, f.version, 0xA0, content);
    }
  }

  // ----- The walk on any certificate -----

  lemma AtJoin(buf: Octets, pos: nat, a: Octets, b: Octets)
    requires At(buf, pos, a) && At(buf, pos + |a|, b)
    ensures At(buf, pos, a + b)
  {
    assert forall k {:trigger (a + b)[k]} :: 0 <= k < |a + b| ==>
      (a + b)[k] == if k < |a| then a[k] else b[k - |a|];
  }

  // The element a buffer starts with, if it starts with one.
  function FirstElement(s: Octets): Option<Octets> {
    match TlvAt(s, 0)
    case None => None
    case Some(t) => Some(s[..t.end])
  }

  lemma ReadAtTail(buf: Octets, pos: nat, tail: Octets)
    requires At(buf, pos, tail) && pos + |tail| == |buf|
    ensures FirstElement(tail) ==
            match TlvAt(buf, pos)
            case None => None
            case Some(t) => if pos <= t.end <= |buf| then Some(buf[pos..t.end]) else None
  {
    if TlvAt(buf, pos).Some? {
      var u := TlvAt(buf, pos).value;
      ReadIsLocal(tail, Tlv(u.tag, u.content - pos, u.end - pos), buf, pos);
      assert buf[pos..u.end] == tail[..u.end - pos];
    } else if TlvAt(tail, 0).Some? {
      ReadIsLocal(tail, TlvAt(tail, 0).value, buf, pos);
    }
  }

  lemma FirstFieldIsSkipped(buf: Octets, pos: nat, field: Octets)
    requires At(buf, pos, field) && IsElement(field) && field[0] == 0xA0
    ensures SkipVersion(buf, pos) == pos + |field|
  {
    var tag: Byte, content: Octets :| Encodes(field, tag, content);
    ReadInvertsEncoding(buf, pos, field, tag, content);
  }

  // Where the fields and the SPKI end when the first field is skipped.
  lemma SkipsPastSpki(buf: Octets, pos: nat, fields: seq<Octets>, spki: Octets)
    requires |fields| == 5 && (forall p :: p in fields ==> IsElement(p)) && IsElement(spki)
    requires fields[0] != [] && fields[0][0] == 0xA0
    requires At(buf, pos, Concat(fields)) && At(buf, pos + |Concat(fields)|, spki)
    ensures SkipElements(buf, SkipVersion(buf, pos), 5) == Some(pos + |Concat(fields)| + |spki|)
  {
    var first, others := fields[0], fields[1..];
    assert first in fields && forall p :: p in others ==> p in fields;
    AtSplit(buf, pos, first, Concat(others));
    FirstFieldIsSkipped(buf, pos, first);
    AtJoin(buf, pos + |first|, Concat(others), spki);
    ConcatSnoc(others, spki);
    SkipsEncodedElements(buf, pos + |first|, others + [spki]);
  }

  // Then the element after the SPKI is returned, if one can be read there:
  // inside the to-be-signed part, or past its end if nothing is left in it.
  lemma VersionTagIsAmbiguous(f: TbsFields, outerTag: Byte, tbs: Octets, signature: Octets, cert: Octets,
                              trailing: Octets)
    requires IsTbs(f) && ReadsAsVersion(f)
    requires Encodes(tbs, 0x30, TbsContent(f)) && Encodes(cert, outerTag, tbs + signature)
    ensures SpkiWalk(cert + trailing) == FirstElement(f.extensions + (signature + trailing))
  {
    var buf, tail := cert + trailing, f.extensions + (signature + trailing);
    AtStart(cert, trailing);
    var q := LocateInside(buf, cert, outerTag, tbs, signature, TbsContent(f));
    var after := LocateTail(f, buf, q, cert, signature, trailing);
    WalkFieldsPastSpki(f, buf, q, after, tail);
  }

  lemma WalkFieldsPastSpki(f: TbsFields, buf: Octets, q: nat, after: nat, tail: Octets)
    requires IsTbs(f) && ReadsAsVersion(f) && At(buf, q, TbsContent(f))
    requires after == q + |Concat(f.fields)| + |f.spki| && At(buf, after, tail) && after + |tail| == |buf|
    ensures SpkiFrom(buf, SkipVersion(buf, q), 5) == FirstElement(tail)
  {
    LocateFields(f, buf, q);
    SkipsPastSpki(buf, q, f.fields, f.spki);
    ReadAtTail(buf, after, tail);
    TlvEndsInside(buf, after);
  }

  lemma TlvEndsInside(buf: Octets, pos: nat)
    ensures TlvAt(buf, pos).Some? ==> pos <= TlvAt(buf, pos).value.end <= |buf|
  {}

  lemma LocateTail(f: TbsFields, buf: Octets, q: nat, cert: Octets, signature: Octets, trailing: Octets)
    returns (after: nat)
    requires f.version == [] && At(buf, q, TbsContent(f)) && buf == cert + trailing
    requires At(buf, q + |TbsContent(f)|, signature) && q + |TbsContent(f)| + |signature| == |cert|
    ensures after == q + |Concat(f.fields)| + |f.spki|
    ensures var tail := f.extensions + (signature + trailing); At(buf, after, tail) && after + |tail| == |buf|
  {
    var fields := Concat(f.fields);
    assert TbsContent(f) == fields + (f.spki + f.extensions);
    after := q + |fields| + |f.spki|;
    AtSplit(buf, q, fields, f.spki + f.extensions);
    AtSplit(buf, q + |fields|, f.spki, f.extensions);
    AtEnd(cert, trailing);
    AtJoin(buf, q + |TbsContent(f)|, signature, trailing);
    AtJoin(buf, after, f.extensions, signature + trailing);
  }

  lemma AtEnd(cert: Octets, trailing: Octets)
    ensures At(cert + trailing, |cert|, trailing)
  {}

  // What the walk returns on every certificate of this form.
  lemma WalkIsExact(f: TbsFields, outerTag: Byte, tbs: Octets, signature: Octets, cert: Octets, trailing: Octets)
    requires IsTbs(f) && Encodes(tbs, 0x30, TbsContent(f)) && Encodes(cert, outerTag, tbs + signature)
    ensures SpkiWalk(cert + trailing) ==
            if ReadsAsVersion(f) then FirstElement(f.extensions + (signature + trailing)) else Some(f.spki)
  {
    if ReadsAsVersion(f) {
      VersionTagIsAmbiguous(f, outerTag, tbs, signature, cert, trailing);
    } else {
      WalkInvertsCertificate(f, cert, trailing);
    }
  }

  lemma StartsWithElement(s: Octets, e: Octets)
    requires IsElement(e)
    ensures FirstElement(s) == Some(e) <==> e <= s
  {
    if e <= s {
      assert At(s, 0, e);
      ElementIsRead(s, 0, e);
      assert s[..|e|] == e;
    } else if TlvAt(s, 0).Some? {
      assert s[..TlvAt(s, 0).value.end] <= s;
    }
  }

  // So it returns the SPKI if and only if there is a version, the first field
  // does not carry the version's tag, or the SPKI's bytes follow once more.
  lemma WalkIsRight(f: TbsFields, outerTag: Byte, tbs: Octets, signature: Octets, cert: Octets, trailing: Octets)
    requires IsTbs(f) && Encodes(tbs, 0x30, TbsContent(f)) && Encodes(cert, outerTag, tbs + signature)
    ensures SpkiWalk(cert + trailing) == Some(f.spki) <==>
              !ReadsAsVersion(f) || f.spki <= f.extensions + (signature + trailing)
  {
    WalkIsExact(f, outerTag, tbs, signature, cert, trailing);
    StartsWithElement(f.extensions + (signature + trailing), f.spki);
  }

  lemma {:induction false} ConcatSnoc(parts: seq<Octets>, last: Octets)
    ensures Concat(parts + [last]) == Concat(parts) + last
  {
    if parts == [] {
      assert Concat([last]) == last + [];
    } else {
      assert (parts + [last])[1..] == parts[1..] + [last];
      ConcatSnoc(parts[1..], last);
    }
  }

  // Bytes appended to a buffer the walk succeeds on change nothing.
  lemma WalkIgnoresAppended(cert: Octets, more: Octets)
    requires SpkiWalk(cert).Some?
    ensures SpkiWalk(cert + more) == SpkiWalk(cert)
  {
    var outer := TlvAt(cert, 0).value;
    var tbs := TlvAt(cert, outer.content).value;
    AppendKeepsRead(cert, 0, more);
    AppendKeepsRead(cert, outer.content, more);
    AppendKeepsSpki(cert, SkipVersion(cert, tbs.content), 5, more);
    if TlvAt(cert, tbs.content).Some? {
      AppendKeepsRead(cert, tbs.content, more);
    }
  }

  lemma AppendKeepsSpki(cert: Octets, first: nat, n: nat, more: Octets)
    requires SpkiFrom(cert, first, n).Some?
    ensures SpkiFrom(cert + more, first, n) == SpkiFrom(cert, first, n)
  {
    SkipKeepsAppended(cert, first, n, more);
    var start := SkipElements(cert, first, n).value;
    AppendKeepsRead(cert, start, more);
    var spki := TlvAt(cert, start).value;
    assert (cert + more)[start..spki.end] == cert[start..spki.end];
  }

  lemma AppendKeepsRead(buf: Octets, pos: nat, more: Octets)
    requires TlvAt(buf, pos).Some?
    ensures TlvAt(buf + more, pos) == TlvAt(buf, pos)
  {
    var t := TlvAt(buf, pos).value;
    assert (buf + more)[pos + 1..t.content] == buf[pos + 1..t.content];
    TlvIs(buf + more, pos, t);
  }

  lemma {:induction false} SkipKeepsAppended(buf: Octets, pos: nat, n: nat, more: Octets)
    requires SkipElements(buf, pos, n).Some?
    ensures SkipElements(buf + more, pos, n) == SkipElements(buf, pos, n)
    decreases n
  {
    if n > 0 {
      AppendKeepsRead(buf, pos, more);
      SkipKeepsAppended(buf, TlvAt(buf, pos).value.end, n - 1, more);
    }
  }

  // ----- Matching pins; the digest is any function of the SPKI bytes -----

  function SpkiDigest(cert: Octets, digest: Octets -> Octets): Option<Octets> {
    match SpkiWalk(cert)
    case None => None
    case Some(spki) => Some(digest(spki))
  }

  predicate Matches(pins: seq<Octets>, cert: Octets, digest: Octets -> Octets) {
    match SpkiDigest(cert, digest)
    case None => false
    case Some(hash) => exists i :: 0 <= i < |pins| && pins[i] == hash
  }

  // Bytes in which no SPKI is found match no pin.
  lemma UnreadableNeverMatches(pins: seq<Octets>, cert: Octets, digest: Octets -> Octets)
    ensures Matches(pins, cert, digest) <==>
              exists spki :: SpkiWalk(cert) == Some(spki) && digest(spki) in pins
  {}

  // A renewal that keeps the key keeps every pin decision, and a certificate
  // matches exactly when the digest of its own SPKI element is pinned.
  lemma RenewalKeepsPins(pins: seq<Octets>, digest: Octets -> Octets,
                         f: TbsFields, cert: Octets, renewed: TbsFields, cert': Octets)
    requires WellFormedTbs(f) && CertifiesFields(cert, f)
    requires WellFormedTbs(renewed) && CertifiesFields(cert', renewed)
    requires f.spki == renewed.spki
    ensures Matches(pins, cert, digest) <==> digest(f.spki) in pins
    ensures Matches(pins, cert, digest) <==> Matches(pins, cert', digest)
  {
    WalkInvertsCertificate(f, cert, []);
    WalkInvertsCertificate(renewed, cert', []);
    assert cert + [] == cert && cert' + [] == cert';
  }
}
