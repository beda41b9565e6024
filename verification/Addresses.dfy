// Address classification (src/url_validation.rs:182-284): the prefix and mask
// tests on machine words, and the octet intervals they amount to.
module Addresses {
  import opened Wrappers
  import opened Bytes

  datatype Ipv4 = Ipv4(a: Byte, b: Byte, c: Byte, d: Byte)

  datatype Ipv6 = Ipv6(s0: Word, s1: Word, s2: Word, s3: Word, s4: Word, s5: Word, s6: Word, s7: Word)

  datatype IpAddr = V4(v4: Ipv4) | V6(v6: Ipv6)

  // Whether two octets agree on their first `bits` bits.
  predicate Agree(x: Byte, n: Byte, bits: int) {
    if bits <= 0 then true
    else if bits == 1 then x / 0x80 == n / 0x80
    else if bits == 2 then x / 0x40 == n / 0x40
    else if bits == 3 then x / 0x20 == n / 0x20
    else if bits == 4 then x / 0x10 == n / 0x10
    else if bits == 5 then x / 8 == n / 8
    else if bits == 6 then x / 4 == n / 4
    else if bits == 7 then x / 2 == n / 2
    else x == n
  }

  // A network contains the addresses that agree with it on its prefix.
  predicate InNetwork(x: Ipv4, network: Ipv4, prefix: nat) {
    && prefix <= 32
    && Agree(x.a, network.a, prefix) && Agree(x.b, network.b, prefix - 8)
    && Agree(x.c, network.c, prefix - 16) && Agree(x.d, network.d, prefix - 24)
  }

  predicate IsPrivateOrLoopback(x: Ipv4) {
    || InNetwork(x, Ipv4(0, 0, 0, 0), 8)
    || InNetwork(x, Ipv4(10, 0, 0, 0), 8)
    || InNetwork(x, Ipv4(100, 64, 0, 0), 10)
    || InNetwork(x, Ipv4(127, 0, 0, 0), 8)
    || InNetwork(x, Ipv4(169, 254, 0, 0), 16)
    || InNetwork(x, Ipv4(172, 16, 0, 0), 12)
    || InNetwork(x, Ipv4(192, 0, 0, 0), 24)
    || InNetwork(x, Ipv4(192, 0, 2, 0), 24)
    || InNetwork(x, Ipv4(192, 168, 0, 0), 16)
    || InNetwork(x, Ipv4(198, 18, 0, 0), 15)
    || InNetwork(x, Ipv4(198, 51, 100, 0), 24)
    || InNetwork(x, Ipv4(203, 0, 113, 0), 24)
    || InNetwork(x, Ipv4(224, 0, 0, 0), 4)
    || InNetwork(x, Ipv4(240, 0, 0, 0), 4)
  }

  // The two halves of an address as four octets.
  function FromSegments(high: Word, low: Word): Ipv4 {
    Ipv4(high / 0x100, high % 0x100, low / 0x100, low % 0x100)
  }

  // The address an IPv4-mapped or IPv4-compatible form embeds.
  function EmbeddedIpv4(x: Ipv6): Option<Ipv4> {
    if x.s0 == 0 && x.s1 == 0 && x.s2 == 0 && x.s3 == 0 && x.s4 == 0 && (x.s5 == 0 || x.s5 == 0xFFFF) then
      Some(FromSegments(x.s6, x.s7))
    else None
  }

  const UNSPECIFIED := Ipv6(0, 0, 0, 0, 0, 0, 0, 0)
  const LOOPBACK := Ipv6(0, 0, 0, 0, 0, 0, 0, 1)

  predicate IsIpv6LoopbackOrMulticast(x: Ipv6) {
    match EmbeddedIpv4(x)
    case Some(embedded) => IsPrivateOrLoopback(embedded)
    case None =>
      var isUniqueLocal := BitAnd(x.s0, 0xFE00) == 0xFC00;
      var isLinkLocal := BitAnd(x.s0, 0xFFC0) == 0xFE80;
      var isDocumentation := x.s0 == 0x2001 && x.s1 == 0x0DB8;
      var is6to4Private := x.s0 == 0x2002 && IsPrivateOrLoopback(FromSegments(x.s1, x.s2));
      var isMulticast := BitAnd(x.s0, 0xFF00) == 0xFF00;
      || x == UNSPECIFIED || x == LOOPBACK || isMulticast
      || isUniqueLocal || isLinkLocal || isDocumentation || is6to4Private
  }

  predicate IsBlockedIp(address: IpAddr) {
    match address
    case V4(x) => IsPrivateOrLoopback(x)
    case V6(x) => IsIpv6LoopbackOrMulticast(x)
  }

  // ----- The intervals -----

  // The mask tests on the first segment are intervals.
  lemma MaskIntervals(s: Word)
    ensures BitAnd(s, 0xFE00) == 0xFC00 <==> 0xFC00 <= s <= 0xFDFF
    ensures BitAnd(s, 0xFFC0) == 0xFE80 <==> 0xFE80 <= s <= 0xFEBF
    ensures BitAnd(s, 0xFF00) == 0xFF00 <==> 0xFF00 <= s
  {
    assert Pow2(6) == 0x40;
    assert Pow2(8) == 0x100;
    assert Pow2(9) == 0x200;
    assert RoundDown(0xFC00, 9) == 0xFC00;
    assert RoundDown(0xFE80, 6) == 0xFE80;
    assert RoundDown(0xFF00, 8) == 0xFF00;
    MaskInterval(s, 0xFE00, 7, 9, 0x200, 0xFC00);
    MaskInterval(s, 0xFFC0, 10, 6, 0x40, 0xFE80);
    MaskInterval(s, 0xFF00, 8, 8, 0x100, 0xFF00);
  }

  lemma MaskInterval(s: Word, mask: nat, j: nat, k: nat, size: nat, value: nat)
    requires j + k == 16 && mask + size == 0x1_0000 && Pow2(k) == size && RoundDown(value, k) == value
    ensures BitAnd(s, mask) == value <==> value <= s < value + size
  {
    assert Pow2(8) == 0x100;
    assert Pow2(16) == 0x1_0000;
    MaskValue(j, k);
    HighBits(s, j, k);
    SameBlock(s, value, k);
  }

  predicate Private(x: Ipv4) {
    || x.a == 0 || x.a == 10 || x.a == 127 || 224 <= x.a
    || (x.a == 100 && 64 <= x.b <= 127)
    || (x.a == 169 && x.b == 254)
    || (x.a == 172 && 16 <= x.b <= 31)
    || (x.a == 192 && (x.b == 168 || (x.b == 0 && (x.c == 0 || x.c == 2))))
    || (x.a == 198 && (18 <= x.b <= 19 || (x.b == 51 && x.c == 100)))
    || (x.a == 203 && x.b == 0 && x.c == 113)
  }

  // The union of the fourteen networks, octet by octet.
  lemma PrivateIntervals(x: Ipv4)
    ensures IsPrivateOrLoopback(x) <==> Private(x)
  {
  }

  // What is blocked among the IPv6 addresses. The tests for `::` and `::1` add
  // nothing: both embed an address of 0.0.0.0/8.
  lemma BlockedIpv6(x: Ipv6)
    ensures IsIpv6LoopbackOrMulticast(x) <==>
              if EmbeddedIpv4(x).Some? then Private(EmbeddedIpv4(x).value)
              else
                || 0xFC00 <= x.s0 <= 0xFDFF
                || 0xFE80 <= x.s0 <= 0xFEBF
                || 0xFF00 <= x.s0
                || (x.s0 == 0x2001 && x.s1 == 0x0DB8)
                || (x.s0 == 0x2002 && Private(FromSegments(x.s1, x.s2)))
    ensures x == UNSPECIFIED || x == LOOPBACK ==> EmbeddedIpv4(x).Some? && IsIpv6LoopbackOrMulticast(x)
  {
    MaskIntervals(x.s0);
    PrivateIntervals(FromSegments(x.s6, x.s7));
    PrivateIntervals(FromSegments(x.s1, x.s2));
  }

  // ----- Embeddings (sections 2.5.5.1 and 2.5.5.2 of RFC 4291, section 2 of RFC 3056) -----

  function High(x: Ipv4): Word {
    x.a * 0x100 + x.b
  }

  function Low(x: Ipv4): Word {
    x.c * 0x100 + x.d
  }

  function Mapped(x: Ipv4): Ipv6 {
    Ipv6(0, 0, 0, 0, 0, 0xFFFF, High(x), Low(x))
  }

  function Compatible(x: Ipv4): Ipv6 {
    Ipv6(0, 0, 0, 0, 0, 0, High(x), Low(x))
  }

  function SixToFour(x: Ipv4, s3: Word, s4: Word, s5: Word, s6: Word, s7: Word): Ipv6 {
    Ipv6(0x2002, High(x), Low(x), s3, s4, s5, s6, s7)
  }

  lemma SegmentsRoundTrip(x: Ipv4)
    ensures FromSegments(High(x), Low(x)) == x
  {}

  // One IPv4 address gets one verdict, however it is written.
  lemma EmbeddingsAgree(x: Ipv4, s3: Word, s4: Word, s5: Word, s6: Word, s7: Word)
    ensures IsBlockedIp(V6(Mapped(x))) <==> IsBlockedIp(V4(x))
    ensures IsBlockedIp(V6(Compatible(x))) <==> IsBlockedIp(V4(x))
    ensures IsBlockedIp(V6(SixToFour(x, s3, s4, s5, s6, s7))) <==> IsBlockedIp(V4(x))
  {
    SegmentsRoundTrip(x);
    PrivateIntervals(x);
    BlockedIpv6(Mapped(x));
    BlockedIpv6(Compatible(x));
    BlockedIpv6(SixToFour(x, s3, s4, s5, s6, s7));
  }

  // ----- Resolver answers (src/url_validation.rs:295-319) -----

  // The first occurrences, in resolver order.
  ghost function FirstOccurrences(answers: seq<IpAddr>): seq<IpAddr> {
    if answers == [] then []
    else
      var init := FirstOccurrences(answers[..|answers| - 1]);
      var last := answers[|answers| - 1];
      if last in init then init else init + [last]
  }

  // `answers` is what the resolver returned.
  method ResolveHost(answers: Result<seq<IpAddr>>) returns (r: Result<seq<IpAddr>>)
    ensures r == Resolved(answers)
  {
    if answers.Err? {
      return Err(InvalidHost);
    }
    var resolved := false;
    var addresses := [];
    for i := 0 to |answers.value|
      invariant resolved <==> i > 0
      invariant addresses == FirstOccurrences(answers.value[..i])
    {
      resolved := true;
      var address := answers.value[i];
      assert answers.value[..i + 1][..i] == answers.value[..i];
      if address !in addresses {
        addresses := addresses + [address];
      }
    }
    assert answers.value[..|answers.value|] == answers.value;
    if resolved {
      return Ok(addresses);
    }
    return Err(InvalidHost);
  }

  ghost function Resolved(answers: Result<seq<IpAddr>>): Result<seq<IpAddr>> {
    if answers.Err? || answers.value == [] then Err(InvalidHost) else Ok(FirstOccurrences(answers.value))
  }

  ghost predicate FirstSeenBefore(answers: seq<IpAddr>, x: IpAddr, y: IpAddr) {
    exists k :: 0 <= k <= |answers| && x in answers[..k] && y !in answers[..k]
  }

  ghost predicate InFirstSeenOrder(answers: seq<IpAddr>, r: seq<IpAddr>) {
    forall i, j :: 0 <= i < j < |r| ==> r[i] != r[j] && FirstSeenBefore(answers, r[i], r[j])
  }

  // No answer is lost, none is repeated, and resolver order is kept.
  lemma {:induction false} FirstOccurrencesSpec(answers: seq<IpAddr>)
    ensures forall x :: x in FirstOccurrences(answers) <==> x in answers
    ensures InFirstSeenOrder(answers, FirstOccurrences(answers))
  {
    if answers != [] {
      var n := |answers| - 1;
      var init, last := answers[..n], answers[n];
      var p, r := FirstOccurrences(init), FirstOccurrences(answers);
      FirstOccurrencesSpec(init);
      assert answers == init + [last];
      forall i, j | 0 <= i < j < |r| ensures r[i] != r[j] && FirstSeenBefore(answers, r[i], r[j]) {
        if j < |p| {
          SeenEarlier(init, last, p[i], p[j]);
        } else {
          assert init == answers[..n] && r[i] == p[i] && r[j] == last;
        }
      }
    }
  }

  lemma SeenEarlier(init: seq<IpAddr>, last: IpAddr, x: IpAddr, y: IpAddr)
    requires FirstSeenBefore(init, x, y)
    ensures FirstSeenBefore(init + [last], x, y)
  {
    var k :| 0 <= k <= |init| && x in init[..k] && y !in init[..k];
    assert (init + [last])[..k] == init[..k];
  }

  // A resolution that succeeds is never empty.
  lemma ResolvedNonEmpty(answers: Result<seq<IpAddr>>)
    ensures Resolved(answers).Ok? <==> answers.Ok? && answers.value != []
    ensures Resolved(answers).Ok? ==> Resolved(answers).value != []
  {
    if answers.Ok? && answers.value != [] {
      FirstOccurrencesSpec(answers.value);
      assert answers.value[0] in FirstOccurrences(answers.value);
    }
  }
}
