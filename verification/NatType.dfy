/** NAT type classification from observed reflexive addresses. */
module NatType {
  import opened Basics
  import opened Modular
  import opened Stun

  datatype NatType = Unknown | Cone | SymmetricPort | Multiple

  /** A probe's observed address, absent when the probe failed or its text did not parse. */
  type Probe = Option<SocketAddr>

  function Ip(a: SocketAddr): (bool, seq<Byte>) { (a.V4?, a.octets) }

  /** `is_private_or_loopback`. */
  predicate PrivateOrLoopback(a: SocketAddr)
    requires ValidAddr(a)
  {
    var o := a.octets;
    match a
    case V4(_, _) =>
      || o[0] == 127
      || o[0] == 10 || (o[0] == 172 && 16 <= o[1] < 32) || (o[0] == 192 && o[1] == 168)
      || (o[0] == 169 && o[1] == 254)
      || (o[0] == 100 && 64 <= o[1] < 128)
    case V6(_, _) =>
      || (o[15] <= 1 && forall i :: 0 <= i < 15 ==> o[i] == 0)
      || (o[0] == 0xfe && 0x80 <= o[1] < 0xc0)
  }

  /** An address as one big-endian number. */
  function Value(o: seq<Byte>): nat {
    if o == [] then 0 else 256 * Value(o[..|o| - 1]) + o[|o| - 1]
  }

  lemma ValueV4(o: seq<Byte>)
    requires |o| == 4
    ensures Value(o) == 0x100_0000 * (o[0] as int) + 0x1_0000 * (o[1] as int) + 256 * (o[2] as int) + o[3]
  {
    ValueTwo(o[..3][..2]);
    assert Value(o[..3]) == 256 * Value(o[..3][..2]) + o[2];
  }

  /** Which IPv4 addresses are set aside, as intervals: 10.0.0.0/8, 100.64.0.0/10, 127.0.0.0/8,
      169.254.0.0/16, 172.16.0.0/12 and 192.168.0.0/16. */
  lemma PrivateIntervalsV4(a: SocketAddr)
    requires a.V4? && ValidAddr(a)
    ensures var n := Value(a.octets);
            PrivateOrLoopback(a) <==>
            || 0x0A00_0000 <= n <= 0x0AFF_FFFF || 0x6440_0000 <= n <= 0x647F_FFFF
            || 0x7F00_0000 <= n <= 0x7FFF_FFFF || 0xA9FE_0000 <= n <= 0xA9FE_FFFF
            || 0xAC10_0000 <= n <= 0xAC1F_FFFF || 0xC0A8_0000 <= n <= 0xC0A8_FFFF
  {
    ValueV4(a.octets);
  }

  lemma {:induction false} ValueZero(o: seq<Byte>)
    ensures Value(o) == 0 <==> forall i :: 0 <= i < |o| ==> o[i] == 0
    decreases |o|
  {
    if o == [] {
    } else {
      var init := o[..|o| - 1];
      ValueZero(init);
      assert forall i :: 0 <= i < |init| ==> init[i] == o[i];
    }
  }

  function Pow256(n: nat): (p: nat)
    ensures p > 0
  {
    if n == 0 then 1 else 256 * Pow256(n - 1)
  }

  lemma {:induction false} ValueSplit(head: seq<Byte>, tail: seq<Byte>)
    ensures Value(tail) < Pow256(|tail|)
    ensures Value(head + tail) == Value(head) * Pow256(|tail|) + Value(tail)
    decreases |tail|
  {
    if tail == [] {
      assert head + tail == head;
    } else {
      var n := |tail| - 1;
      ValueSplit(head, tail[..n]);
      assert (head + tail)[..|head| + n] == head + tail[..n];
      Scale256(Value(head), Pow256(n));
    }
  }

  lemma Scale256(v: nat, p: nat)
    ensures 256 * (v * p) == v * (256 * p)
  {}

  /** A number h * p + r with r < p lies in an interval of whole multiples of p exactly if h does. */
  lemma WholeMultiples(h: nat, p: nat, r: nat, lo: nat, hi: nat)
    requires r < p
    ensures lo * p <= h * p + r < hi * p <==> lo <= h < hi
  {
    if lo <= h { MulMono(lo, h, p); } else { MulMono(h + 1, lo, p); MulSum(h, p); }
    if h < hi { MulMono(h + 1, hi, p); MulSum(h, p); } else { MulMono(hi, h, p); }
  }

  lemma MulSum(h: nat, p: nat)
    ensures (h + 1) * p == h * p + p
  {}

  /** Which IPv6 addresses are set aside: the unspecified and the loopback address, and fe80::/10. */
  lemma PrivateIntervalsV6(a: SocketAddr)
    requires a.V6? && ValidAddr(a)
    ensures var n, unit := Value(a.octets), Pow256(14);
            PrivateOrLoopback(a) <==> n <= 1 || 0xfe80 * unit <= n < 0xfec0 * unit
  {
    LowValues(a.octets);
    LinkLocal(a.octets, Pow256(14));
  }

  lemma LowValues(o: seq<Byte>)
    requires |o| == 16
    ensures Value(o) <= 1 <==> o[15] <= 1 && forall i :: 0 <= i < 15 ==> o[i] == 0
  {
    var init := o[..15];
    ValueZero(init);
    assert forall i :: 0 <= i < 15 ==> init[i] == o[i];
    assert Value(o) == 256 * Value(init) + o[15];
  }

  lemma LinkLocal(o: seq<Byte>, unit: nat)
    requires |o| >= 2 && unit == Pow256(|o| - 2)
    ensures 0xfe80 * unit <= Value(o) < 0xfec0 * unit <==> o[0] == 0xfe && 0x80 <= o[1] < 0xc0
  {
    var head, tail := o[..2], o[2..];
    assert o == head + tail;
    ValueSplit(head, tail);
    ValueTwo(head);
    HighPart(Value(o), Value(head), unit, Value(tail));
  }

  lemma HighPart(n: nat, h: nat, unit: nat, r: nat)
    requires n == h * unit + r && r < unit
    ensures 0xfe80 * unit <= n < 0xfec0 * unit <==> 0xfe80 <= h < 0xfec0
  {
    WholeMultiples(h, unit, r, 0xfe80, 0xfec0);
  }

  lemma ValueTwo(o: seq<Byte>)
    requires |o| == 2
    ensures Value(o) == 256 * (o[0] as int) + o[1]
  {
    assert o[..1][..0] == [];
    assert Value(o[..1]) == o[0];
  }

  /** Whether a probe says anything about the public side of the NAT. */
  predicate Counts(p: Probe) {
    p.Some? && ValidAddr(p.value) && !PrivateOrLoopback(p.value)
  }

  /** The public observations, in probe order. */
  function Public(probes: seq<Probe>): seq<SocketAddr> {
    if probes == [] then []
    else
      var rest := Public(probes[1..]);
      if Counts(probes[0]) then [probes[0].value] + rest else rest
  }

  /** `classify_nat`. */
  function ClassifyNat(probes: seq<Probe>): (NatType, Option<SocketAddr>) {
    Classify(Public(probes))
  }

  function Classify(s: seq<SocketAddr>): (NatType, Option<SocketAddr>) {
    if |s| < 2 then (Unknown, None)
    else if exists i :: 0 <= i < |s| && Ip(s[i]) != Ip(s[0]) then (Multiple, None)
    else if forall i :: 0 <= i < |s| ==> s[i].port == s[0].port then (Cone, Some(s[0]))
    else (SymmetricPort, None)
  }

  // ---------------------------------------------------------------- order-free reading

  ghost predicate SameIps(m: multiset<SocketAddr>) {
    forall a, b :: a in m && b in m ==> Ip(a) == Ip(b)
  }

  ghost predicate SameAddrs(m: multiset<SocketAddr>) {
    forall a, b :: a in m && b in m ==> a == b
  }

  /** The classification read off the bag of public observations. */
  ghost predicate Reads(m: multiset<SocketAddr>, r: (NatType, Option<SocketAddr>)) {
    match r.0
    case Unknown => |m| < 2 && r.1 == None
    case Cone => |m| >= 2 && SameAddrs(m) && r.1.Some? && r.1.value in m
    case SymmetricPort => |m| >= 2 && SameIps(m) && !SameAddrs(m) && r.1 == None
    case Multiple => |m| >= 2 && !SameIps(m) && r.1 == None
  }

  lemma ReadsIsUnique(m: multiset<SocketAddr>, r: (NatType, Option<SocketAddr>), q: (NatType, Option<SocketAddr>))
    requires Reads(m, r) && Reads(m, q)
    ensures r == q
  {
    if SameAddrs(m) {
      assert SameIps(m);
    }
  }

  lemma ClassifyReads(s: seq<SocketAddr>)
    ensures Reads(multiset(s), Classify(s))
  {
    var m := multiset(s);
    assert forall a :: a in m <==> a in s;
    assert |m| == |s|;
    if |s| >= 2 {
      assert s[0] in m;
      if i :| 0 <= i < |s| && Ip(s[i]) != Ip(s[0]) {
        assert s[i] in m;
      } else if forall i :: 0 <= i < |s| ==> s[i].port == s[0].port {
        forall a, b | a in m && b in m ensures a == b {
          SameAsFirst(s, a);
          SameAsFirst(s, b);
        }
      } else {
        var i :| 0 <= i < |s| && s[i].port != s[0].port;
        assert s[i] in m && s[i] != s[0];
      }
    }
  }

  lemma SameAsFirst(s: seq<SocketAddr>, a: SocketAddr)
    requires s != [] && a in s
    requires forall i :: 0 <= i < |s| ==> Ip(s[i]) == Ip(s[0])
    requires forall i :: 0 <= i < |s| ==> s[i].port == s[0].port
    ensures a == s[0]
  {
    var i :| 0 <= i < |s| && s[i] == a;
  }

  // ---------------------------------------------------------------- main results

  /** The answer depends only on the bag of public observations: reordering probes, or inserting
      failed, private, loopback or carrier-grade ones, changes nothing. */
  lemma OnlyPublicBagMatters(p: seq<Probe>, q: seq<Probe>)
    requires multiset(Public(p)) == multiset(Public(q))
    ensures ClassifyNat(p) == ClassifyNat(q)
  {
    ClassifyReads(Public(p));
    ClassifyReads(Public(q));
    ReadsIsUnique(multiset(Public(p)), ClassifyNat(p), ClassifyNat(q));
  }

  lemma {:induction false} PublicConcat(p: seq<Probe>, q: seq<Probe>)
    ensures Public(p + q) == Public(p) + Public(q)
    decreases |p|
  {
    if p == [] {
      assert p + q == q;
    } else {
      assert (p + q)[1..] == p[1..] + q;
      PublicConcat(p[1..], q);
    }
  }

  /** Inserting probes that do not count, anywhere. */
  lemma NoiseIsIgnored(before: seq<Probe>, noise: seq<Probe>, after: seq<Probe>)
    requires forall i :: 0 <= i < |noise| ==> !Counts(noise[i])
    ensures ClassifyNat(before + noise + after) == ClassifyNat(before + after)
  {
    NoisePublic(noise);
    PublicConcat(before, noise);
    PublicConcat(before + noise, after);
    PublicConcat(before, after);
    assert Public(before) + [] == Public(before);
  }

  lemma {:induction false} NoisePublic(noise: seq<Probe>)
    requires forall i :: 0 <= i < |noise| ==> !Counts(noise[i])
    ensures Public(noise) == []
    decreases |noise|
  {
    if noise == [] {
    } else {
      NoisePublic(noise[1..]);
    }
  }

  /** More probes, more public observations. */
  lemma {:induction false} PublicBag(p: seq<Probe>, q: seq<Probe>)
    requires multiset(p) <= multiset(q)
    ensures multiset(Public(p)) <= multiset(Public(q))
    decreases |p|
  {
    if p == [] {
    } else {
      var x := p[0];
      assert x in multiset(p);
      var k :| 0 <= k < |q| && q[k] == x;
      var q' := q[..k] + q[k + 1..];
      RemoveProbe(q, k);
      assert p == [x] + p[1..];
      assert multiset(p[1..]) == multiset(p) - multiset{x};
      PublicBag(p[1..], q');
      PublicConcat([x], p[1..]);
    }
  }

  lemma RemoveProbe(q: seq<Probe>, k: nat)
    requires k < |q|
    ensures var q' := q[..k] + q[k + 1..];
            && multiset(q') == multiset(q) - multiset{q[k]}
            && multiset(Public(q)) == multiset(Public([q[k]])) + multiset(Public(q'))
  {
    assert q == q[..k] + ([q[k]] + q[k + 1..]);
    PublicConcat(q[..k], q[k + 1..]);
    PublicConcat(q[..k], [q[k]] + q[k + 1..]);
    PublicConcat([q[k]], q[k + 1..]);
  }

  /** Reordering the probes changes nothing. */
  lemma OrderIsIrrelevant(p: seq<Probe>, q: seq<Probe>)
    requires multiset(p) == multiset(q)
    ensures ClassifyNat(p) == ClassifyNat(q)
  {
    PublicBag(p, q);
    PublicBag(q, p);
    OnlyPublicBagMatters(p, q);
  }

  function Rank(t: NatType): nat {
    match t case Unknown => 0 case Cone => 1 case SymmetricPort => 2 case Multiple => 3
  }

  /** Adding probes, wherever they are inserted, only climbs Unknown, Cone, SymmetricPort, Multiple. */
  lemma MoreProbesOnlyClimb(p: seq<Probe>, q: seq<Probe>)
    requires multiset(p) <= multiset(q)
    ensures Rank(ClassifyNat(p).0) <= Rank(ClassifyNat(q).0)
  {
    var m, n := multiset(Public(p)), multiset(Public(q));
    PublicBag(p, q);
    ClassifyReads(Public(p));
    ClassifyReads(Public(q));
    assert n == m + (n - m) && |n| == |m| + |n - m|;
    assert forall a :: a in m ==> a in n;
  }

  /** A consensus address is reported exactly at Cone, and every public probe observed it. */
  lemma ConsensusExactlyAtCone(p: seq<Probe>)
    ensures ClassifyNat(p).1.Some? <==> ClassifyNat(p).0 == Cone
    ensures ClassifyNat(p).0 == Cone ==>
            |Public(p)| >= 2 && forall a :: a in Public(p) ==> a == ClassifyNat(p).1.value
  {
    ClassifyReads(Public(p));
    var m := multiset(Public(p));
    assert forall a :: a in Public(p) ==> a in m;
  }
}
