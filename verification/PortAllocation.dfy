/** NAT port-allocation classification and port prediction. Ports are residues mod 65536; a
    delta is the 16-bit signed representative of the difference of two consecutive ports. */
module PortAllocation {
  import opened Basics
  import opened Modular

  type Port = x: int | 0 <= x < 65536
  type Delta = x: int | -32768 <= x < 32768


  datatype PortAllocation = PortPreserving | Sequential(delta: Delta) | Random | Unknown

  /** `as i16`: keep the low 16 bits. */
  function Wrap16(x: int): Delta { (x + 32768) % 65536 - 32768 }

  /** The delta closure of `classify_port_allocation`. */
  function DeltaOf(p: Port, q: Port): Delta {
    var d := q - p;
    if d > 32768 then Wrap16(d - 65536)
    else if d < -32768 then Wrap16(d + 65536)
    else Wrap16(d)
  }

  /** Each delta is the unique 16-bit signed number congruent to the port difference. */
  lemma DeltaIsTheResidue(p: Port, q: Port, e: Delta)
    ensures DeltaOf(p, q) == Wrap16(q - p)
    ensures (q - p - DeltaOf(p, q)) % 65536 == 0
    ensures (q - p - e) % 65536 == 0 ==> e == DeltaOf(p, q)
  {}

  function Deltas(ports: seq<Port>): (ds: seq<Delta>)
    requires |ports| >= 1
    ensures |ds| == |ports| - 1
  {
    seq(|ports| - 1, i requires 0 <= i < |ports| - 1 => DeltaOf(ports[i], ports[i + 1]))
  }

  predicate AllSame(ports: seq<Port>) {
    forall i :: 0 <= i < |ports| ==> ports[i] == ports[0]
  }

  /** Within one of the first delta, by a wrapping 16-bit difference. */
  predicate AllClose(ds: seq<Delta>) {
    forall i :: 0 <= i < |ds| ==> -1 <= Wrap16(ds[i] as int - ds[0]) <= 1
  }

  function Count(ds: seq<Delta>, d: Delta): nat { multiset(ds)[d] }

  /** `(len * 0.6).ceil()`. */
  function Threshold(n: nat): nat { (3 * n + 4) / 5 }

  /** A non-zero delta that at least 60% of the steps agree on. */
  predicate Dominant(ds: seq<Delta>, d: Delta) {
    d != 0 && Count(ds, d) >= Threshold(|ds|)
  }

  /** What a port sequence is classified as, with no reference to any iteration order. */
  ghost function Classify(ports: seq<Port>): PortAllocation {
    if |ports| < 2 then Unknown
    else if AllSame(ports) then PortPreserving
    else if |ports| < 3 then Unknown
    else
      var ds := Deltas(ports);
      if ds[0] == 0 then Random
      else if AllClose(ds) then Sequential(ds[0])
      else if exists d: Delta :: Dominant(ds, d) then
        var d: Delta :| Dominant(ds, d); Sequential(d)
      else Random
  }

  /** The threshold is the least count that is at least 60% of the steps. */
  lemma ThresholdIsLeast(n: nat, k: nat)
    ensures 5 * Threshold(n) >= 3 * n
    ensures 5 * k >= 3 * n ==> k >= Threshold(n)
  {}

  lemma {:induction false} TwoCounts(ds: seq<Delta>, a: Delta, b: Delta)
    requires a != b
    ensures Count(ds, a) + Count(ds, b) <= |ds|
    decreases |ds|
  {
    if ds == [] {
    } else {
      assert ds == ds[..|ds| - 1] + [ds[|ds| - 1]];
      TwoCounts(ds[..|ds| - 1], a, b);
    }
  }

  /** A delta that reaches the threshold outnumbers every other, so the most common delta is
      unique whenever it matters. */
  lemma ThresholdIsUniqueMaximum(ds: seq<Delta>, d: Delta, e: Delta)
    requires |ds| > 0 && Count(ds, d) >= Threshold(|ds|) && e != d
    ensures Count(ds, e) < Count(ds, d)
  {
    TwoCounts(ds, d, e);
  }

  lemma DominantIsUnique(ds: seq<Delta>, d: Delta, e: Delta)
    requires |ds| > 0 && Dominant(ds, d) && Dominant(ds, e)
    ensures d == e
  {
    if d != e {
      ThresholdIsUniqueMaximum(ds, d, e);
      ThresholdIsUniqueMaximum(ds, e, d);
    }
  }

  /** A most common delta, scanning the counts in whatever order the hash map yields them. */
  method MostCommon(ds: seq<Delta>, counts: map<Delta, nat>) returns (best: Delta, count: nat)
    requires ds != []
    requires forall d: Delta :: d in counts <==> d in ds
    requires forall d: Delta :: d in counts ==> counts[d] == Count(ds, d)
    ensures count == Count(ds, best)
    ensures forall d: Delta :: Count(ds, d) <= count
  {
    var first :| first in counts.Keys by {
      assert ds[0] in counts.Keys;
    }
    best, count := first, counts[first];
    var keys := counts.Keys - {first};
    while keys != {}
      invariant keys <= counts.Keys
      invariant best in counts && count == counts[best]
      invariant forall d: Delta :: d in counts && d !in keys ==> counts[d] <= count
    {
      var k :| k in keys;
      if counts[k] >= count {
        best, count := k, counts[k];
      }
      keys := keys - {k};
    }
    forall d: Delta ensures Count(ds, d) <= count {
      if d !in counts {
        assert d !in multiset(ds);
      }
    }
  }

  method CountDeltas(ds: seq<Delta>) returns (counts: map<Delta, nat>)
    ensures forall d: Delta :: d in counts <==> d in ds
    ensures forall d: Delta :: d in counts ==> counts[d] == Count(ds, d)
  {
    counts := map[];
    var i := 0;
    while i < |ds|
      invariant 0 <= i <= |ds|
      invariant forall d: Delta :: d in counts <==> d in ds[..i]
      invariant forall d: Delta :: d in counts ==> counts[d] == Count(ds[..i], d)
    {
      var d := ds[i];
      assert ds[..i + 1] == ds[..i] + [d];
      assert d !in ds[..i] ==> d !in multiset(ds[..i]);
      counts := counts[d := (if d in counts then counts[d] else 0) + 1];
      i := i + 1;
    }
    assert ds[..|ds|] == ds;
  }

  /** `classify_port_allocation`. */
  method ClassifyPortAllocation(ports: seq<Port>) returns (r: PortAllocation)
    ensures r == Classify(ports)
  {
    if |ports| < 2 {
      return Unknown;
    }
    if AllSame(ports) {
      return PortPreserving;
    }
    if |ports| < 3 {
      return Unknown;
    }
    var ds := Deltas(ports);
    if ds[0] == 0 {
      return Random;
    }
    if AllClose(ds) {
      return Sequential(ds[0]);
    }
    var counts := CountDeltas(ds);
    var best, count := MostCommon(ds, counts);
    if count >= Threshold(|ds|) && best != 0 {
      assert Dominant(ds, best);
      forall d: Delta | Dominant(ds, d) ensures d == best {
        DominantIsUnique(ds, d, best);
      }
      return Sequential(best);
    }
    forall d: Delta ensures !Dominant(ds, d) {
      if Dominant(ds, d) && d != best {
        ThresholdIsUniqueMaximum(ds, d, best);
      }
    }
    return Random;
  }

  /** A non-zero delta that at least 60% of the steps share is reported exactly if the list does not start
      with a repeated port, and the jitter branch does not report another delta first. */
  lemma DominantIsReportedExactlyWhen(ports: seq<Port>, d: Delta)
    requires |ports| >= 3 && Dominant(Deltas(ports), d)
    ensures var ds := Deltas(ports);
            Classify(ports) == Sequential(d) <==> ds[0] != 0 && (AllClose(ds) ==> ds[0] == d)
  {
    var ds := Deltas(ports);
    if AllSame(ports) {
      forall i | 0 <= i < |ds| ensures ds[i] == 0 {
        ZeroDelta(ports[i], ports[i + 1]);
      }
    } else if ds[0] != 0 && !AllClose(ds) {
      forall e: Delta | Dominant(ds, e) ensures e == d {
        DominantIsUnique(ds, e, d);
      }
    }
  }

  /** So four equal steps of five are not enough when the first port is repeated. */
  lemma RepeatedFirstPortIsRandom()
    ensures Deltas([1000, 1000, 1001, 1002, 1003, 1004]) == [0, 1, 1, 1, 1]
    ensures Classify([1000, 1000, 1001, 1002, 1003, 1004]) == Random
  {
    var ports: seq<Port> := [1000, 1000, 1001, 1002, 1003, 1004];
    assert DeltaOf(1000, 1000) == 0 && DeltaOf(1000, 1001) == 1 && DeltaOf(1001, 1002) == 1;
    assert DeltaOf(1002, 1003) == 1 && DeltaOf(1003, 1004) == 1;
    assert Deltas(ports) == [0, 1, 1, 1, 1];
    assert ports[2] != ports[0];
  }

  /** When nothing can be said: fewer than two ports, or two that differ. */
  lemma UnknownExactlyWhen(ports: seq<Port>)
    ensures Classify(ports) == Unknown <==> |ports| < 2 || (|ports| == 2 && ports[0] != ports[1])
    ensures Classify(ports) == PortPreserving <==> |ports| >= 2 && AllSame(ports)
  {}

  // ---------------------------------------------------------------- rotation

  function Rotate(ports: seq<Port>, c: int): (r: seq<Port>)
    ensures |r| == |ports|
  {
    seq(|ports|, i requires 0 <= i < |ports| => (ports[i] + c) % 65536)
  }

  /** Adding a constant mod 65536 to every port changes nothing. */
  lemma RotationInvariant(ports: seq<Port>, c: int)
    ensures Classify(Rotate(ports, c)) == Classify(ports)
  {
    var r := Rotate(ports, c);
    if |ports| >= 2 {
      RotationKeepsSameness(ports, c);
      forall i | 0 <= i < |ports| - 1 ensures Deltas(r)[i] == Deltas(ports)[i] {
        RotatedDelta(ports[i], ports[i + 1], c);
      }
      assert Deltas(r) == Deltas(ports);
    }
  }

  lemma WrapShift(x: int, k: int)
    ensures Wrap16(x + 65536 * k) == Wrap16(x)
  {
    ModShift(x + 32768, 65536, k);
  }

  lemma RotatedDelta(p: Port, q: Port, c: int)
    ensures DeltaOf((p + c) % 65536, (q + c) % 65536) == DeltaOf(p, q)
  {
    var p', q' := (p + c) % 65536, (q + c) % 65536;
    DeltaIsTheResidue(p, q, 0);
    DeltaIsTheResidue(p', q', 0);
    var k, l := (p + c) / 65536, (q + c) / 65536;
    assert p' == p + c - 65536 * k && q' == q + c - 65536 * l;
    WrapShift(q - p, k - l);
  }

  lemma RotationKeepsSameness(ports: seq<Port>, c: int)
    ensures AllSame(Rotate(ports, c)) <==> AllSame(ports)
  {
    var r := Rotate(ports, c);
    if AllSame(r) {
      forall i | 0 <= i < |ports| ensures ports[i] == ports[0] {
        assert r[i] == r[0];
      }
    }
  }

  // ---------------------------------------------------------------- sequential NATs

  /** Port of the k-th flow of a NAT that steps by d. */
  function PortOf(p0: int, d: int, k: int): Port { (p0 + k * d) % 65536 }

  function Observed(p0: int, d: int, n: nat): (ports: seq<Port>)
    ensures |ports| == n
  {
    seq(n, k => PortOf(p0, d, k))
  }

  lemma StepDelta(p0: int, d: int, k: int)
    ensures DeltaOf(PortOf(p0, d, k), PortOf(p0, d, k + 1)) == Wrap16(d)
  {
    assert (k + 1) * d == k * d + d;
    ShiftDelta(p0 + k * d, d);
  }

  lemma ShiftDelta(x: int, d: int)
    ensures DeltaOf(x % 65536, (x + d) % 65536) == Wrap16(d)
  {
    var p, q := x % 65536, (x + d) % 65536;
    DeltaIsTheResidue(p, q, 0);
    assert (q - p - d) % 65536 == 0;
    WrapCongruent(q - p, d);
  }

  lemma WrapCongruent(a: int, b: int)
    requires (a - b) % 65536 == 0
    ensures Wrap16(a) == Wrap16(b)
  {}

  lemma ZeroDelta(p: Port, q: Port)
    ensures DeltaOf(p, q) == 0 <==> p == q
  {}

  lemma ProgressionDeltas(p0: int, d: int, n: nat)
    requires n >= 1
    ensures forall i :: 0 <= i < n - 1 ==> Deltas(Observed(p0, d, n))[i] == Wrap16(d)
  {
    forall i | 0 <= i < n - 1 ensures Deltas(Observed(p0, d, n))[i] == Wrap16(d) {
      StepDelta(p0, d, i);
    }
  }

  /** Three or more ports in arithmetic progression mod 65536 are classified as Sequential with
      the 16-bit representative of the step. */
  lemma ProgressionIsSequential(p0: int, d: int, n: nat)
    requires n >= 3 && d % 65536 != 0
    ensures Classify(Observed(p0, d, n)) == Sequential(Wrap16(d))
  {
    var ports := Observed(p0, d, n);
    ProgressionDeltas(p0, d, n);
    NonZeroStep(d);
    ConstantSteps(ports, Wrap16(d));
  }

  lemma NonZeroStep(d: int)
    requires d % 65536 != 0
    ensures Wrap16(d) != 0
  {}

  /** Equal, non-zero steps throughout. */
  lemma ConstantSteps(ports: seq<Port>, e: Delta)
    requires |ports| >= 3 && e != 0 && forall i :: 0 <= i < |ports| - 1 ==> Deltas(ports)[i] == e
    ensures Classify(ports) == Sequential(e)
  {
    var ds := Deltas(ports);
    ZeroDelta(ports[0], ports[1]);
    assert ds[0] == e && ports[1] != ports[0];
    assert Wrap16(0) == 0;
    assert forall i :: 0 <= i < |ds| ==> ds[i] as int - ds[0] == 0;
    assert AllClose(ds);
  }

  /** The jitter branch reports the first delta, not the most common one as its comment says. */
  lemma JitterReportsFirstDelta()
    ensures Deltas([1000, 1002, 1003, 1004, 1005]) == [2, 1, 1, 1]
    ensures Classify([1000, 1002, 1003, 1004, 1005]) == Sequential(2)
  {
    var ports: seq<Port> := [1000, 1002, 1003, 1004, 1005];
    var ds := Deltas(ports);
    assert ds == [2, 1, 1, 1] by {
      assert DeltaOf(1000, 1002) == 2 && DeltaOf(1002, 1003) == 1;
      assert DeltaOf(1003, 1004) == 1 && DeltaOf(1004, 1005) == 1;
    }
    assert ports[1] != ports[0];
    assert Wrap16(0) == 0 && Wrap16(-1) == -1;
    assert AllClose(ds);
  }

  /** The delta k above d, wrapping. */
  function Near(d: int, k: int): Delta { Wrap16(d + k) }

  /** In the jitter branch the reported first delta is a most common one exactly when neither of its
      two neighbours is more frequent. */
  lemma JitterDeltaIsMode(ports: seq<Port>, ds: seq<Delta>)
    requires |ports| >= 3 && !AllSame(ports) && ds == Deltas(ports) && ds[0] != 0 && AllClose(ds)
    ensures Classify(ports) == Sequential(ds[0])
    ensures (forall e: Delta :: Count(ds, e) <= Count(ds, ds[0])) <==>
            Count(ds, Near(ds[0], -1)) <= Count(ds, ds[0]) && Count(ds, Near(ds[0], 1)) <= Count(ds, ds[0])
  {
    forall e: Delta ensures Count(ds, e) == 0 || e == ds[0] || e == Near(ds[0], -1) || e == Near(ds[0], 1) {
      if Count(ds, e) > 0 {
        PresentIsNear(ds, e);
      }
    }
  }

  lemma PresentIsNear(ds: seq<Delta>, e: Delta)
    requires ds != [] && AllClose(ds) && Count(ds, e) > 0
    ensures e == ds[0] || e == Near(ds[0], -1) || e == Near(ds[0], 1)
  {
    assert e in multiset(ds);
    var i :| 0 <= i < |ds| && ds[i] == e;
    Neighbour(e, ds[0]);
  }

  lemma Neighbour(e: Delta, d: Delta)
    requires -1 <= Wrap16(e as int - d) <= 1
    ensures e == d || e == Near(d, -1) || e == Near(d, 1)
  {}

  // ---------------------------------------------------------------- prediction

  /** Port reached from `last` after m steps of delta. */
  function Predicted(last: Port, delta: Delta, m: int): Port { (last + delta * m) % 65536 }

  lemma ProductBounds(delta: Delta, m: int)
    requires -65534 <= m <= 65536
    ensures -0x8000_0000 <= delta * m
    ensures delta * m + 65535 < 0x8000_0000
  {
    if m >= 0 {
      assert delta * m <= 32767 * m by { MulMono(delta, 32767, m); }
      assert delta * m >= -32768 * m by { MulMono(-32768, delta, m); }
    } else {
      var e := 0 - delta as int;
      assert delta * m == e * (-m);
      assert e * (-m) <= 32768 * (-m) by { MulMono(e, 32768, -m); }
      assert e * (-m) >= -32767 * (-m) by { MulMono(-32767, e, -m); }
    }
  }

  /** Rust `%`: the remainder takes the sign of the dividend. */
  function TruncatedRem(a: i32, b: i32): i32
    requires b > 0
  {
    if a >= 0 then a % b else -((-(a as int)) % (b as int)) as i32
  }

  /** The code's two-step reduction is the Euclidean remainder. */
  lemma DoubleRem(q: i32)
    ensures -65536 < TruncatedRem(q, 65536) < 65536
    ensures TruncatedRem(TruncatedRem(q, 65536) + 65536, 65536) as int == q as int % 65536
  {
    var a := q as int;
    if a < 0 {
      assert TruncatedRem(q, 65536) as int == -((-a) % 65536);
    }
  }

  predicate Increasing(s: seq<Port>) {
    forall i, j :: 0 <= i < j < |s| ==> s[i] < s[j]
  }

  /** Insertion that keeps one copy: sorting followed by removing adjacent duplicates. */
  function Insert(x: Port, s: seq<Port>): (r: seq<Port>)
    requires Increasing(s)
    ensures Increasing(r)
    ensures forall y: Port :: y in r <==> y == x || y in s
  {
    if s == [] then [x]
    else if x < s[0] then [x] + s
    else if x == s[0] then s
    else
      var t := Insert(x, s[1..]);
      assert forall y: Port :: y in s <==> y == s[0] || y in s[1..];
      assert forall i :: 0 <= i < |t| ==> t[i] in t;
      [s[0]] + t
  }

  function SortDedup(s: seq<Port>): (r: seq<Port>)
    ensures Increasing(r)
    ensures forall y: Port :: y in r <==> y in s
  {
    if s == [] then [] else Insert(s[|s| - 1], SortDedup(s[..|s| - 1]))
  }

  /** i32 arithmetic as a release build runs it: modulo 2^32. */
  function ToI32(x: int): i32 { ((x + 0x8000_0000) % 0x1_0000_0000 - 0x8000_0000) as i32 }
  function Add(a: i32, b: i32): i32 { ToI32(a as int + b as int) }
  function Mul(a: i32, b: i32): i32 { ToI32(a as int * b as int) }

  /** Wrapping at 2^32 keeps the residue mod 65536. */
  lemma ToI32Residue(x: int)
    ensures ToI32(x) as int % 65536 == x % 65536
  {
    var q := (x + 0x8000_0000) / 0x1_0000_0000;
    assert ToI32(x) as int == x + (-65536 * q) * 65536;
    ModShift(x, 65536, -65536 * q);
  }

  lemma AddResidue(a: i32, b: i32, x: int, y: int)
    requires a as int % 65536 == x % 65536 && b as int % 65536 == y % 65536
    ensures Add(a, b) as int % 65536 == (x + y) % 65536
  {
    ToI32Residue(a as int + b as int);
    ModAdd(a as int, b as int, 65536);
    ModAdd(x, b as int, 65536);
    ModAdd(b as int, x, 65536);
    ModAdd(y, x, 65536);
  }

  /** `predict_ports`, for all arguments: the result is exactly the non-zero predicted residues, in
      increasing order, even where the i32 sums wrap. */
  method PredictPorts(lastPort: Port, delta: Delta, offset: Port, spread: Port) returns (ports: seq<Port>)
    ensures Increasing(ports)
    ensures forall q: Port :: q in ports <==> q != 0 && InRange(lastPort, delta, offset, spread, q)
  {
    var base := Add(lastPort as i32, Mul(delta as i32, offset as i32 + 1));
    ToI32Residue(delta * (offset + 1));
    AddResidue(lastPort as i32, Mul(delta as i32, offset as i32 + 1), lastPort, delta * (offset + 1));
    var found: seq<Port> := [];
    var i: i32 := -(spread as i32);
    while i <= spread as i32
      invariant -(spread as int) <= i as int <= spread as int + 1
      invariant forall q: Port :: q in found <==> q != 0 && Reached(lastPort, delta, offset, spread, i as int, q)
    {
      var p := PredictOne(lastPort, delta, offset, base, i);
      if p > 0 && p <= 65535 {
        found := found + [p as int];
      }
      i := i + 1;
    }
    ports := SortDedup(found);
  }

  /** q is predicted for some number of steps within `spread` of offset + 1. */
  ghost predicate InRange(last: Port, delta: Delta, offset: Port, spread: Port, q: Port) {
    Reached(last, delta, offset, spread, spread + 1, q)
  }

  ghost predicate Reached(last: Port, delta: Delta, offset: Port, spread: Port, end: int, q: Port) {
    exists m :: offset + 1 - spread <= m < offset + 1 + end && q == Predicted(last, delta, m)
  }

  /** One turn of the prediction loop. */
  method PredictOne(lastPort: Port, delta: Delta, offset: Port, base: i32, i: i32) returns (p: i32)
    requires base as int % 65536 == (lastPort + delta * (offset + 1)) % 65536
    ensures p as int == Predicted(lastPort, delta, offset + 1 + i as int)
  {
    var q := Add(base, Mul(i, delta as i32));
    ToI32Residue(i as int * delta);
    AddResidue(base, Mul(i, delta as i32), lastPort + delta * (offset + 1), i as int * delta);
    assert delta * (offset + 1) + i as int * delta == delta * (offset + 1 + i as int);
    DoubleRem(q);
    p := TruncatedRem(TruncatedRem(q, 65536) + 65536, 65536);
  }

  /** In a build with overflow checks: the i32 sums fit for every port and delta if and only if
      offset + spread is at most 65535. */
  lemma OverflowBoundIsTight(offset: Port, spread: Port)
    ensures offset + spread <= 65535 <==>
            forall last: Port, delta: Delta, m: int :: offset + 1 - spread <= m <= offset + 1 + spread ==>
              -0x8000_0000 <= SumAt(last, delta, m) < 0x8000_0000
  {
    if offset + spread <= 65535 {
      forall last: Port, delta: Delta, m: int | offset + 1 - spread <= m <= offset + 1 + spread
        ensures -0x8000_0000 <= SumAt(last, delta, m) < 0x8000_0000
      {
        ProductBounds(delta, m);
      }
    } else {
      var m: int := offset + 1 + spread;
      MulMono(65537, m, 32767);
      assert SumAt(65535, 32767, m) >= 0x8000_0000;
    }
  }

  function SumAt(last: Port, delta: Delta, m: int): int { last + delta * m }

  lemma CongruentSteps(x: int, d: int, m: int)
    ensures (x % 65536 + Wrap16(d) * m) % 65536 == (x + d * m) % 65536
  {
    var t := (d - Wrap16(d)) / 65536;
    assert d == Wrap16(d) + 65536 * t;
    var w := Wrap16(d);
    assert d * m == w * m + (t * m) * 65536 by {
      assert (w + 65536 * t) * m == w * m + 65536 * (t * m);
    }
    ModShift(x + w * m, 65536, t * m);
    ModAdd(x, w * m, 65536);
  }

  lemma NextIsPredicted(p0: int, d: int, n: nat, j: nat)
    requires n > 0
    ensures PortOf(p0, d, n + j) == Predicted(PortOf(p0, d, n - 1), Wrap16(d), j + 1)
  {
    CongruentSteps(p0 + (n - 1) * d, d, j + 1);
    assert (n + j) * d == (n - 1) * d + d * (j + 1);
  }

  /** A NAT that steps by d is classified Sequential, and if j more flows open before ours with
      |j - offset| <= spread, the port our flow gets is in range of the last observation. */
  lemma NextPortIsPredicted(p0: int, d: int, n: nat, j: nat, offset: Port, spread: Port)
    requires n >= 3 && d % 65536 != 0
    requires offset <= j + spread && j <= offset + spread
    ensures Classify(Observed(p0, d, n)) == Sequential(Wrap16(d))
    ensures InRange(Observed(p0, d, n)[n - 1], Wrap16(d), offset, spread, PortOf(p0, d, n + j))
  {
    ProgressionIsSequential(p0, d, n);
    NextIsPredicted(p0, d, n, j);
  }

  /** End to end: classify the observations, predict from the last one, and the next flow's port,
      unless it is 0, is on the list. */
  method PredictNext(observed: seq<Port>, offset: Port, spread: Port, ghost p0: int, ghost d: int, ghost j: nat)
    returns (ports: seq<Port>)
    requires |observed| >= 3 && observed == Observed(p0, d, |observed|) && d % 65536 != 0
    requires offset <= j + spread && j <= offset + spread
    ensures var next := PortOf(p0, d, |observed| + j); next != 0 ==> next in ports
  {
    NextPortIsPredicted(p0, d, |observed|, j, offset, spread);
    var allocation := ClassifyPortAllocation(observed);
    ports := PredictPorts(observed[|observed| - 1], allocation.delta, offset, spread);
  }
}
