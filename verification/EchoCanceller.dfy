/** The echo canceller: a delay ring feeding a circular far-end window feeding an NLMS filter.
    Arithmetic is over reals. The specification speaks about the stream of far-end samples fed
    so far; the two rings and their index arithmetic appear only in the code. */
module EchoCanceller {
  import opened Basics
  import opened Modular

  function Abs(x: real): real { if x < 0.0 then -x else x }

  // ---------------------------------------------------------------- history rings

  /** The sample d places back in a history, silence before its beginning. */
  function Past(h: seq<real>, d: int): real {
    if 1 <= d <= |h| then h[|h| - d] else 0.0
  }

  /** `buf` holds the last |buf| samples of `h`, sample j in slot j mod |buf|. */
  ghost predicate Ring(buf: seq<real>, h: seq<real>) {
    |buf| > 0 && forall d :: 1 <= d <= |buf| ==> buf[(|h| - d) % |buf|] == Past(h, d)
  }

  lemma RingPush(buf: seq<real>, h: seq<real>, x: real)
    requires Ring(buf, h)
    ensures Ring(buf[|h| % |buf| := x], h + [x])
  {
    var n := |buf|;
    var buf', h' := buf[|h| % n := x], h + [x];
    forall d | 1 <= d <= n ensures buf'[(|h'| - d) % n] == Past(h', d) {
      if d >= 2 {
        ModDistinct(|h'| - d, |h|, n);
        assert buf[(|h| - (d - 1)) % n] == Past(h, d - 1);
      }
    }
  }

  /** What slot p mod n of a ring holds: the newest sample congruent to p. */
  function Survivor(h: seq<real>, p: nat, n: nat): real
    requires n > 0 && p < |h|
  {
    Past(h, 1 + (|h| - 1 - p) % n)
  }

  lemma RingAt(buf: seq<real>, h: seq<real>, p: nat)
    requires Ring(buf, h) && p < |h|
    ensures buf[p % |buf|] == Survivor(h, p, |buf|)
  {
    var n := |buf|;
    var x := |h| - 1 - p;
    var d := 1 + x % n;
    assert x == n * (x / n) + x % n;
    assert (x / n) * n == n * (x / n);
    ModShift(p, n, x / n);
    assert |h| - d == p + (x / n) * n;
    assert buf[(|h| - d) % n] == Past(h, d);
  }

  /** The survivor is the sample itself exactly when at most n samples follow its position;
      otherwise it is one from at least a whole ring later. */
  lemma SurvivorIsOriginal(h: seq<real>, p: nat, n: nat)
    requires n > 0 && p < |h|
    ensures |h| - p <= n ==> Survivor(h, p, n) == h[p]
    ensures |h| - p > n ==> exists q :: p + n <= q < |h| && Survivor(h, p, n) == h[q]
  {
    var x := |h| - 1 - p;
    if |h| - p <= n {
      DivModUnique(x, n, 0, x);
    } else {
      var q := |h| - 1 - x % n;
      assert x == n * (x / n) + x % n;
      assert q - p == n * (x / n);
      assert x / n >= 1;
      MulAtLeast(x / n, n);
      assert Survivor(h, p, n) == h[q];
    }
  }

  function Survivors(h: seq<real>, from: nat, to: nat, n: nat): (r: seq<real>)
    requires n > 0 && from <= to <= |h|
    ensures |r| == to - from
  {
    seq(to - from, i requires 0 <= i < to - from => Survivor(h, from + i, n))
  }

  /** The headroom bound of one call is exact. With `fedLen` samples fed before and `len` fed now, the
      released positions still hold their own samples, whatever the samples are, if and only if
      `len` and the samples held back fit the ring together. */
  lemma HeadroomIsExact(fedLen: nat, len: nat, delay: nat, cap: nat)
    requires 0 < cap && delay <= cap
    ensures var from := Max(0, fedLen - delay);
            var to := Max(from, fedLen + len - delay);
            len + Min(fedLen, delay) <= cap <==>
            forall h: seq<real> :: |h| == fedLen + len ==> Survivors(h, from, to, cap) == h[from..to]
  {
    var from := Max(0, fedLen - delay);
    var to := Max(from, fedLen + len - delay);
    if len + Min(fedLen, delay) <= cap {
      forall h: seq<real> | |h| == fedLen + len ensures Survivors(h, from, to, cap) == h[from..to] {
        forall p | from <= p < to ensures Survivor(h, p, cap) == h[p] {
          SurvivorIsOriginal(h, p, cap);
        }
      }
    } else {
      var h := Impulse(fedLen + len, from);
      SurvivorIsOriginal(h, from, cap);
      assert Survivors(h, from, to, cap)[0] == Survivor(h, from, cap) == 0.0;
      assert h[from..to][0] == 1.0;
    }
  }

  /** One click at position p. */
  function Impulse(n: nat, p: nat): (h: seq<real>)
    requires p < n
    ensures |h| == n
  {
    seq(n, i => if i == p then 1.0 else 0.0)
  }

  function PeakOver(peak: real, xs: seq<real>): real {
    if xs == [] then peak
    else
      var p := PeakOver(peak, xs[..|xs| - 1]);
      var a := Abs(xs[|xs| - 1]);
      if a > p then a else p
  }

  // ---------------------------------------------------------------- frame index arithmetic

  /** `base` of the code for near-end sample i of n. */
  function Base(farPos: nat, fl: nat, n: nat, i: nat): (base: int)
    requires fl > 0
    ensures 0 <= base < fl
  {
    (farPos + fl * ((n / fl) + 2) + i - n) % fl
  }

  /** The slot tap k reads: down from `base`, then down from the end of the buffer. */
  function TapSlot(base: int, fl: nat, k: nat): (j: int)
    requires 0 <= base < fl && k < fl
    ensures 0 <= j < fl
  {
    if k <= base then base - k else base + fl - k
  }

  /** `fe_idx` of the code. */
  method TapIndex(base: nat, fl: nat, k: nat) returns (j: nat)
    requires base < fl && k < fl
    ensures j == TapSlot(base, fl, k)
  {
    TapSlotIsResidue(base, fl, k);
    j := (base + fl - k) % fl;
  }

  lemma TapSlotIsResidue(base: int, fl: nat, k: nat)
    requires 0 <= base < fl && k < fl
    ensures (base + fl - k) % fl == TapSlot(base, fl, k)
  {
    if k <= base {
      DivModUnique(base + fl - k, fl, 1, base - k);
    } else {
      DivModUnique(base + fl - k, fl, 0, base + fl - k);
    }
  }

  /** How many samples back tap k of near-end sample i of n looks. */
  function Lag(fl: nat, n: nat, i: nat, k: nat): (d: int)
    requires fl > 0
    ensures 1 <= d <= fl
  {
    1 + (n - i - 1 + k) % fl
  }

  /** The unsigned subtraction cannot go below zero. */
  lemma BaseNoUnderflow(farPos: nat, fl: nat, n: nat, i: nat)
    requires fl > 0
    ensures farPos + fl * ((n / fl) + 2) + i >= n
    ensures Base(farPos, fl, n, i) == (farPos + i - n) % fl
  {
    var q := n / fl;
    assert n == fl * q + n % fl;
    assert fl * (q + 2) == fl * q + 2 * fl;
    assert (q + 2) * fl == fl * (q + 2);
    ModShift(farPos + i - n, fl, q + 2);
  }

  /** Tap k of near-end sample i reads the slot of the released sample Lag places back. */
  lemma TapSlotIsLag(released: nat, fl: nat, n: nat, i: nat, k: nat)
    requires k < fl
    ensures TapSlot(Base(released % fl, fl, n, i), fl, k) == (released - Lag(fl, n, i, k)) % fl
  {
    BaseOnStream(released, fl, n, i);
    TapBack(Base(released % fl, fl, n, i), released + i - n, fl, k);
    LagBack(released, fl, n, i, k);
  }

  lemma BaseOnStream(released: nat, fl: nat, n: nat, i: nat)
    requires fl > 0
    ensures Base(released % fl, fl, n, i) == (released + i - n) % fl
  {
    BaseNoUnderflow(released % fl, fl, n, i);
    ModAdd(released, i - n, fl);
  }

  lemma TapBack(base: int, x: int, fl: nat, k: nat)
    requires k < fl && base == x % fl
    ensures TapSlot(base, fl, k) == (x - k) % fl
  {
    TapSlotIsResidue(base, fl, k);
    ModAdd(x, fl - k, fl);
    ModShift(x - k, fl, 1);
  }

  lemma LagBack(released: nat, fl: nat, n: nat, i: nat, k: nat)
    requires fl > 0
    ensures (released - Lag(fl, n, i, k)) % fl == (released + i - n - k) % fl
  {
    var y := n - i - 1 + k;
    var q := y / fl;
    assert y == fl * q + y % fl;
    assert q * fl == fl * q;
    ModShift(released + i - n - k, fl, q);
  }

  /** The taps of one sample visit every slot exactly once. */
  lemma TapsVisitEverySlotOnce(base: int, fl: nat, j: nat)
    requires 0 <= base < fl && j < fl
    ensures 0 <= (base - j) % fl < fl && TapSlot(base, fl, (base - j) % fl) == j
    ensures forall k :: 0 <= k < fl && TapSlot(base, fl, k) == j ==> k == (base - j) % fl
  {
    if j <= base {
      DivModUnique(base - j, fl, 0, base - j);
    } else {
      DivModUnique(base - j, fl, -1, base - j + fl);
    }
  }

  /** Sum of squares of slots lo..hi. */
  function Energy(buf: seq<real>, lo: nat, hi: nat): real
    requires lo <= hi <= |buf|
    decreases hi - lo
  {
    if lo == hi then 0.0 else buf[lo] * buf[lo] + Energy(buf, lo + 1, hi)
  }

  lemma {:induction false} EnergySplit(buf: seq<real>, lo: nat, mid: nat, hi: nat)
    requires lo <= mid <= hi <= |buf|
    ensures Energy(buf, lo, hi) == Energy(buf, lo, mid) + Energy(buf, mid, hi)
    decreases mid - lo
  {
    if lo == mid {
    } else {
      EnergySplit(buf, lo + 1, mid, hi);
    }
  }

  /** Sum of squares over the first k taps, in tap order. */
  function TapPower(buf: seq<real>, base: int, k: nat): real
    requires 0 <= base < |buf| && k <= |buf|
  {
    if k == 0 then 0.0
    else
      var fe := buf[TapSlot(base, |buf|, k - 1)];
      TapPower(buf, base, k - 1) + fe * fe
  }

  lemma {:induction false} TapPowerSoFar(buf: seq<real>, base: int, k: nat)
    requires 0 <= base < |buf| && k <= |buf|
    ensures TapPower(buf, base, k) ==
            if k <= base + 1 then Energy(buf, base + 1 - k, base + 1)
            else Energy(buf, 0, base + 1) + Energy(buf, base + 1 + |buf| - k, |buf|)
    decreases k
  {
    if k == 0 {
    } else {
      TapPowerSoFar(buf, base, k - 1);
    }
  }

  /** `power` is the same for every sample of the frame: the energy of the whole window. */
  lemma PowerIsWindowEnergy(buf: seq<real>, base: int)
    requires 0 <= base < |buf|
    ensures TapPower(buf, base, |buf|) == Energy(buf, 0, |buf|)
  {
    TapPowerSoFar(buf, base, |buf|);
    EnergySplit(buf, 0, base + 1, |buf|);
  }

  // ---------------------------------------------------------------- NLMS on the stream

  const MU: real := 0.01
  const LEAK: real := 0.0001
  const GEIGEL: real := 0.7
  const HOLD_FRAMES: nat := 5

  /** Far-end samples seen by near-end sample i of n, newest tap first. */
  function Window(released: seq<real>, fl: nat, n: nat, i: nat): (w: seq<real>)
    requires fl > 0
    ensures |w| == fl
  {
    seq(fl, k requires 0 <= k < fl => Past(released, Lag(fl, n, i, k)))
  }

  function Dot(f: seq<real>, w: seq<real>, k: nat): real
    requires k <= |f| && k <= |w|
  {
    if k == 0 then 0.0 else Dot(f, w, k - 1) + f[k - 1] * w[k - 1]
  }

  function Scale(f: seq<real>, c: real): (r: seq<real>)
    ensures |r| == |f|
  {
    seq(|f|, k requires 0 <= k < |f| => f[k] * c)
  }

  function AddScaled(f: seq<real>, step: real, w: seq<real>): (r: seq<real>)
    requires |f| == |w|
    ensures |r| == |f|
  {
    seq(|f|, k requires 0 <= k < |f| => f[k] + step * w[k])
  }

  /** The filter after one near-end sample. */
  function Adapted(g: seq<real>, w: seq<real>, near: int, power: real, adapt: bool): (r: seq<real>)
    requires |g| == |w| && (power > 10.0 || !adapt)
    ensures |r| == |g|
  {
    var error := near as real - Dot(g, w, |w|);
    if adapt then AddScaled(g, MU * error / (power + 1.0), w) else g
  }

  /** What is left of a near-end sample, clamped to the 16-bit range. */
  function Residual(g: seq<real>, w: seq<real>, near: int): real
    requires |g| == |w|
  {
    Clamp(near as real - Dot(g, w, |w|))
  }

  /** The cancelled near-end sample. */
  function Output(g: seq<real>, w: seq<real>, near: int): int
    requires |g| == |w|
  {
    Truncate(Residual(g, w, near))
  }

  /** The adaptive filter after the first i samples of a frame. */
  function FilterAfter(f: seq<real>, released: seq<real>, near: seq<int>, power: real, adapt: bool, i: nat)
    : (r: seq<real>)
    requires |f| > 0 && i <= |near|
    requires power > 10.0 || !adapt
    ensures |r| == |f|
  {
    if i == 0 then f
    else
      Adapted(FilterAfter(f, released, near, power, adapt, i - 1),
              Window(released, |f|, |near|, i - 1), near[i - 1], power, adapt)
  }

  function Clamp(x: real): real {
    if x < -32768.0 then -32768.0 else if x > 32767.0 then 32767.0 else x
  }

  /** `as i16` on a value in range: truncation toward zero. */
  function Truncate(x: real): int { if x >= 0.0 then x.Floor else -((-x).Floor) }

  /** The first i samples of the echo-cancelled frame. */
  function Cancelled(f: seq<real>, released: seq<real>, near: seq<int>, power: real, adapt: bool, i: nat): (r: seq<int>)
    requires |f| > 0 && i <= |near|
    requires power > 10.0 || !adapt
    ensures |r| == i
  {
    if i == 0 then []
    else
      Cancelled(f, released, near, power, adapt, i - 1) +
      [Output(FilterAfter(f, released, near, power, adapt, i - 1),
              Window(released, |f|, |near|, i - 1), near[i - 1])]
  }

  /** Sum of squares of a near-end sample and its residual, added to sums so far. */
  function AddSquares(sums: (real, real), near: int, err: real): (real, real) {
    (sums.0 + near as real * near as real, sums.1 + err * err)
  }

  /** Near-end and residual energy of the first i samples. */
  function Energies(f: seq<real>, released: seq<real>, near: seq<int>, power: real, adapt: bool, i: nat): (real, real)
    requires |f| > 0 && i <= |near|
    requires power > 10.0 || !adapt
  {
    if i == 0 then (0.0, 0.0)
    else
      AddSquares(Energies(f, released, near, power, adapt, i - 1), near[i - 1],
                 Residual(FilterAfter(f, released, near, power, adapt, i - 1),
                          Window(released, |f|, |near|, i - 1), near[i - 1]))
  }

  /** The figure `process_frame` returns: 1 when disabled, 100 when nothing is left, else the square root
      of the ratio of the two energies. */
  datatype Figure = Unity | Hundred | RootOf(ratio: real)

  function FigureOf(energies: (real, real)): Figure {
    if energies.1 < 1.0 then Hundred else RootOf(energies.0 / energies.1)
  }

  /** Geigel test: some near-end sample exceeds 0.7 of the far-end peak. */
  predicate DoubleTalk(near: seq<int>, peak: real) {
    peak > 100.0 && exists i :: 0 <= i < |near| && Abs(near[i] as real) > GEIGEL * peak
  }

  /** The slot tap k reads holds entry k of the stream window. */
  lemma TapReads(buf: seq<real>, h: seq<real>, n: nat, i: nat, k: nat)
    requires Ring(buf, h) && k < |buf|
    ensures buf[TapSlot(Base(|h| % |buf|, |buf|, n, i), |buf|, k)] == Window(h, |buf|, n, i)[k]
  {
    TapSlotIsLag(|h|, |buf|, n, i, k);
    var d := Lag(|buf|, n, i, k);
    assert buf[(|h| - d) % |buf|] == Past(h, d);
  }

  /** Through `base`, the taps read the entries of w in order. */
  ghost predicate ReadsWindow(buf: seq<real>, base: int, w: seq<real>) {
    |buf| == |w| && 0 <= base < |buf| &&
    forall k :: 0 <= k < |w| ==> buf[TapSlot(base, |buf|, k)] == w[k]
  }

  lemma BaseReadsWindow(buf: seq<real>, h: seq<real>, n: nat, i: nat)
    requires Ring(buf, h)
    ensures ReadsWindow(buf, Base(|h| % |buf|, |buf|, n, i), Window(h, |buf|, n, i))
  {
    var base, w := Base(|h| % |buf|, |buf|, n, i), Window(h, |buf|, n, i);
    forall k | 0 <= k < |w| ensures buf[TapSlot(base, |buf|, k)] == w[k] {
      TapReads(buf, h, n, i, k);
    }
  }

  /** `base` as the code computes it. */
  method BaseIndex(farPos: nat, fl: nat, n: nat, i: nat) returns (base: nat)
    requires fl > 0
    ensures base == Base(farPos, fl, n, i)
  {
    BaseNoUnderflow(farPos, fl, n, i);
    var raised: nat := farPos + fl * ((n / fl) + 2) + i - n;
    base := raised % fl;
  }

  /** The tap loop: echo estimate and power of one near-end sample. */
  method TapSums(filter: array<real>, farBuf: array<real>, base: nat, ghost w: seq<real>)
    returns (echo: real, power: real)
    requires filter.Length == farBuf.Length && ReadsWindow(farBuf[..], base, w)
    ensures echo == Dot(filter[..], w, |w|)
    ensures power == Energy(farBuf[..], 0, farBuf.Length)
  {
    ghost var b, f := farBuf[..], filter[..];
    echo, power := 0.0, 0.0;
    var k := 0;
    while k < farBuf.Length
      invariant 0 <= k <= farBuf.Length
      invariant echo == Dot(f, w, k)
      invariant power == TapPower(b, base, k)
    {
      var j := TapIndex(base, farBuf.Length, k);
      var fe := farBuf[j];
      assert fe == b[TapSlot(base, |b|, k)] == w[k];
      echo := echo + filter[k] * fe;
      power := power + fe * fe;
      k := k + 1;
    }
    PowerIsWindowEnergy(b, base);
  }

  /** The adaptation loop of one near-end sample. */
  method AdaptTaps(filter: array<real>, farBuf: array<real>, base: nat, step: real, ghost w: seq<real>)
    requires filter != farBuf && filter.Length == farBuf.Length && ReadsWindow(farBuf[..], base, w)
    modifies filter
    ensures filter[..] == AddScaled(old(filter[..]), step, w)
  {
    ghost var b, f := farBuf[..], filter[..];
    var k := 0;
    while k < farBuf.Length
      invariant 0 <= k <= farBuf.Length && farBuf[..] == b
      invariant forall m :: 0 <= m < k ==> filter[m] == f[m] + step * w[m]
      invariant forall m :: k <= m < |f| ==> filter[m] == f[m]
    {
      var j := TapIndex(base, farBuf.Length, k);
      assert farBuf[j] == b[TapSlot(base, |b|, k)] == w[k];
      filter[k] := filter[k] + step * farBuf[j];
      k := k + 1;
    }
    forall m | 0 <= m < |f| ensures filter[..][m] == AddScaled(f, step, w)[m] {
    }
  }

  /** One turn of the sample loop of `process_frame`. */
  method CancelSample(filter: array<real>, farBuf: array<real>, base: nat, near: int, mayAdapt: bool,
                      ghost w: seq<real>)
    returns (err: real)
    requires filter != farBuf && filter.Length == farBuf.Length && ReadsWindow(farBuf[..], base, w)
    modifies filter
    ensures var power := Energy(farBuf[..], 0, farBuf.Length);
            var adapt := mayAdapt && power > 10.0;
            filter[..] == Adapted(old(filter[..]), w, near, power, adapt)
    ensures err == Residual(old(filter[..]), w, near)
  {
    var echo, power := TapSums(filter, farBuf, base, w);
    var error := near as real - echo;
    if mayAdapt && power > 10.0 {
      AdaptTaps(filter, farBuf, base, MU * error / (power + 1.0), w);
    }
    err := Clamp(error);
  }

  // ---------------------------------------------------------------- the object

  class EchoCanceller {
    const filterLen: nat
    const delaySamples: nat
    const delayCap: nat
    const filter: array<real>
    const farBuf: array<real>
    const delayRing: array<real>
    var farPos: nat
    var delayWrite: nat
    var delayRead: nat
    var farPeak: real
    var dtdHoldover: nat
    var enabled: bool
    /** Every far-end sample fed, every sample released to the window, and whether each call so
        far left room in the delay ring. */
    ghost var fed: seq<real>
    ghost var released: seq<real>
    ghost var inHeadroom: bool

    ghost predicate Shape()
      reads this
    {
      && filter.Length == farBuf.Length == filterLen > 0
      && delayRing.Length == delayCap > 0
      && filter != farBuf && filter != delayRing && farBuf != delayRing
      && delayWrite == |fed| && delayRead == |released| <= |fed|
      && farPos == |released| % filterLen
    }

    ghost predicate Rings()
      reads this, farBuf, delayRing
    {
      Shape() && Ring(delayRing[..], fed) && Ring(farBuf[..], released)
    }

    /** Between calls the delay line is drained: exactly the last `delaySamples` samples are held
        back, and while no call overfilled the ring the released samples are the fed stream. */
    ghost predicate Valid()
      reads this, farBuf, delayRing
    {
      && Rings()
      && |released| == Max(0, |fed| - delaySamples)
      && (inHeadroom ==> released == fed[..|released|])
    }

    constructor WithDelay(sampleRate: nat, filterMs: nat, delayMs: nat)
      ensures filterLen > 0 && delayCap > 0 ==> Valid()
      ensures enabled && fed == [] && inHeadroom
      ensures filterLen == sampleRate * filterMs / 1000
      ensures delaySamples == sampleRate * delayMs / 1000
      ensures delayCap == delaySamples + sampleRate / 10
      ensures fresh(filter) && fresh(farBuf) && fresh(delayRing)
    {
      var fl, ds := sampleRate * filterMs / 1000, sampleRate * delayMs / 1000;
      var cap := ds + sampleRate / 10;
      filterLen, delaySamples, delayCap := fl, ds, cap;
      filter := new real[fl](_ => 0.0);
      farBuf := new real[fl](_ => 0.0);
      delayRing := new real[cap](_ => 0.0);
      farPos, delayWrite, delayRead := 0, 0, 0;
      farPeak, dtdHoldover, enabled := 0.0, 0, true;
      fed, released, inHeadroom := [], [], true;
    }

    function DelayAvailable(): nat
      reads this
    {
      Max(0, delayWrite - delayRead - delaySamples)
    }

    /** The write loop of `feed_farend`. */
    method Buffer(farend: seq<int>)
      requires Rings()
      modifies this`delayWrite, this`fed, delayRing
      ensures Rings()
      ensures fed == old(fed) + seq(|farend|, i requires 0 <= i < |farend| => farend[i] as real)
    {
      var i := 0;
      while i < |farend|
        invariant 0 <= i <= |farend|
        invariant Rings() && unchanged(farBuf)
        invariant fed == old(fed) + seq(i, j requires 0 <= j < i => farend[j] as real)
      {
        var x := farend[i] as real;
        RingPush(delayRing[..], fed, x);
        ghost var before := delayRing[..];
        delayRing[delayWrite % delayCap] := x;
        assert delayRing[..] == before[|fed| % delayCap := x];
        delayWrite := delayWrite + 1;
        fed := fed + [x];
        i := i + 1;
      }
    }

    /** One turn of the release loop: the oldest buffered sample moves to the window. */
    method ReleaseOne()
      requires Rings() && delayRead < delayWrite
      modifies this`delayRead, this`farPos, this`farPeak, this`released, farBuf
      ensures Rings()
      ensures released == old(released) + [Survivor(fed, old(delayRead), delayCap)]
      ensures farPeak == PeakOver(old(farPeak), [released[|old(released)|]])
    {
      RingAt(delayRing[..], fed, delayRead);
      var sample := delayRing[delayRead % delayCap];
      RingPush(farBuf[..], released, sample);
      ModSucc(|released|, filterLen);
      ModAdd(|released|, 1, filterLen);
      ghost var before := farBuf[..];
      delayRead := delayRead + 1;
      farBuf[farPos] := sample;
      assert farBuf[..] == before[farPos := sample];
      farPos := (farPos + 1) % filterLen;
      released := released + [sample];
      var a := Abs(sample);
      assert PeakOver(old(farPeak), [sample][..0]) == old(farPeak);
      if a > farPeak {
        farPeak := a;
      }
    }

    /** The release loop of `feed_farend`. */
    method ReleaseDue()
      requires Rings()
      modifies this`delayRead, this`farPos, this`farPeak, this`released, farBuf
      ensures Rings()
      ensures |released| == Max(|old(released)|, |fed| - delaySamples)
      ensures released == old(released) + Survivors(fed, |old(released)|, |released|, delayCap)
      ensures farPeak == PeakOver(old(farPeak), released[|old(released)|..])
    {
      ghost var start, before, due := delayRead, released, [];
      while DelayAvailable() >= 1
        invariant Rings()
        invariant start <= delayRead <= Max(start, delayWrite - delaySamples)
        invariant due == Survivors(fed, start, delayRead, delayCap)
        invariant released == before + due
        invariant farPeak == PeakOver(old(farPeak), due)
        decreases delayWrite - delayRead
      {
        ghost var x := Survivor(fed, delayRead, delayCap);
        ReleaseOne();
        ExtendSurvivors(fed, start, delayRead, delayCap);
        PeakStep(old(farPeak), due, x);
        assert before + (due + [x]) == (before + due) + [x];
        due := due + [x];
      }
      assert released[start..] == due;
    }

    lemma ExtendSurvivors(h: seq<real>, from: nat, to: nat, n: nat)
      requires n > 0 && from < to <= |h|
      ensures Survivors(h, from, to, n) == Survivors(h, from, to - 1, n) + [Survivor(h, to - 1, n)]
    {}

    lemma PeakStep(peak: real, xs: seq<real>, x: real)
      ensures PeakOver(peak, xs + [x]) == PeakOver(PeakOver(peak, xs), [x])
    {
      assert (xs + [x])[..|xs|] == xs;
      assert [x][..0] == [];
    }

    /** `feed_farend`, with no bound on the frame: the newly released samples are what the delay
        ring still held of the positions that came due. */
    method FeedFarend(farend: seq<int>)
      requires Valid()
      modifies this`delayWrite, this`delayRead, this`farPos, this`farPeak
      modifies this`fed, this`released, this`inHeadroom, farBuf, delayRing
      ensures Valid()
      ensures fed == old(fed) + seq(|farend|, i requires 0 <= i < |farend| => farend[i] as real)
      ensures |old(released)| <= |released|
      ensures released == old(released) + Survivors(fed, |old(released)|, |released|, delayCap)
      ensures inHeadroom == (old(inHeadroom) && |farend| + Min(|old(fed)|, delaySamples) <= delayCap)
      ensures farPeak == PeakOver(old(farPeak), released[|old(released)|..]) * 0.9995
    {
      inHeadroom := inHeadroom && |farend| + Min(|fed|, delaySamples) <= delayCap;
      Buffer(farend);
      ReleaseDue();
      if inHeadroom {
        ReleasedUnchanged(fed, |old(released)|, |released|, delayCap);
        assert old(released) == fed[..|old(released)|];
      }
      farPeak := farPeak * 0.9995;
    }

    lemma ReleasedUnchanged(h: seq<real>, from: nat, to: nat, n: nat)
      requires n > 0 && from <= to <= |h| && |h| - from <= n
      ensures h[..from] + Survivors(h, from, to, n) == h[..to]
    {
      forall p | from <= p < to ensures Survivor(h, p, n) == h[p] {
        SurvivorIsOriginal(h, p, n);
      }
    }

    /** The Geigel loop of `process_frame`. */
    method DetectDoubleTalk(near: seq<int>) returns (found: bool)
      ensures found == DoubleTalk(near, farPeak)
    {
      var level := GEIGEL * farPeak;
      var i := 0;
      while i < |near|
        invariant 0 <= i <= |near|
        invariant farPeak > 100.0 ==> forall j :: 0 <= j < i ==> Abs(near[j] as real) <= level
      {
        if Abs(near[i] as real) > level && farPeak > 100.0 {
          return true;
        }
        i := i + 1;
      }
      return false;
    }

    /** Double-talk is taken to last for some frames after it was heard. */
    method HoldDoubleTalk(near: seq<int>) returns (doubleTalk: bool)
      modifies this`dtdHoldover
      ensures doubleTalk == (old(dtdHoldover) > 0 || DoubleTalk(near, farPeak))
      ensures dtdHoldover == if old(dtdHoldover) > 0 then old(dtdHoldover) - 1
                             else if DoubleTalk(near, farPeak) then HOLD_FRAMES - 1 else 0
    {
      doubleTalk := dtdHoldover > 0;
      if !doubleTalk {
        doubleTalk := DetectDoubleTalk(near);
        if doubleTalk {
          dtdHoldover := HOLD_FRAMES;
        }
      }
      if dtdHoldover > 0 {
        dtdHoldover := dtdHoldover - 1;
      }
    }

    /** The leaky decay of the coefficients. */
    method Decay(c: real)
      requires filter.Length == filterLen
      modifies filter
      ensures filter[..] == Scale(old(filter[..]), c)
    {
      ghost var f := filter[..];
      var k := 0;
      while k < filterLen
        invariant 0 <= k <= filterLen
        invariant forall m :: 0 <= m < k ==> filter[m] == f[m] * c
        invariant forall m :: k <= m < filterLen ==> filter[m] == f[m]
      {
        filter[k] := filter[k] * c;
        k := k + 1;
      }
      forall m | 0 <= m < |f| ensures filter[..][m] == Scale(f, c)[m] {
      }
    }

    /** Whether this frame adapts. Nothing in it changes from sample to sample. */
    ghost predicate Adapts(near: seq<int>)
      requires farBuf.Length == filterLen
      reads this, farBuf
    {
      && farPeak > 100.0
      && !(dtdHoldover > 0 || DoubleTalk(near, farPeak))
      && Energy(farBuf[..], 0, filterLen) > 10.0
    }

    /** `process_frame`: the cancelled frame and the adapted filter are those of the stream-level
        NLMS recursion; the rings are read only. */
    method ProcessFrame(nearend: array<int>) returns (erle: Figure)
      requires Valid()
      modifies this`dtdHoldover, filter, nearend
      ensures Valid()
      ensures !enabled ==> filter[..] == old(filter[..]) && nearend[..] == old(nearend[..])
      ensures !enabled ==> dtdHoldover == old(dtdHoldover) && erle == Unity
      ensures enabled ==>
                dtdHoldover == if old(dtdHoldover) > 0 then old(dtdHoldover) - 1
                               else if DoubleTalk(old(nearend[..]), farPeak) then HOLD_FRAMES - 1 else 0
      ensures enabled ==>
                var f := Scale(old(filter[..]), 1.0 - LEAK);
                var near, power, adapt := old(nearend[..]), Energy(farBuf[..], 0, filterLen), old(Adapts(nearend[..]));
                && filter[..] == FilterAfter(f, released, near, power, adapt, |near|)
                && nearend[..] == Cancelled(f, released, near, power, adapt, |near|)
                && erle == FigureOf(Energies(f, released, near, power, adapt, |near|))
    {
      if !enabled {
        return Unity;
      }
      var doubleTalk := HoldDoubleTalk(nearend[..]);
      Decay(1.0 - LEAK);
      var sums := CancelFrame(filter, farBuf, farPos, nearend, farPeak > 100.0 && !doubleTalk, released);
      erle := FigureOf(sums);
    }
  }

  /** Sample i of the frame: index arithmetic, estimate, adaptation, write-back. */
  method CancelAt(filter: array<real>, farBuf: array<real>, farPos: nat, nearend: array<int>, i: nat,
                  mayAdapt: bool, ghost released: seq<real>)
    returns (err: real)
    requires filter != farBuf && filter.Length == farBuf.Length && Ring(farBuf[..], released)
    requires farPos == |released| % farBuf.Length && i < nearend.Length
    modifies filter, nearend
    ensures err == Residual(old(filter[..]), Window(released, farBuf.Length, nearend.Length, i), old(nearend[i]))
    ensures var power := Energy(farBuf[..], 0, farBuf.Length);
            filter[..] == Adapted(old(filter[..]), Window(released, farBuf.Length, nearend.Length, i),
                                  old(nearend[i]), power, mayAdapt && power > 10.0)
    ensures nearend[..] == old(nearend[..])[i := Output(old(filter[..]),
                             Window(released, farBuf.Length, nearend.Length, i), old(nearend[i]))]
  {
    BaseReadsWindow(farBuf[..], released, nearend.Length, i);
    ghost var w := Window(released, farBuf.Length, nearend.Length, i);
    var base := BaseIndex(farPos, farBuf.Length, nearend.Length, i);
    err := CancelSample(filter, farBuf, base, nearend[i], mayAdapt, w);
    nearend[i] := Truncate(err);
  }

  /** The filter and the frame when i samples are done. */
  function FrameAt(f: seq<real>, released: seq<real>, near: seq<int>, power: real, adapt: bool, i: nat)
    : (seq<real>, seq<int>)
    requires |f| > 0 && i <= |near|
    requires power > 10.0 || !adapt
  {
    (FilterAfter(f, released, near, power, adapt, i),
     Cancelled(f, released, near, power, adapt, i) + near[i..])
  }

  lemma FrameStart(f: seq<real>, released: seq<real>, near: seq<int>, power: real, adapt: bool)
    requires |f| > 0 && (power > 10.0 || !adapt)
    ensures FrameAt(f, released, near, power, adapt, 0) == (f, near)
  {
    assert Cancelled(f, released, near, power, adapt, 0) + near[0..] == near;
  }

  lemma OneMore(f: seq<real>, released: seq<real>, near: seq<int>, power: real, adapt: bool, i: nat)
    requires |f| > 0 && i < |near|
    requires power > 10.0 || !adapt
    ensures var (g, frame) := FrameAt(f, released, near, power, adapt, i);
            var w := Window(released, |f|, |near|, i);
            && |g| == |f| && |frame| == |near| && frame[i] == near[i]
            && FrameAt(f, released, near, power, adapt, i + 1) ==
               (Adapted(g, w, near[i], power, adapt), frame[i := Output(g, w, near[i])])
  {
    var (g, frame) := FrameAt(f, released, near, power, adapt, i);
    var out := Output(g, Window(released, |f|, |near|, i), near[i]);
    assert frame[i := out] == Cancelled(f, released, near, power, adapt, i) + [out] + near[i + 1..];
  }

  /** One turn of the sample loop takes the frame from i samples done to i + 1. */
  method CancelNext(filter: array<real>, farBuf: array<real>, farPos: nat, nearend: array<int>, i: nat,
                    mayAdapt: bool, ghost released: seq<real>, ghost f: seq<real>, ghost near: seq<int>)
    returns (sample: int, err: real)
    requires filter != farBuf && filter.Length == farBuf.Length == |f| > 0 && Ring(farBuf[..], released)
    requires farPos == |released| % farBuf.Length && i < |near| == nearend.Length
    requires var power := Energy(farBuf[..], 0, |f|);
             (filter[..], nearend[..]) == FrameAt(f, released, near, power, mayAdapt && power > 10.0, i)
    modifies filter, nearend
    ensures var power := Energy(farBuf[..], 0, |f|);
            (filter[..], nearend[..]) == FrameAt(f, released, near, power, mayAdapt && power > 10.0, i + 1)
    ensures sample == near[i]
    ensures err == Residual(old(filter[..]), Window(released, |f|, |near|, i), near[i])
  {
    ghost var power := Energy(farBuf[..], 0, |f|);
    OneMore(f, released, near, power, mayAdapt && power > 10.0, i);
    ghost var frame := nearend[..];
    assert frame[i] == near[i];
    sample := nearend[i];
    err := CancelAt(filter, farBuf, farPos, nearend, i, mayAdapt, released);
  }

  /** The sample loop of `process_frame`, with the two energies it sums up. */
  method CancelFrame(filter: array<real>, farBuf: array<real>, farPos: nat, nearend: array<int>,
                     mayAdapt: bool, ghost released: seq<real>)
    returns (sums: (real, real))
    requires filter != farBuf && filter.Length == farBuf.Length > 0 && Ring(farBuf[..], released)
    requires farPos == |released| % farBuf.Length
    modifies filter, nearend
    ensures var f, near, power := old(filter[..]), old(nearend[..]), Energy(farBuf[..], 0, farBuf.Length);
            var adapt := mayAdapt && power > 10.0;
            && (filter[..], nearend[..]) == FrameAt(f, released, near, power, adapt, |near|)
            && sums == Energies(f, released, near, power, adapt, |near|)
  {
    ghost var near, f, power := nearend[..], filter[..], Energy(farBuf[..], 0, farBuf.Length);
    ghost var adapt, b := mayAdapt && power > 10.0, farBuf[..];
    FrameStart(f, released, near, power, adapt);
    sums := (0.0, 0.0);
    var i := 0;
    while i < nearend.Length
      invariant 0 <= i <= nearend.Length && farBuf[..] == b
      invariant (filter[..], nearend[..]) == FrameAt(f, released, near, power, adapt, i)
      invariant sums == Energies(f, released, near, power, adapt, i)
    {
      var sample, err := CancelNext(filter, farBuf, farPos, nearend, i, mayAdapt, released, f, near);
      sums := AddSquares(sums, sample, err);
      i := i + 1;
    }
  }

  /** A frame that does not adapt leaves the (decayed) filter alone. */
  lemma {:induction false} NoAdaptationKeepsFilter(f: seq<real>, released: seq<real>, near: seq<int>,
                                                   power: real, i: nat)
    requires |f| > 0 && i <= |near|
    ensures FilterAfter(f, released, near, power, false, i) == f
    decreases i
  {
    if i == 0 {
    } else {
      NoAdaptationKeepsFilter(f, released, near, power, i - 1);
    }
  }

  // ---------------------------------------------------------------- what adaptation achieves

  lemma {:induction false} DotAddScaled(g: seq<real>, step: real, w: seq<real>, k: nat)
    requires |g| == |w| && k <= |w|
    ensures Dot(AddScaled(g, step, w), w, k) == Dot(g, w, k) + step * Dot(w, w, k)
    decreases k
  {
    if k == 0 {
    } else {
      DotAddScaled(g, step, w, k - 1);
      OneTap(g[k - 1], step, w[k - 1], Dot(g, w, k - 1), Dot(w, w, k - 1));
      assert AddScaled(g, step, w)[k - 1] == g[k - 1] + step * w[k - 1];
    }
  }

  lemma OneTap(g: real, step: real, x: real, dot: real, rest: real)
    ensures (dot + step * rest) + (g + step * x) * x == (dot + g * x) + step * (rest + x * x)
  {
    Expand(g, step, x, rest);
  }

  lemma Expand(g: real, step: real, x: real, rest: real)
    ensures (g + step * x) * x == g * x + step * (x * x)
    ensures step * (rest + x * x) == step * rest + step * (x * x)
  {
    assert step * x * x == step * (x * x);
  }

  /** One step of the normalised update, in terms of the error alone. */
  lemma StepOnError(e: real, power: real)
    requires power > 10.0
    ensures (e - MU * e / (power + 1.0) * power) * (power + 1.0) == e * (power + 1.0 - 0.01 * power)
  {
    var q := MU * e / (power + 1.0);
    assert q * (power + 1.0) == MU * e;
    Rearrange(e, q, power);
  }

  lemma Rearrange(e: real, q: real, p: real)
    requires q * (p + 1.0) == MU * e
    ensures (e - q * p) * (p + 1.0) == e * (p + 1.0 - 0.01 * p)
  {
    calc {
      (e - q * p) * (p + 1.0);
      e * (p + 1.0) - q * p * (p + 1.0);
      e * (p + 1.0) - q * (p + 1.0) * p;
      e * (p + 1.0) - MU * e * p;
    }
  }

  /** A shrinking factor strictly between 0 and 1. */
  lemma Shrinks(e: real, e': real, a: real, b: real)
    requires 0.0 < a < b && e' * b == e * a
    ensures e > 0.0 ==> 0.0 < e' < e
    ensures e < 0.0 ==> e < e' < 0.0
    ensures e == 0.0 ==> e' == 0.0
  {
    if e > 0.0 {
      assert e * a < e * b && e * a > 0.0;
    } else if e < 0.0 {
      assert e * a > e * b && e * a < 0.0;
    }
  }

  /** The error of the filter g on a near-end sample. */
  function ErrorOf(g: seq<real>, w: seq<real>, near: int): real
    requires |g| == |w|
  {
    near as real - Dot(g, w, |w|)
  }

  /** The error shrinks by the exact factor 1 - 0.01 power / (power + 1), keeping its sign. */
  ghost predicate Improves(e: real, e': real, power: real) {
    && e' * (power + 1.0) == e * (power + 1.0 - 0.01 * power)
    && (e > 0.0 ==> 0.0 < e' < e) && (e < 0.0 ==> e < e' < 0.0) && (e == 0.0 ==> e' == 0.0)
  }

  /** The normalised step of one sample. */
  function NlmsStep(error: real, power: real): real
    requires power > 10.0
  {
    MU * error / (power + 1.0)
  }

  lemma StepImproves(e: real, e': real, power: real, step: real)
    requires power > 10.0 && step == NlmsStep(e, power) && e' == e - step * power
    ensures Improves(e, e', power)
  {
    StepOnError(e, power);
    Shrinks(e, e', power + 1.0 - 0.01 * power, power + 1.0);
  }

  /** An update by any step changes the error by that step times the energy. */
  lemma ErrorAfterStep(g: seq<real>, w: seq<real>, near: int, step: real, energy: real, g': seq<real>)
    requires |g| == |w| && energy == Dot(w, w, |w|) && g' == AddScaled(g, step, w)
    ensures ErrorOf(g', w, near) == ErrorOf(g, w, near) - step * energy
  {
    DotAddScaled(g, step, w, |w|);
    Subtract(near as real, Dot(g, w, |w|), Dot(g', w, |w|), step, energy);
  }

  lemma Subtract(a: real, b: real, c: real, step: real, energy: real)
    requires c == b + step * energy
    ensures a - c == (a - b) - step * energy
  {}

  lemma AdaptedIsStep(g: seq<real>, w: seq<real>, near: int, power: real)
    requires |g| == |w| && power > 10.0
    ensures Adapted(g, w, near, power, true) == AddScaled(g, NlmsStep(ErrorOf(g, w, near), power), w)
  {}

  /** Adaptation moves the filter towards the echo: it is better on the same sample and window. */
  lemma AdaptationShrinksError(g: seq<real>, w: seq<real>, near: int, power: real, g': seq<real>)
    requires |g| == |w| && power == Dot(w, w, |w|) > 10.0 && g' == Adapted(g, w, near, power, true)
    ensures Improves(ErrorOf(g, w, near), ErrorOf(g', w, near), power)
  {
    var e := ErrorOf(g, w, near);
    var step := NlmsStep(e, power);
    AdaptedIsStep(g, w, near, power);
    ErrorAfterStep(g, w, near, step, power, g');
    StepImproves(e, ErrorOf(g', w, near), power, step);
  }

  lemma {:induction false} TapPowerIsDot(buf: seq<real>, base: int, w: seq<real>, k: nat)
    requires ReadsWindow(buf, base, w) && k <= |buf|
    ensures TapPower(buf, base, k) == Dot(w, w, k)
    decreases k
  {
    if k == 0 {
    } else {
      TapPowerIsDot(buf, base, w, k - 1);
    }
  }

  /** `power` is the energy of the window each sample sees. */
  lemma PowerIsDot(buf: seq<real>, released: seq<real>, n: nat, i: nat)
    requires Ring(buf, released)
    ensures var w := Window(released, |buf|, n, i); Energy(buf, 0, |buf|) == Dot(w, w, |w|)
  {
    var base, w := Base(|released| % |buf|, |buf|, n, i), Window(released, |buf|, n, i);
    BaseReadsWindow(buf, released, n, i);
    TapPowerIsDot(buf, base, w, |buf|);
    PowerIsWindowEnergy(buf, base);
  }

  /** Every adapting sample of every frame: the filter that leaves the sample is better on it than the
      filter that met it. */
  lemma EverySampleImproves(buf: seq<real>, f: seq<real>, released: seq<real>, near: seq<int>, i: nat)
    requires Ring(buf, released) && |f| == |buf| && i < |near| && Energy(buf, 0, |buf|) > 10.0
    ensures var power, w := Energy(buf, 0, |buf|), Window(released, |f|, |near|, i);
            var e := ErrorOf(FilterAfter(f, released, near, power, true, i), w, near[i]);
            var e' := ErrorOf(FilterAfter(f, released, near, power, true, i + 1), w, near[i]);
            Improves(e, e', power)
  {
    var power := Energy(buf, 0, |buf|);
    PowerIsDot(buf, released, |near|, i);
    AdaptationShrinksError(FilterAfter(f, released, near, power, true, i), Window(released, |f|, |near|, i),
                           near[i], power, FilterAfter(f, released, near, power, true, i + 1));
  }

  /** A frame without adaptation multiplies every coefficient by 0.9999. */
  lemma IdleFrameForgets(f: seq<real>, released: seq<real>, near: seq<int>, power: real, k: nat)
    requires k < |f|
    ensures FilterAfter(Scale(f, 1.0 - LEAK), released, near, power, false, |near|)[k] == 0.9999 * f[k]
  {
    NoAdaptationKeepsFilter(Scale(f, 1.0 - LEAK), released, near, power, |near|);
  }

  /** The output is the residual cut off towards zero, within the 16-bit range. */
  lemma OutputIsTruncated(g: seq<real>, w: seq<real>, near: int)
    requires |g| == |w|
    ensures var e, out := ErrorOf(g, w, near), Output(g, w, near);
            && -32768 <= out <= 32767
            && (0.0 <= e <= 32767.0 ==> out as real <= e < out as real + 1.0)
            && (-32768.0 <= e <= 0.0 ==> out as real - 1.0 < e <= out as real)
            && (e > 32767.0 ==> out == 32767) && (e < -32768.0 ==> out == -32768)
  {}

  /** The peak is the largest of the old peak and all magnitudes. */
  lemma {:induction false} PeakIsMaximum(peak: real, xs: seq<real>)
    ensures PeakOver(peak, xs) >= peak && forall i :: 0 <= i < |xs| ==> PeakOver(peak, xs) >= Abs(xs[i])
    ensures PeakOver(peak, xs) == peak || exists i :: 0 <= i < |xs| && PeakOver(peak, xs) == Abs(xs[i])
    decreases |xs|
  {
    if xs == [] {
    } else {
      var init := xs[..|xs| - 1];
      PeakIsMaximum(peak, init);
      assert forall i :: 0 <= i < |init| ==> xs[i] == init[i];
      assert PeakOver(peak, xs) == Abs(xs[|xs| - 1]) || PeakOver(peak, xs) == PeakOver(peak, init);
    }
  }

  function SquareSum(xs: seq<real>): real {
    if xs == [] then 0.0 else SquareSum(xs[..|xs| - 1]) + Square(xs[|xs| - 1])
  }

  /** The first i near-end samples, and what is left of them. */
  function NearSamples(near: seq<int>, i: nat): seq<real>
    requires i <= |near|
  {
    if i == 0 then [] else NearSamples(near, i - 1) + [near[i - 1] as real]
  }

  function ResidualAt(f: seq<real>, released: seq<real>, near: seq<int>, power: real, adapt: bool, i: nat): real
    requires |f| > 0 && i < |near|
    requires power > 10.0 || !adapt
  {
    Residual(FilterAfter(f, released, near, power, adapt, i), Window(released, |f|, |near|, i), near[i])
  }

  function Residuals(f: seq<real>, released: seq<real>, near: seq<int>, power: real, adapt: bool, i: nat): seq<real>
    requires |f| > 0 && i <= |near|
    requires power > 10.0 || !adapt
  {
    if i == 0 then []
    else
      Residuals(f, released, near, power, adapt, i - 1)
      + [ResidualAt(f, released, near, power, adapt, i - 1)]
  }

  function Square(x: real): real { x * x }

  lemma SquareSumSnoc(xs: seq<real>, x: real)
    ensures SquareSum(xs + [x]) == SquareSum(xs) + Square(x)
  {
    var ys := xs + [x];
    assert ys[..|xs|] == xs;
    assert ys[|xs|] == x;
  }

  /** One more sample and its residual: `AddSquares` keeps both sums. */
  lemma SquaresStep(xs: seq<real>, ys: seq<real>, near: int, err: real)
    ensures AddSquares((SquareSum(xs), SquareSum(ys)), near, err) ==
            (SquareSum(xs + [near as real]), SquareSum(ys + [err]))
  {
    SquareSumSnoc(xs, near as real);
    SquareSumSnoc(ys, err);
  }

  lemma EnergiesStep(f: seq<real>, released: seq<real>, near: seq<int>, power: real, adapt: bool, i: nat)
    requires |f| > 0 && 0 < i <= |near|
    requires power > 10.0 || !adapt
    ensures Energies(f, released, near, power, adapt, i) ==
            AddSquares(Energies(f, released, near, power, adapt, i - 1), near[i - 1],
                       ResidualAt(f, released, near, power, adapt, i - 1))
  {}

  /** The two running sums are the energies of the near-end samples and of the residuals. */
  lemma {:induction false} EnergiesAreSquareSums(f: seq<real>, released: seq<real>, near: seq<int>, power: real,
                                                 adapt: bool, i: nat)
    requires |f| > 0 && i <= |near|
    requires power > 10.0 || !adapt
    ensures Energies(f, released, near, power, adapt, i) ==
            (SquareSum(NearSamples(near, i)), SquareSum(Residuals(f, released, near, power, adapt, i)))
    decreases i
  {
    if i > 0 {
      EnergiesAreSquareSums(f, released, near, power, adapt, i - 1);
      EnergiesStep(f, released, near, power, adapt, i);
      SquaresStep(NearSamples(near, i - 1), Residuals(f, released, near, power, adapt, i - 1), near[i - 1],
                  ResidualAt(f, released, near, power, adapt, i - 1));
    }
  }

  /** The figure exceeds 1 exactly when less energy is left than came in. */
  lemma FigureRates(nearSq: real, errSq: real)
    requires errSq >= 1.0
    ensures FigureOf((nearSq, errSq)).RootOf? && (FigureOf((nearSq, errSq)).ratio > 1.0 <==> errSq < nearSq)
  {
    var r := nearSq / errSq;
    assert r * errSq == nearSq;
    if r > 1.0 {
      assert r * errSq > errSq;
    } else {
      assert r * errSq <= errSq;
    }
  }

  /** Both rings composed: tap k of near-end sample i of n sees the fed sample that is the
      configured delay plus the tap's lag back. The lag is the distance n - i + k exactly while it
      stays within the filter; otherwise whole filter lengths drop out of it, for any frame length. */
  lemma TapSeesFedStream(fed: seq<real>, released: seq<real>, delay: nat, fl: nat, n: nat, i: nat, k: nat)
    requires fl > 0 && i < n && k < fl
    requires |released| == Max(0, |fed| - delay) && released == fed[..|released|]
    ensures Window(released, fl, n, i)[k] == Past(fed, delay + Lag(fl, n, i, k))
    ensures Lag(fl, n, i, k) == n - i + k - fl * ((n - i - 1 + k) / fl)
    ensures Lag(fl, n, i, k) == n - i + k <==> n - i - 1 + k < fl
  {
    var y := n - i - 1 + k;
    assert y == fl * (y / fl) + y % fl;
    if y < fl {
      DivModUnique(y, fl, 0, y);
    }
  }
}
