/** The 48 kHz <-> 8 kHz windowed-sinc resamplers. Samples are reals and an output is the left
    fold of its 48 products, in the code's order, so no statement below depends on rounding.
    The kernel is a parameter: nothing here depends on the Kaiser coefficients. */
module Resampler {

  const TAPS: nat := 48
  const HIST: nat := 47
  const RATIO: nat := 6

  type Kernel = k: seq<real> | |k| == TAPS witness seq(TAPS, _ => 0.0)
  type History = h: seq<real> | |h| == HIST witness seq(HIST, _ => 0.0)

  /** `f64::round`: half away from zero. */
  function Round(x: real): int {
    if x >= 0.0 then (x + 0.5).Floor else -((0.5 - x).Floor)
  }

  /** `acc.round().clamp(-32768.0, 32767.0) as i16`. */
  function Quantise(x: real): (q: int)
    ensures -32768 <= q <= 32767
  {
    var r := Round(x);
    if r < -32768 then -32768 else if r > 32767 then 32767 else r
  }

  function ToReal(input: seq<int>): (x: seq<real>)
    ensures |x| == |input|
  {
    seq(|input|, i requires 0 <= i < |input| => input[i] as real)
  }

  /** Zero-stuffing: each sample followed by RATIO - 1 zeros. */
  function Stuff(input: seq<int>): (x: seq<real>)
    ensures |x| == RATIO * |input|
  {
    if input == [] then []
    else Stuff(input[..|input| - 1]) + [input[|input| - 1] as real, 0.0, 0.0, 0.0, 0.0, 0.0]
  }

  /** Left fold of the first k products of a window. */
  function Acc(kernel: Kernel, work: seq<real>, start: nat, k: nat): real
    requires k <= TAPS && start + k <= |work|
  {
    if k == 0 then 0.0
    else Acc(kernel, work, start, k - 1) + work[start + k - 1] * kernel[k - 1]
  }

  /** The decimator keeps one window in six, the interpolator keeps every window. */
  datatype Mode = Down | Up

  function At(mode: Mode, i: nat): nat { if mode.Down? then RATIO * i else i }
  function Outputs(mode: Mode, n: nat): nat { if mode.Down? then n / RATIO else n }

  function Finish(mode: Mode, acc: real): int {
    Quantise(if mode.Down? then acc else acc * (RATIO as real))
  }

  /** Output of one block whose work buffer is `history + x`. */
  function Filter(mode: Mode, kernel: Kernel, h: History, x: seq<real>): (out: seq<int>)
    ensures |out| == Outputs(mode, |x|)
  {
    seq(Outputs(mode, |x|),
        i requires 0 <= i < Outputs(mode, |x|) => Finish(mode, Acc(kernel, h + x, At(mode, i), TAPS)))
  }

  function NextHistory(h: History, x: seq<real>): History {
    (h + x)[|x|..]
  }

  lemma {:induction false} AccSameWindow(kernel: Kernel, u: seq<real>, i: nat, v: seq<real>, j: nat, k: nat)
    requires k <= TAPS && i + k <= |u| && j + k <= |v|
    requires u[i..i + k] == v[j..j + k]
    ensures Acc(kernel, u, i, k) == Acc(kernel, v, j, k)
    decreases k
  {
    if k == 0 {
    } else {
      assert u[i..i + k - 1] == u[i..i + k][..k - 1] == v[j..j + k][..k - 1] == v[j..j + k - 1];
      assert u[i + k - 1] == u[i..i + k][k - 1] == v[j..j + k][k - 1] == v[j + k - 1];
      AccSameWindow(kernel, u, i, v, j, k - 1);
    }
  }

  // ---------------------------------------------------------------- streaming

  /** Splitting a block leaves outputs and history unchanged; the decimator needs the first
      part to be a whole number of output samples. */
  lemma Streaming(mode: Mode, kernel: Kernel, h: History, a: seq<real>, b: seq<real>)
    requires mode.Down? ==> |a| % RATIO == 0
    ensures Filter(mode, kernel, h, a + b) ==
            Filter(mode, kernel, h, a) + Filter(mode, kernel, NextHistory(h, a), b)
    ensures NextHistory(h, a + b) == NextHistory(NextHistory(h, a), b)
  {
    HistoryComposes(h, a, b);
    OutputsAdd(mode, |a|, |b|);
    var whole := Filter(mode, kernel, h, a + b);
    var parts := Filter(mode, kernel, h, a) + Filter(mode, kernel, NextHistory(h, a), b);
    forall i | 0 <= i < |whole| ensures whole[i] == parts[i] {
      if i < Outputs(mode, |a|) {
        FirstPart(mode, kernel, h, a, b, i);
      } else {
        SecondPart(mode, kernel, h, a, b, i - Outputs(mode, |a|));
      }
    }
  }

  lemma OutputsAdd(mode: Mode, m: nat, n: nat)
    requires mode.Down? ==> m % RATIO == 0
    ensures Outputs(mode, m + n) == Outputs(mode, m) + Outputs(mode, n)
    ensures At(mode, Outputs(mode, m)) == m
  {}

  lemma HistoryComposes(h: History, a: seq<real>, b: seq<real>)
    ensures NextHistory(h, a + b) == NextHistory(NextHistory(h, a), b)
    ensures NextHistory(h, a) + b == (h + (a + b))[|a|..]
  {}

  lemma FirstPart(mode: Mode, kernel: Kernel, h: History, a: seq<real>, b: seq<real>, i: nat)
    requires i < Outputs(mode, |a|)
    ensures Filter(mode, kernel, h, a + b)[i] == Filter(mode, kernel, h, a)[i]
  {
    var p := At(mode, i);
    assert (h + (a + b))[p..p + TAPS] == (h + a)[p..p + TAPS];
    AccSameWindow(kernel, h + (a + b), p, h + a, p, TAPS);
  }

  lemma SecondPart(mode: Mode, kernel: Kernel, h: History, a: seq<real>, b: seq<real>, j: nat)
    requires mode.Down? ==> |a| % RATIO == 0
    requires j < Outputs(mode, |b|)
    ensures Filter(mode, kernel, h, a + b)[Outputs(mode, |a|) + j] ==
            Filter(mode, kernel, NextHistory(h, a), b)[j]
  {
    var p, q := At(mode, Outputs(mode, |a|) + j), At(mode, j);
    assert p == |a| + q;
    HistoryComposes(h, a, b);
    var w, v := h + (a + b), NextHistory(h, a) + b;
    assert w[p..p + TAPS] == w[|a|..][q..q + TAPS];
    AccSameWindow(kernel, w, p, v, q, TAPS);
  }

  /** A caller may split after `a` without affecting any later block if and only if `a` is a
      whole number of output samples. */
  lemma DownSplitExactlyAtMultiples(kernel: Kernel, h: History, a: seq<real>)
    ensures |a| % RATIO == 0 <==>
            forall b: seq<real> :: Filter(Down, kernel, h, a + b) ==
                                   Filter(Down, kernel, h, a) + Filter(Down, kernel, NextHistory(h, a), b)
  {
    if |a| % RATIO == 0 {
      forall b: seq<real>
        ensures Filter(Down, kernel, h, a + b) ==
                Filter(Down, kernel, h, a) + Filter(Down, kernel, NextHistory(h, a), b)
      {
        Streaming(Down, kernel, h, a, b);
      }
    } else {
      var b := seq(RATIO - |a| % RATIO, _ => 0.0);
      assert |Filter(Down, kernel, h, a + b)| == |a| / RATIO + 1;
      assert |Filter(Down, kernel, h, a) + Filter(Down, kernel, NextHistory(h, a), b)| == |a| / RATIO;
    }
  }

  function Flatten(chunks: seq<seq<real>>): seq<real> {
    if chunks == [] then [] else chunks[0] + Flatten(chunks[1..])
  }

  /** Process the chunks one after the other. */
  function RunChunks(mode: Mode, kernel: Kernel, h: History, chunks: seq<seq<real>>): (seq<int>, History)
    decreases |chunks|
  {
    if chunks == [] then ([], h)
    else
      var (rest, last) := RunChunks(mode, kernel, NextHistory(h, chunks[0]), chunks[1..]);
      (Filter(mode, kernel, h, chunks[0]) + rest, last)
  }

  /** Any chunking of a stream gives the whole-stream output and final history; in the decimator
      every chunk but the last must be a multiple of six. */
  lemma {:induction false} ChunkingIsInvisible(mode: Mode, kernel: Kernel, h: History, chunks: seq<seq<real>>)
    requires mode.Down? ==> forall i :: 0 <= i < |chunks| - 1 ==> |chunks[i]| % RATIO == 0
    ensures RunChunks(mode, kernel, h, chunks) ==
            (Filter(mode, kernel, h, Flatten(chunks)), NextHistory(h, Flatten(chunks)))
    decreases |chunks|
  {
    if chunks == [] {
      assert h + [] == h && NextHistory(h, []) == h;
      assert Filter(mode, kernel, h, []) == [];
    } else if |chunks| == 1 {
      assert chunks[1..] == [];
      assert Flatten(chunks) == chunks[0] + [] == chunks[0];
      assert Filter(mode, kernel, h, chunks[0]) + [] == Filter(mode, kernel, h, chunks[0]);
    } else {
      var rest := chunks[1..];
      assert forall i :: 0 <= i < |rest| - 1 ==> rest[i] == chunks[i + 1];
      ChunkingIsInvisible(mode, kernel, NextHistory(h, chunks[0]), rest);
      Streaming(mode, kernel, h, chunks[0], Flatten(rest));
    }
  }

  // ---------------------------------------------------------------- reference filter

  /** The stream extended with zeros on both sides. */
  function Tap(x: seq<real>, j: int): real {
    if 0 <= j < |x| then x[j] else 0.0
  }

  /** Direct-form FIR at stream position p: the 48 samples ending at p, oldest first. */
  function FirAt(kernel: Kernel, x: seq<real>, p: int, k: nat): real
    requires k <= TAPS
  {
    if k == 0 then 0.0
    else FirAt(kernel, x, p, k - 1) + Tap(x, p - HIST + (k - 1)) * kernel[k - 1]
  }

  const SILENCE: History := seq(HIST, _ => 0.0)

  lemma {:induction false} AccIsFir(kernel: Kernel, x: seq<real>, p: nat, k: nat)
    requires k <= TAPS && p < |x|
    ensures Acc(kernel, SILENCE + x, p, k) == FirAt(kernel, x, p, k)
    decreases k
  {
    if k == 0 {
    } else {
      AccIsFir(kernel, x, p, k - 1);
      assert (SILENCE + x)[p + k - 1] == Tap(x, p - HIST + (k - 1));
    }
  }

  /** A fresh resampler fed any (admissible) chunking computes the direct-form filter of the
      whole zero-extended stream. */
  lemma FreshStreamIsFir(mode: Mode, kernel: Kernel, chunks: seq<seq<real>>, i: nat)
    requires mode.Down? ==> forall i :: 0 <= i < |chunks| - 1 ==> |chunks[i]| % RATIO == 0
    requires i < Outputs(mode, |Flatten(chunks)|)
    ensures var out := RunChunks(mode, kernel, SILENCE, chunks).0;
            && |out| == Outputs(mode, |Flatten(chunks)|)
            && out[i] == Finish(mode, FirAt(kernel, Flatten(chunks), At(mode, i), TAPS))
  {
    ChunkingIsInvisible(mode, kernel, SILENCE, chunks);
    AccIsFir(kernel, Flatten(chunks), At(mode, i), TAPS);
  }

  lemma {:induction false} FirLooksBack(kernel: Kernel, x: seq<real>, later: seq<real>, p: nat, k: nat)
    requires k <= TAPS && p < |x|
    ensures FirAt(kernel, x + later, p, k) == FirAt(kernel, x, p, k)
    decreases k
  {
    if k == 0 {
    } else {
      FirLooksBack(kernel, x, later, p, k - 1);
      assert Tap(x + later, p - HIST + (k - 1)) == Tap(x, p - HIST + (k - 1));
    }
  }

  lemma {:induction false} FlattenConcat(a: seq<seq<real>>, b: seq<seq<real>>)
    ensures Flatten(a + b) == Flatten(a) + Flatten(b)
    decreases |a|
  {
    if a == [] {
      assert a + b == b;
    } else {
      assert (a + b)[1..] == a[1..] + b;
      FlattenConcat(a[1..], b);
    }
  }

  /** Any chunks leave the last samples of the stream as history. */
  lemma {:induction false} HistoryOfRun(mode: Mode, kernel: Kernel, h: History, chunks: seq<seq<real>>)
    ensures RunChunks(mode, kernel, h, chunks).1 == NextHistory(h, Flatten(chunks))
    decreases |chunks|
  {
    if chunks == [] {
      assert h + [] == h;
    } else {
      HistoryOfRun(mode, kernel, NextHistory(h, chunks[0]), chunks[1..]);
      HistoryComposes(h, chunks[0], Flatten(chunks[1..]));
    }
  }

  lemma {:induction false} RunSnoc(mode: Mode, kernel: Kernel, h: History, chunks: seq<seq<real>>, x: seq<real>)
    ensures var (out, last) := RunChunks(mode, kernel, h, chunks);
            RunChunks(mode, kernel, h, chunks + [x]).0 == out + Filter(mode, kernel, last, x)
    decreases |chunks|
  {
    var more := chunks + [x];
    if chunks == [] {
      assert more[1..] == [];
    } else {
      assert more[0] == chunks[0] && more[1..] == chunks[1..] + [x];
      RunSnoc(mode, kernel, NextHistory(h, chunks[0]), chunks[1..], x);
    }
  }

  lemma SliceOfSuffix(w: seq<real>, a: nat, q: nat, n: nat)
    requires a + q + n <= |w|
    ensures w[a + q..a + q + n] == w[a..][q..q + n]
  {}

  /** Output i of a block x that follows the stream `past`. */
  lemma BlockIsFir(mode: Mode, kernel: Kernel, past: seq<real>, x: seq<real>, i: nat)
    requires i < Outputs(mode, |x|)
    ensures Filter(mode, kernel, NextHistory(SILENCE, past), x)[i] ==
            Finish(mode, FirAt(kernel, past + x, |past| + At(mode, i), TAPS))
  {
    var p, q := |past| + At(mode, i), At(mode, i);
    HistoryComposes(SILENCE, past, x);
    var w, v := SILENCE + (past + x), NextHistory(SILENCE, past) + x;
    SliceOfSuffix(w, |past|, q, TAPS);
    AccSameWindow(kernel, w, p, v, q, TAPS);
    AccIsFir(kernel, past + x, p, TAPS);
  }

  /** Every chunking, multiples of six or not: chunk c contributes one output for each whole
      decimation step inside it, and output i is the direct-form filter of the whole stream at the
      chunk's offset plus i steps. The phase restarts with every chunk. */
  lemma ChunkOutputIsFir(mode: Mode, kernel: Kernel, chunks: seq<seq<real>>, c: nat, i: nat)
    requires c < |chunks| && i < Outputs(mode, |chunks[c]|)
    ensures var (before, h) := RunChunks(mode, kernel, SILENCE, chunks[..c]);
            var block := Filter(mode, kernel, h, chunks[c]);
            && RunChunks(mode, kernel, SILENCE, chunks[..c + 1]).0 == before + block
            && block[i] == Finish(mode, FirAt(kernel, Flatten(chunks), |Flatten(chunks[..c])| + At(mode, i), TAPS))
  {
    var past, x, rest := Flatten(chunks[..c]), chunks[c], Flatten(chunks[c + 1..]);
    assert chunks[..c + 1] == chunks[..c] + [x];
    RunSnoc(mode, kernel, SILENCE, chunks[..c], x);
    HistoryOfRun(mode, kernel, SILENCE, chunks[..c]);
    BlockIsFir(mode, kernel, past, x, i);
    FlattenAt(chunks, c);
    FirLooksBack(kernel, past + x, rest, |past| + At(mode, i), TAPS);
  }

  lemma FlattenAt(chunks: seq<seq<real>>, c: nat)
    requires c < |chunks|
    ensures Flatten(chunks) == Flatten(chunks[..c]) + chunks[c] + Flatten(chunks[c + 1..])
  {
    var a, b := chunks[..c], chunks[c..];
    assert chunks == a + b;
    FlattenConcat(a, b);
    assert Flatten(b) == chunks[c] + Flatten(chunks[c + 1..]) by {
      assert b[0] == chunks[c] && b[1..] == chunks[c + 1..];
    }
  }

  /** Zero-stuffing commutes with splitting, so the upsampler may be fed any chunks of input. */
  lemma {:induction false} StuffConcat(a: seq<int>, b: seq<int>)
    ensures Stuff(a + b) == Stuff(a) + Stuff(b)
    decreases |b|
  {
    if b == [] {
      assert a + b == a;
    } else {
      assert (a + b)[..|a + b| - 1] == a + b[..|b| - 1];
      StuffConcat(a, b[..|b| - 1]);
    }
  }

  /** The work samples of a call on i16 input. */
  function Samples(mode: Mode, input: seq<int>): seq<real> {
    if mode.Down? then ToReal(input) else Stuff(input)
  }

  /** Two calls of `process` against one call on the concatenated input. */
  lemma TwoCallsEqualOne(mode: Mode, kernel: Kernel, h: History, a: seq<int>, b: seq<int>)
    requires mode.Down? ==> |a| % RATIO == 0
    ensures var h' := NextHistory(h, Samples(mode, a));
            && Filter(mode, kernel, h, Samples(mode, a + b)) ==
               Filter(mode, kernel, h, Samples(mode, a)) + Filter(mode, kernel, h', Samples(mode, b))
            && NextHistory(h, Samples(mode, a + b)) == NextHistory(h', Samples(mode, b))
  {
    if mode.Down? {
      assert ToReal(a + b) == ToReal(a) + ToReal(b);
    } else {
      StuffConcat(a, b);
    }
    Streaming(mode, kernel, h, Samples(mode, a), Samples(mode, b));
  }

  // ---------------------------------------------------------------- on 16-bit input

  /** Zero-stuffing, position by position: sample j sits at 6 j, and all else is zero. */
  lemma {:induction false} StuffAt(input: seq<int>, p: nat)
    requires p < RATIO * |input|
    ensures Stuff(input)[p] == if p % RATIO == 0 then input[p / RATIO] as real else 0.0
    decreases |input|
  {
    var n := |input| - 1;
    if p < RATIO * n {
      StuffAt(input[..n], p);
    } else {
      var q := p - RATIO * n;
      assert p % RATIO == q % RATIO && p / RATIO == n + q / RATIO;
    }
  }

  /** The filter-rate signal behind a 16-bit input, extended with zeros on both sides. */
  function SampleAt(mode: Mode, input: seq<int>, j: int): real {
    if mode.Down? then (if 0 <= j < |input| then input[j] as real else 0.0)
    else if 0 <= j < RATIO * |input| && j % RATIO == 0 then input[j / RATIO] as real
    else 0.0
  }

  /** Direct-form filter at filter-rate position p, straight from the 16-bit input: tap k weighs the
      sample 47 - k places back. */
  function InputFir(mode: Mode, kernel: Kernel, input: seq<int>, p: int, k: nat): real
    requires k <= TAPS
  {
    if k == 0 then 0.0
    else InputFir(mode, kernel, input, p, k - 1) + SampleAt(mode, input, p - HIST + (k - 1)) * kernel[k - 1]
  }

  lemma TapOfInput(mode: Mode, input: seq<int>, j: int)
    ensures Tap(Samples(mode, input), j) == SampleAt(mode, input, j)
  {
    if mode.Up? && 0 <= j < RATIO * |input| {
      StuffAt(input, j);
    }
  }

  lemma {:induction false} FirOfInput(mode: Mode, kernel: Kernel, input: seq<int>, p: int, k: nat)
    requires k <= TAPS
    ensures FirAt(kernel, Samples(mode, input), p, k) == InputFir(mode, kernel, input, p, k)
    decreases k
  {
    if k == 0 {
    } else {
      var j := p - HIST + (k - 1);
      FirOfInput(mode, kernel, input, p, k - 1);
      TapOfInput(mode, input, j);
      assert Tap(Samples(mode, input), j) * kernel[k - 1] == SampleAt(mode, input, j) * kernel[k - 1];
    }
  }

  function Concat(chunks: seq<seq<int>>): seq<int> {
    if chunks == [] then [] else chunks[0] + Concat(chunks[1..])
  }

  lemma SamplesConcat(mode: Mode, a: seq<int>, b: seq<int>)
    ensures Samples(mode, a + b) == Samples(mode, a) + Samples(mode, b)
  {
    if mode.Down? {
      assert ToReal(a + b) == ToReal(a) + ToReal(b);
    } else {
      StuffConcat(a, b);
    }
  }

  lemma {:induction false} ConcatConcat(a: seq<seq<int>>, b: seq<seq<int>>)
    ensures Concat(a + b) == Concat(a) + Concat(b)
    decreases |a|
  {
    if a == [] {
      assert a + b == b;
    } else {
      assert (a + b)[1..] == a[1..] + b;
      ConcatConcat(a[1..], b);
    }
  }

  /** What a call on `input` returns after `past`, whatever comes `later`: outputs of the direct-form
      filter of the whole 16-bit input, one for each whole step of the call. */
  ghost predicate IsFirBlock(mode: Mode, kernel: Kernel, past: seq<int>, input: seq<int>, later: seq<int>,
                             out: seq<int>) {
    && |out| == Outputs(mode, |Samples(mode, input)|)
    && forall i :: 0 <= i < |out| ==>
         out[i] == FirOutput(mode, kernel, past + input + later, |Samples(mode, past)|, i)
  }

  /** Output i of a call that begins at filter-rate position `offset` of the whole input. */
  function FirOutput(mode: Mode, kernel: Kernel, whole: seq<int>, offset: nat, i: nat): int {
    Finish(mode, InputFir(mode, kernel, whole, offset + At(mode, i), TAPS))
  }

  lemma CallIsFir(mode: Mode, kernel: Kernel, past: seq<int>, input: seq<int>, later: seq<int>)
    ensures IsFirBlock(mode, kernel, past, input, later,
                       Filter(mode, kernel, NextHistory(SILENCE, Samples(mode, past)), Samples(mode, input)))
  {
    var x, y, z := Samples(mode, past), Samples(mode, input), Samples(mode, later);
    SamplesConcat(mode, past, input);
    SamplesConcat(mode, past + input, later);
    var out := Filter(mode, kernel, NextHistory(SILENCE, Samples(mode, past)), y);
    forall i | 0 <= i < |out|
      ensures out[i] == FirOutput(mode, kernel, past + input + later, |x|, i)
    {
      BlockIsFir(mode, kernel, x, y, i);
      FirLooksBack(kernel, x + y, z, |x| + At(mode, i), TAPS);
      FirOfInput(mode, kernel, past + input + later, |x| + At(mode, i), TAPS);
    }
  }

  lemma HistoryAfterMore(mode: Mode, past: seq<int>, input: seq<int>)
    ensures NextHistory(SILENCE, Samples(mode, past + input)) ==
            NextHistory(NextHistory(SILENCE, Samples(mode, past)), Samples(mode, input))
  {
    SamplesConcat(mode, past, input);
    HistoryComposes(SILENCE, Samples(mode, past), Samples(mode, input));
  }

  /** Where input sample j sits at the filter rate. */
  function Place(mode: Mode, j: nat): nat { if mode.Down? then j else RATIO * j }

  /** Every sample but one is zero. */
  ghost predicate Click(input: seq<int>, j: nat) {
    j < |input| && forall m :: 0 <= m < |input| && m != j ==> input[m] == 0
  }

  lemma ClickSample(mode: Mode, input: seq<int>, j: nat, t: int)
    requires Click(input, j)
    ensures SampleAt(mode, input, t) == if t == Place(mode, j) then input[j] as real else 0.0
  {
    if mode.Up? && 0 <= t < RATIO * |input| && t % RATIO == 0 {
      assert t == RATIO * (t / RATIO);
    }
  }

  /** What a click of height x contributes d places later. */
  function Pulse(kernel: Kernel, x: int, d: int): real {
    if 0 <= d < 48 then x as real * kernel[47 - d] else 0.0
  }

  lemma {:induction false} ClickFir(mode: Mode, kernel: Kernel, input: seq<int>, j: nat, p: int, k: nat)
    requires Click(input, j) && k <= TAPS
    ensures var d := p - Place(mode, j);
            InputFir(mode, kernel, input, p, k) == if HIST - d < k then Pulse(kernel, input[j], d) else 0.0
    decreases k
  {
    if k == 0 {
    } else {
      ClickFir(mode, kernel, input, j, p, k - 1);
      ClickSample(mode, input, j, p - HIST + (k - 1));
    }
  }

  /** The first call on a silent resampler. */
  lemma FirstCallIsFir(mode: Mode, kernel: Kernel, input: seq<int>, i: nat)
    requires i < Outputs(mode, |Samples(mode, input)|)
    ensures Filter(mode, kernel, SILENCE, Samples(mode, input))[i] == FirOutput(mode, kernel, input, 0, i)
  {
    assert Samples(mode, []) == [] && SILENCE + [] == SILENCE;
    assert NextHistory(SILENCE, Samples(mode, [])) == SILENCE;
    CallIsFir(mode, kernel, [], input, []);
    assert [] + input + [] == input;
  }

  /** What the interpolator's gain does, and that silence stays silent. */
  lemma FinishGain(acc: real)
    ensures Finish(Down, acc) == Quantise(acc) && Finish(Up, acc) == Quantise(acc * 6.0)
    ensures Quantise(0.0) == 0
  {}

  /** Impulse response: a click in the input comes out as the kernel, last tap first. */
  lemma ImpulseResponse(mode: Mode, kernel: Kernel, input: seq<int>, j: nat, i: nat)
    requires Click(input, j) && i < Outputs(mode, |Samples(mode, input)|)
    ensures Filter(mode, kernel, SILENCE, Samples(mode, input))[i] ==
            Finish(mode, Pulse(kernel, input[j], At(mode, i) - Place(mode, j)))
  {
    FirstCallIsFir(mode, kernel, input, i);
    ClickFir(mode, kernel, input, j, At(mode, i), TAPS);
    assert InputFir(mode, kernel, input, 0 + At(mode, i), TAPS) ==
           Pulse(kernel, input[j], At(mode, i) - Place(mode, j));
  }

  /** Rounding goes to the nearest integer, halves away from zero. */
  lemma RoundIsNearest(x: real)
    ensures x >= 0.0 ==> Round(x) as real - 0.5 <= x < Round(x) as real + 0.5
    ensures x <= 0.0 ==> Round(x) as real - 0.5 < x <= Round(x) as real + 0.5
    ensures Round(0.0 - x) == -Round(x)
  {}

  /** Quantisation is rounding, saturated at the 16-bit limits. */
  lemma QuantiseSaturates(x: real)
    ensures -32768.0 <= x <= 32767.0 ==> Quantise(x) == Round(x)
    ensures x > 32767.0 ==> Quantise(x) == 32767
    ensures x < -32768.0 ==> Quantise(x) == -32768
  {
    RoundIsNearest(x);
  }

  // ---------------------------------------------------------------- the stateful objects

  /** One `acc` loop of the code. The bounds test on `idx` is kept; it never fails. */
  method Window(kernel: Kernel, work: seq<real>, start: nat) returns (acc: real)
    requires start + TAPS <= |work|
    ensures acc == Acc(kernel, work, start, TAPS)
  {
    acc := 0.0;
    var k := 0;
    while k < TAPS
      invariant 0 <= k <= TAPS
      invariant acc == Acc(kernel, work, start, k)
    {
      var idx := start + k;
      if idx < |work| {
        acc := acc + work[idx] * kernel[k];
      }
      k := k + 1;
    }
  }

  /** The upsampler's work buffer: history, then each sample followed by RATIO - 1 zeros. */
  method ZeroStuff(history: seq<real>, input: seq<int>) returns (work: seq<real>)
    ensures work == history + Stuff(input)
  {
    work := history;
    var j := 0;
    while j < |input|
      invariant 0 <= j <= |input|
      invariant work == history + Stuff(input[..j])
    {
      work := work + [input[j] as real];
      work := work + seq(RATIO - 1, _ => 0.0);
      assert input[..j + 1][..j] == input[..j];
      j := j + 1;
    }
    assert input[..|input|] == input;
  }

  class Downsampler48to8 {
    const kernel: Kernel
    var history: seq<real>

    ghost predicate Valid() reads this { |history| == HIST }

    constructor (kernel: Kernel)
      ensures Valid() && this.kernel == kernel && history == SILENCE
    {
      this.kernel := kernel;
      history := seq(HIST, _ => 0.0);
    }

    method Process(input: seq<int>) returns (output: seq<int>)
      requires Valid()
      modifies this
      ensures Valid()
      ensures output == Filter(Down, kernel, old(history), ToReal(input))
      ensures history == NextHistory(old(history), ToReal(input))
    {
      var histLen := |history|;
      var work := history + ToReal(input);
      var outLen := |input| / RATIO;
      output := [];
      var i := 0;
      while i < outLen
        invariant 0 <= i <= outLen
        invariant unchanged(this)
        invariant output == Filter(Down, kernel, old(history), ToReal(input))[..i]
      {
        var centre := histLen + i * RATIO;
        var start: nat := centre + 1 - TAPS;
        var acc := Window(kernel, work, start);
        output := output + [Quantise(acc)];
        i := i + 1;
      }
      if |work| >= histLen {
        history := work[|work| - histLen..];
      } else {
        assert false;
      }
    }
  }

  class Upsampler8to48 {
    const kernel: Kernel
    var history: seq<real>

    ghost predicate Valid() reads this { |history| == HIST }

    constructor (kernel: Kernel)
      ensures Valid() && this.kernel == kernel && history == SILENCE
    {
      this.kernel := kernel;
      history := seq(HIST, _ => 0.0);
    }

    method Process(input: seq<int>) returns (output: seq<int>)
      requires Valid()
      modifies this
      ensures Valid()
      ensures output == Filter(Up, kernel, old(history), Stuff(input))
      ensures history == NextHistory(old(history), Stuff(input))
    {
      var histLen := |history|;
      var work := ZeroStuff(history, input);
      var outLen := |input| * RATIO;
      var gain := RATIO as real;
      output := [];
      var i := 0;
      while i < outLen
        invariant 0 <= i <= outLen
        invariant unchanged(this)
        invariant output == Filter(Up, kernel, old(history), Stuff(input))[..i]
      {
        var centre := histLen + i;
        var start: nat := centre + 1 - TAPS;
        var acc := Window(kernel, work, start);
        acc := acc * gain;
        output := output + [Quantise(acc)];
        assert Finish(Up, Acc(kernel, work, start, TAPS)) == Quantise(acc);
        i := i + 1;
      }
      if |work| >= histLen {
        history := work[|work| - histLen..];
      } else {
        assert false;
      }
    }
  }

  // ---------------------------------------------------------------- whole streams through the objects

  lemma ConcatLast(chunks: seq<seq<int>>, chunk: seq<int>)
    ensures Concat(chunks + [chunk]) == Concat(chunks) + chunk
  {
    ConcatConcat(chunks, [chunk]);
    assert Concat([chunk]) == chunk + [];
  }

  lemma ConcatUpTo(chunks: seq<seq<int>>, c: nat)
    requires c < |chunks|
    ensures Concat(chunks[..c + 1]) == Concat(chunks[..c]) + chunks[c]
  {
    assert chunks[..c + 1] == chunks[..c] + [chunks[c]];
    ConcatLast(chunks[..c], chunks[c]);
  }

  lemma ConcatSplit(chunks: seq<seq<int>>, c: nat)
    requires c <= |chunks|
    ensures Concat(chunks) == Concat(chunks[..c]) + Concat(chunks[c..])
  {
    assert chunks[..c] + chunks[c..] == chunks;
    ConcatConcat(chunks[..c], chunks[c..]);
  }

  lemma ConcatSnoc(chunks: seq<seq<int>>, c: nat)
    requires c < |chunks|
    ensures Concat(chunks[..c + 1]) == Concat(chunks[..c]) + chunks[c]
    ensures Concat(chunks) == Concat(chunks[..c]) + chunks[c] + Concat(chunks[c + 1..])
  {
    ConcatUpTo(chunks, c);
    ConcatSplit(chunks, c + 1);
  }

  /** Call c of a stream returned what the direct-form filter of the whole input gives. */
  ghost predicate CallOk(mode: Mode, kernel: Kernel, chunks: seq<seq<int>>, c: nat, out: seq<int>)
    requires c < |chunks|
  {
    && |out| == Outputs(mode, |Samples(mode, chunks[c])|)
    && forall i :: 0 <= i < |out| ==>
         out[i] == FirOutput(mode, kernel, Concat(chunks), |Samples(mode, Concat(chunks[..c]))|, i)
  }

  /** So did all the calls so far. */
  ghost predicate CallsOk(mode: Mode, kernel: Kernel, chunks: seq<seq<int>>, outs: seq<seq<int>>) {
    |outs| <= |chunks| && forall c :: 0 <= c < |outs| ==> CallOk(mode, kernel, chunks, c, outs[c])
  }

  /** What one more call on the stream does. */
  lemma NextCall(mode: Mode, kernel: Kernel, chunks: seq<seq<int>>, outs: seq<seq<int>>, h: History)
    requires CallsOk(mode, kernel, chunks, outs) && |outs| < |chunks|
    requires h == NextHistory(SILENCE, Samples(mode, Concat(chunks[..|outs|])))
    ensures var x := Samples(mode, chunks[|outs|]);
            && CallsOk(mode, kernel, chunks, outs + [Filter(mode, kernel, h, x)])
            && NextHistory(h, x) == NextHistory(SILENCE, Samples(mode, Concat(chunks[..|outs| + 1])))
  {
    var c := |outs|;
    ThisCallOk(mode, kernel, chunks, c, h);
    CallsSnoc(mode, kernel, chunks, outs, Filter(mode, kernel, h, Samples(mode, chunks[c])));
    ConcatUpTo(chunks, c);
    HistoryAfterMore(mode, Concat(chunks[..c]), chunks[c]);
  }

  lemma ThisCallOk(mode: Mode, kernel: Kernel, chunks: seq<seq<int>>, c: nat, h: History)
    requires c < |chunks| && h == NextHistory(SILENCE, Samples(mode, Concat(chunks[..c])))
    ensures CallOk(mode, kernel, chunks, c, Filter(mode, kernel, h, Samples(mode, chunks[c])))
  {
    ConcatSnoc(chunks, c);
    CallIsFir(mode, kernel, Concat(chunks[..c]), chunks[c], Concat(chunks[c + 1..]));
  }

  lemma CallsSnoc(mode: Mode, kernel: Kernel, chunks: seq<seq<int>>, outs: seq<seq<int>>, out: seq<int>)
    requires CallsOk(mode, kernel, chunks, outs) && |outs| < |chunks|
    requires CallOk(mode, kernel, chunks, |outs|, out)
    ensures CallsOk(mode, kernel, chunks, outs + [out])
  {}

  lemma SilentStart(mode: Mode)
    ensures NextHistory(SILENCE, Samples(mode, Concat([]))) == SILENCE
  {
    assert Samples(mode, []) == [] && SILENCE + [] == SILENCE;
  }

  /** Any chunks of 16-bit input through a fresh upsampler. */
  method UpsampleAll(u: Upsampler8to48, chunks: seq<seq<int>>) returns (outs: seq<seq<int>>)
    requires u.Valid() && u.history == SILENCE
    modifies u
    ensures |outs| == |chunks| && CallsOk(Up, u.kernel, chunks, outs)
  {
    outs := [];
    SilentStart(Up);
    for c := 0 to |chunks|
      invariant u.Valid() && u.history == NextHistory(SILENCE, Samples(Up, Concat(chunks[..c])))
      invariant |outs| == c && CallsOk(Up, u.kernel, chunks, outs)
    {
      NextCall(Up, u.kernel, chunks, outs, u.history);
      var out := u.Process(chunks[c]);
      outs := outs + [out];
    }
  }

  /** Any chunks of 16-bit input through a fresh downsampler; the phase restarts with each chunk. */
  method DownsampleAll(u: Downsampler48to8, chunks: seq<seq<int>>) returns (outs: seq<seq<int>>)
    requires u.Valid() && u.history == SILENCE
    modifies u
    ensures |outs| == |chunks| && CallsOk(Down, u.kernel, chunks, outs)
  {
    outs := [];
    SilentStart(Down);
    for c := 0 to |chunks|
      invariant u.Valid() && u.history == NextHistory(SILENCE, Samples(Down, Concat(chunks[..c])))
      invariant |outs| == c && CallsOk(Down, u.kernel, chunks, outs)
    {
      NextCall(Down, u.kernel, chunks, outs, u.history);
      var out := u.Process(chunks[c]);
      outs := outs + [out];
    }
  }
}
