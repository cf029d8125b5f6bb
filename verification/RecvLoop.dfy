/** The Android receive loop: packets are decoded as they arrive, and gaps in the sequence numbers
    are filled before the packet that reveals them, from its DRED history where it reaches and by
    concealment where it does not. */
module RecvLoop {
  import opened Basics
  import opened Modular
  import opened CallTypes
  import opened Dred

  const MAX_GAP: nat := 16

  /** One frame written to the playout ring. */
  datatype Frame =
    | Audio(seqNo: U32)
    | FromDred(seqNo: U32, from: Option<RxPacket>, offset: int)
    | Concealed(seqNo: U32)

  /** Whether the codec would succeed, for gap frame i, for concealment i, for the packet itself,
      for its fallback, and for switching codec. */
  datatype Answers = Answers(
    reconstructs: nat -> bool, conceals: nat -> bool, decodes: bool, fallsBack: bool, switches: bool)

  /** Samples back from the packet held to the missing frame, or -1. */
  function Offset(held: Option<RxPacket>, missing: U32, frameSamples: int): int {
    match held
    case None => -1
    case Some(p) =>
      var delta := Sub32(p.seqNo, missing);
      if delta == 0 || delta > MAX_GAP then -1 else delta * frameSamples
  }

  /** What fills gap position i: one frame, or nothing when the codec fails twice. */
  function GapFrame(held: Option<RxPacket>, fs: int,
                    expected: U32, i: nat, ans: Answers): seq<Frame>
    requires i <= MAX_GAP
  {
    var missing := Add32(expected, i);
    var offset := Offset(held, missing, fs);
    if held.Some? && 0 < offset <= held.value.Dred() as int && ans.reconstructs(i)
    then [FromDred(missing, held, offset)]
    else if ans.conceals(i) then [Concealed(missing)]
    else []
  }

  /** The first n positions of a gap. */
  function GapFrames(held: Option<RxPacket>, fs: int,
                     expected: U32, n: nat, ans: Answers): seq<Frame>
    requires n <= MAX_GAP
  {
    if n == 0 then []
    else GapFrames(held, fs, expected, n - 1, ans) +
         GapFrame(held, fs, expected, n - 1, ans)
  }

  ghost predicate AllSucceed(ans: Answers) {
    && ans.decodes
    && (forall i: nat :: ans.reconstructs(i))
    && (forall i: nat :: ans.conceals(i))
  }

  /** Gap length revealed by a packet, 0 when nothing is to be filled. */
  function GapOf(expected: Option<U32>, seqNo: U32): (g: nat)
    ensures g <= MAX_GAP
  {
    match expected
    case None => 0
    case Some(e) => if Sub32(seqNo, e) <= MAX_GAP then Sub32(seqNo, e) else 0
  }

  // ---------------------------------------------------------------- gaps in sequence

  /** The frame d positions before packet p, when everything succeeds: reconstructed if p's DRED
      history reaches d frames back, concealed otherwise. */
  function Expected(p: RxPacket, seqNo: U32, d: nat, fs: int): Frame {
    if 0 < d * fs <= p.Dred() as int then FromDred(seqNo, Some(p), d * fs) else Concealed(seqNo)
  }

  lemma {:induction false} GapFramesAt(held: Option<RxPacket>, fs: int,
                                       expected: U32, n: nat, ans: Answers)
    requires n <= MAX_GAP && AllSucceed(ans)
    ensures var frames := GapFrames(held, fs, expected, n, ans);
            |frames| == n &&
            forall i :: 0 <= i < n ==> [frames[i]] == GapFrame(held, fs, expected, i, ans)
    decreases n
  {
    if n == 0 {
    } else {
      GapFramesAt(held, fs, expected, n - 1, ans);
      assert ans.reconstructs(n - 1) && ans.conceals(n - 1);
    }
  }

  /** What the cache may offer as an anchor when packet p at position pos has been parsed: p itself
      if it bears DRED, else nothing or a packet already played. */
  ghost predicate AnchorOk(p: RxPacket, pos: nat, prev: nat, held: Option<RxPacket>, anchorPos: nat)
  {
    && p.seqNo == Wrap32(pos) && prev < pos <= prev + 1 + MAX_GAP
    && (if Bearing(p) then held == Some(p)
        else held == None ||
             (held.value.seqNo == Wrap32(anchorPos) && anchorPos <= prev && pos < anchorPos + 0x8000_0000))
  }

  /** The offset the loop works out for the frame d positions before p. */
  lemma OffsetInGap(p: RxPacket, pos: nat, prev: nat, held: Option<RxPacket>, anchorPos: nat, fs: int, d: nat)
    requires AnchorOk(p, pos, prev, held, anchorPos)
    requires 1 <= d < pos - prev
    ensures Offset(held, Wrap32(pos - d), fs) == if Bearing(p) then d * fs else -1
  {
    if Bearing(p) {
      SubWraps(pos, pos - d);
    } else if held.Some? {
      SubWrapsBack(anchorPos, pos - d);
    }
  }

  lemma OneGapFrame(p: RxPacket, pos: nat, prev: nat, held: Option<RxPacket>, anchorPos: nat, fs: int, d: nat,
                    ans: Answers)
    requires AnchorOk(p, pos, prev, held, anchorPos) && AllSucceed(ans)
    requires 1 <= d < pos - prev
    ensures GapFrame(held, fs, Wrap32(prev + 1), pos - prev - 1 - d, ans) ==
            [Expected(p, Wrap32(pos - d), d, fs)]
  {
    var i := pos - prev - 1 - d;
    AddWraps(prev + 1, i);
    assert ans.reconstructs(i) && ans.conceals(i);
    OffsetInGap(p, pos, prev, held, anchorPos, fs, d);
  }

  /** The frame played for position q, at or before the packet at position pos that reveals it. */
  function FrameFor(p: RxPacket, pos: nat, q: nat, fs: int): Frame {
    if q >= pos then Audio(p.seqNo) else Expected(p, Wrap32(q), pos - q, fs)
  }

  /** The whole gap before packet p. */
  lemma GapShape(p: RxPacket, pos: nat, prev: nat, held: Option<RxPacket>, anchorPos: nat, fs: int, ans: Answers)
    requires AnchorOk(p, pos, prev, held, anchorPos) && AllSucceed(ans)
    ensures GapOf(Some(Wrap32(prev + 1)), p.seqNo) == pos - prev - 1
    ensures var g := pos - prev - 1;
            var frames := GapFrames(held, fs, Wrap32(prev + 1), g, ans);
            |frames| == g && forall i :: 0 <= i < g ==> frames[i] == FrameFor(p, pos, prev + 1 + i, fs)
  {
    var g, expected := pos - prev - 1, Wrap32(prev + 1);
    SubWraps(pos, prev + 1);
    var frames := GapFrames(held, fs, expected, g, ans);
    GapFramesAt(held, fs, expected, g, ans);
    forall i | 0 <= i < g ensures frames[i] == FrameFor(p, pos, prev + 1 + i, fs) {
      OneGapFrame(p, pos, prev, held, anchorPos, fs, g - i, ans);
      assert [frames[i]] == GapFrame(held, fs, expected, i, ans);
    }
  }

  /** The frame d positions back is reconstructed exactly when d whole frames fit the history. */
  lemma DredSuffix(p: RxPacket, seqNo: U32, d: nat, fs: int)
    requires d >= 1 && fs > 0 && Bearing(p)
    ensures Expected(p, seqNo, d, fs).FromDred? <==> d <= p.Dred() as int / fs
  {
    var n := p.Dred() as int;
    var q := n / fs;
    assert n == fs * q + n % fs;
    if d <= q {
      MulMono(d, q, fs);
    } else {
      MulMono(q + 1, d, fs);
      assert (q + 1) * fs == fs * q + fs;
    }
    MulMono(1, d, fs);
  }

  /** The whole gap: a concealed prefix, then a suffix of min(gap, history / frame) frames
      reconstructed from the packet that revealed it; all concealed if that packet bears no DRED. */
  lemma GapIsPlcThenDred(p: RxPacket, pos: nat, prev: nat, held: Option<RxPacket>, anchorPos: nat, fs: int,
                         ans: Answers, i: nat)
    requires AnchorOk(p, pos, prev, held, anchorPos) && AllSucceed(ans) && fs > 0
    requires i < pos - prev - 1
    ensures var g := pos - prev - 1;
            var k := if Bearing(p) then Min(g, p.Dred() as int / fs) else 0;
            var frames := GapFrames(held, fs, Wrap32(prev + 1), g, ans);
            && |frames| == g
            && frames[i] == if i < g - k then Concealed(Wrap32(prev + 1 + i))
                            else FromDred(Wrap32(prev + 1 + i), Some(p), (g - i) * fs)
  {
    GapShape(p, pos, prev, held, anchorPos, fs, ans);
    FrameAtDistance(p, Wrap32(prev + 1 + i), pos - (prev + 1 + i), fs);
  }

  lemma FrameAtDistance(p: RxPacket, seqNo: U32, d: nat, fs: int)
    requires d >= 1 && fs > 0
    ensures Expected(p, seqNo, d, fs) ==
            if Bearing(p) && d <= p.Dred() as int / fs then FromDred(seqNo, Some(p), d * fs) else Concealed(seqNo)
  {
    if Bearing(p) {
      DredSuffix(p, seqNo, d, fs);
    } else {
      MulMono(1, d, fs);
    }
  }

  lemma GapProduct(delta: int, frame: int)
    requires 0 < delta <= MAX_GAP && 0 <= frame <= 48 * 255
    ensures 0 <= delta * frame <= 16 * 48 * 255
  {}

  predicate StepOk(at: seq<nat>, i: nat)
    requires 1 <= i < |at|
  {
    at[i - 1] < at[i] <= at[i - 1] + 17
  }

  /** Packet i has absolute position at[i], in any order and possibly repeated; all positions lie within
      a stretch of 2^31, so sequence numbers tell them apart. */
  ghost predicate Positioned(pkts: seq<RxPacket>, at: seq<nat>, codec: CodecId, lo: nat) {
    && |pkts| == |at|
    && (forall i :: 0 <= i < |at| ==>
          pkts[i].seqNo == Wrap32(at[i]) && pkts[i].codec == codec && !pkts[i].repair)
    && (forall i :: 0 <= i < |at| ==> lo <= at[i] < lo + 0x8000_0000)
  }

  /** The first n arrivals strictly increase, with no gap over 16 frames. */
  ghost predicate Steps(at: seq<nat>, n: nat)
    requires n <= |at|
  {
    forall i :: 1 <= i < n ==> StepOk(at, i)
  }

  /** What the first n arrivals must be like for their playout to be in order. */
  ghost predicate Arrivals(pkts: seq<RxPacket>, at: seq<nat>, codec: CodecId, n: nat) {
    && |pkts| == |at| && n <= |at| && Steps(at, n)
    && (forall i :: 0 <= i < n ==>
          pkts[i].seqNo == Wrap32(at[i]) && pkts[i].codec == codec && !pkts[i].repair)
    && (forall i :: 0 <= i < n ==> at[0] <= at[i] < at[0] + 0x8000_0000)
  }

  lemma StepsAreArrivals(pkts: seq<RxPacket>, at: seq<nat>, codec: CodecId, lo: nat, n: nat)
    requires Positioned(pkts, at, codec, lo) && n <= |at| && Steps(at, n)
    ensures Arrivals(pkts, at, codec, n)
  {
    forall i | 0 <= i < n ensures at[0] <= at[i] {
      Increasing(at, n, 0, i);
    }
  }

  /** Consecutive frames stand for consecutive positions. */
  ghost predicate InSequence(playout: seq<Frame>, first: nat) {
    forall k :: 0 <= k < |playout| ==> playout[k].seqNo == Wrap32(first + k)
  }

  /** Which arrival reveals position q: the first one at or after it. */
  ghost predicate Reveals(at: seq<nat>, i: nat, q: nat)
    requires i < |at|
  {
    q <= at[i] && (i > 0 ==> at[i - 1] < q)
  }

  /** Frame k of the playout stands for position at[0] + k, and is what the arrival that reveals
      that position calls for. */
  ghost predicate PlayedInOrder(playout: seq<Frame>, pkts: seq<RxPacket>, at: seq<nat>, n: nat, fs: int)
    requires |pkts| == |at| && n <= |at|
  {
    && |playout| == (if n == 0 then 0 else at[n - 1] as int - at[0] + 1)
    && forall i, k :: 0 <= i < n && 0 <= k < |playout| && Reveals(at, i, at[0] + k) ==>
         playout[k] == FrameFor(pkts[i], at[i], at[0] + k, fs)
  }

  /** One more arrival, its gap already filled. */
  lemma ExtendPlayout(playout: seq<Frame>, pkts: seq<RxPacket>, at: seq<nat>, n: nat, fs: int,
                      gap: seq<Frame>, codec: CodecId)
    requires n < |at| && Arrivals(pkts, at, codec, n + 1)
    requires PlayedInOrder(playout, pkts, at, n, fs)
    requires |gap| == (if n == 0 then 0 else at[n] as int - at[n - 1] - 1)
    requires forall j :: 0 <= j < |gap| ==> gap[j] == FrameFor(pkts[n], at[n], at[n - 1] + 1 + j, fs)
    ensures PlayedInOrder(playout + gap + [Audio(pkts[n].seqNo)], pkts, at, n + 1, fs)
  {
    assert n > 0 ==> StepOk(at, n);
    var longer := playout + gap + [Audio(pkts[n].seqNo)];
    forall i, k | 0 <= i < n + 1 && 0 <= k < |longer| && Reveals(at, i, at[0] + k)
      ensures longer[k] == FrameFor(pkts[i], at[i], at[0] + k, fs)
    {
      RevealedInside(at, n, i, k);
      if k < |playout| {
        assert longer[k] == playout[k];
      } else if k < |playout| + |gap| {
        assert longer[k] == gap[k - |playout|];
      }
    }
  }

  /** Positions up to the previous arrival are revealed by earlier arrivals, later ones by n. */
  lemma RevealedInside(at: seq<nat>, n: nat, i: nat, k: nat)
    requires i <= n < |at| && Steps(at, n + 1)
    requires Reveals(at, i, at[0] + k)
    ensures n > 0 && at[0] + k <= at[n - 1] ==> i < n
    ensures n > 0 && at[0] + k > at[n - 1] ==> i == n
  {
    if n > 0 && i < n {
      Increasing(at, n + 1, i, n - 1);
    }
  }

  lemma {:induction false} Increasing(at: seq<nat>, n: nat, i: nat, j: nat)
    requires i <= j < n <= |at| && Steps(at, n)
    ensures at[i] <= at[j]
    decreases j
  {
    if i == j {
    } else {
      assert StepOk(at, j);
      Increasing(at, n, i, j - 1);
    }
  }

  /** Every position up to the last arrival is revealed by some arrival. */
  lemma {:induction false} Revealer(at: seq<nat>, n: nat, q: nat) returns (i: nat)
    requires 0 < n <= |at| && at[0] <= q <= at[n - 1]
    ensures i < n && Reveals(at, i, q)
    decreases n
  {
    if n == 1 || at[n - 2] < q {
      i := n - 1;
    } else {
      i := Revealer(at, n - 1, q);
    }
  }

  /** So the playout is one frame per sequence number from first to last, in sequence order. */
  lemma PlayoutIsInSequence(playout: seq<Frame>, pkts: seq<RxPacket>, at: seq<nat>, codec: CodecId, n: nat, fs: int)
    requires n > 0 && Arrivals(pkts, at, codec, n) && PlayedInOrder(playout, pkts, at, n, fs)
    ensures |playout| == at[n - 1] as int - at[0] + 1
    ensures InSequence(playout, at[0])
  {
    forall k | 0 <= k < |playout| ensures playout[k].seqNo == Wrap32(at[0] + k) {
      var i := Revealer(at, n, at[0] + k);
      FrameStandsFor(pkts[i], at[i], at[0] + k, fs);
    }
  }

  /** Every gap of a run: position q, revealed by arrival i, is reconstructed from that very packet
      exactly when its DRED history reaches back whole frames to q, and concealed otherwise. */
  lemma GapsOfARun(playout: seq<Frame>, pkts: seq<RxPacket>, at: seq<nat>, n: nat, fs: int, i: nat, q: nat)
    requires |pkts| == |at| && i < n <= |at| && fs > 0
    requires PlayedInOrder(playout, pkts, at, n, fs)
    requires at[0] <= q <= at[n - 1] && Reveals(at, i, q)
    ensures playout[q - at[0]] ==
            if q == at[i] then Audio(pkts[i].seqNo)
            else if Bearing(pkts[i]) && at[i] - q <= pkts[i].Dred() as int / fs
            then FromDred(Wrap32(q), Some(pkts[i]), (at[i] - q) * fs)
            else Concealed(Wrap32(q))
  {
    var k := q - at[0];
    assert Reveals(at, i, at[0] + k);
    if q < at[i] {
      FrameAtDistance(pkts[i], Wrap32(q), at[i] - q, fs);
    }
  }

  /** A late, repeated or far-ahead packet: nothing is filled, and its number is not the next one. */
  lemma OffStep(prev: nat, pos: nat)
    requires prev < pos + 0x8000_0000 && pos < prev + 0x8000_0000
    requires !(prev < pos <= prev + 1 + MAX_GAP)
    ensures GapOf(Some(Wrap32(prev + 1)), Wrap32(pos)) == 0
    ensures Wrap32(pos) != Wrap32(prev + 1)
  {
    if pos > prev {
      SubWraps(pos, prev + 1);
    } else {
      SubWrapsBack(pos, prev + 1);
    }
  }

  /** So such a packet breaks the sequence for good. */
  lemma OffStepBreaks(playout: seq<Frame>, pkts: seq<RxPacket>, at: seq<nat>, codec: CodecId, lo: nat, n: nat, fs: int)
    requires Positioned(pkts, at, codec, lo) && 0 < n < |at| && Steps(at, n) && !StepOk(at, n)
    requires PlayedInOrder(playout, pkts, at, n, fs)
    ensures GapOf(Some(Wrap32(at[n - 1] + 1)), pkts[n].seqNo) == 0
    ensures !InSequence(playout + [Audio(pkts[n].seqNo)], at[0])
  {
    OffStep(at[n - 1], at[n]);
    Increasing(at, n, 0, n - 1);
    var longer := playout + [Audio(pkts[n].seqNo)];
    assert longer[|playout|].seqNo != Wrap32(at[0] + |playout|);
  }

  lemma StaysBroken(playout: seq<Frame>, more: seq<Frame>, first: nat)
    requires !InSequence(playout, first)
    ensures !InSequence(playout + more, first)
  {
    var k :| 0 <= k < |playout| && playout[k].seqNo != Wrap32(first + k);
    assert (playout + more)[k] == playout[k];
  }

  lemma FrameStandsFor(p: RxPacket, pos: nat, q: nat, fs: int)
    requires p.seqNo == Wrap32(pos) && q <= pos
    ensures FrameFor(p, pos, q, fs).seqNo == Wrap32(q)
  {}

  // ---------------------------------------------------------------- the loop as a function

  /** The loop's state: the decoder's codec, the number expected next, the Opus packets since the last
      codec switch, and everything played. */
  datatype Loop = Loop(codec: CodecId, expected: Option<U32>, seen: seq<RxPacket>, playout: seq<Frame>)

  /** What fills the gap that a packet reveals, once the packet itself has been parsed: reconstructions
      reach back from the latest DRED-bearing packet, wherever that one is. */
  function GapFor(seen: seq<RxPacket>, expected: Option<U32>, seqNo: U32, fs: int, ans: Answers): seq<Frame> {
    if expected == None then []
    else GapFrames(LastBearing(seen), fs, expected.value, GapOf(expected, seqNo), ans)
  }

  /** The packet's own frame, or its fallback. */
  function Own(seqNo: U32, ans: Answers): seq<Frame> {
    if ans.decodes then [Audio(seqNo)] else if ans.fallsBack then [Concealed(seqNo)] else []
  }

  function StepLoop(l: Loop, p: RxPacket, ans: Answers, fs: int): Loop {
    if p.repair || p.codec == ComfortNoise then l
    else
      var same := p.codec == l.codec;
      var codec := if same || ans.switches then p.codec else l.codec;
      var seen, expected := if same then l.seen else [], if same then l.expected else None;
      if p.codec.IsOpus()
      then Loop(codec, Some(Add32(p.seqNo, 1)), seen + [p],
                l.playout + GapFor(seen + [p], expected, p.seqNo, fs, ans) + Own(p.seqNo, ans))
      else Loop(codec, expected, seen, l.playout + Own(p.seqNo, ans))
  }

  /** Any packets in any order, with any outcomes of the codec. */
  function LoopOf(l: Loop, pkts: seq<RxPacket>, answers: seq<Answers>, fs: int): Loop
    requires |answers| == |pkts|
    decreases |pkts|
  {
    if pkts == [] then l
    else
      var n := |pkts| - 1;
      StepLoop(LoopOf(l, pkts[..n], answers[..n], fs), pkts[n], answers[n], fs)
  }

  function Fresh(codec: CodecId): Loop { Loop(codec, None, [], []) }

  /** The loop on the first n packets of a run. */
  function Prefix(codec: CodecId, pkts: seq<RxPacket>, answers: seq<Answers>, fs: int, n: nat): Loop
    requires n <= |pkts| == |answers|
  {
    LoopOf(Fresh(codec), pkts[..n], answers[..n], fs)
  }

  lemma PrefixStep(codec: CodecId, pkts: seq<RxPacket>, answers: seq<Answers>, fs: int, n: nat)
    requires n < |pkts| == |answers|
    ensures Prefix(codec, pkts, answers, fs, n + 1) ==
            StepLoop(Prefix(codec, pkts, answers, fs, n), pkts[n], answers[n], fs)
  {
    assert pkts[..n + 1][..n] == pkts[..n] && answers[..n + 1][..n] == answers[..n];
  }

  /** The state of the loop after n packets of one Opus codec, in step so far or not. */
  ghost predicate OnTrack(l: Loop, pkts: seq<RxPacket>, at: seq<nat>, codec: CodecId, n: nat, fs: int)
    requires n <= |at| == |pkts|
  {
    && l.codec == codec && l.seen == pkts[..n]
    && l.expected == (if n == 0 then None else Some(Add32(pkts[n - 1].seqNo, 1)))
    && (Steps(at, n) ==> PlayedInOrder(l.playout, pkts, at, n, fs))
    && (!Steps(at, n) ==> n > 0 && !InSequence(l.playout, at[0]))
  }

  /** What the cache offers is the packet itself, nothing, or a packet already played. */
  lemma CacheIsAnchor(pkts: seq<RxPacket>, at: seq<nat>, codec: CodecId, n: nat) returns (anchorPos: nat)
    requires 0 < n < |at| && Arrivals(pkts, at, codec, n + 1)
    ensures AnchorOk(pkts[n], at[n], at[n - 1], LastBearing(pkts[..n + 1]), anchorPos)
  {
    assert StepOk(at, n);
    anchorPos := 0;
    if LastBearing(pkts[..n + 1]).Some? {
      var j := LastBearingAt(pkts[..n + 1]);
      anchorPos := at[j];
      if j < n {
        Increasing(at, n + 1, j, n - 1);
      }
    }
  }

  lemma OpusStep(l: Loop, p: RxPacket, ans: Answers, fs: int)
    requires p.codec == l.codec && p.codec.IsOpus() && !p.repair && AllSucceed(ans)
    ensures StepLoop(l, p, ans, fs) ==
            Loop(l.codec, Some(Add32(p.seqNo, 1)), l.seen + [p],
                 l.playout + GapFor(l.seen + [p], l.expected, p.seqNo, fs, ans) + [Audio(p.seqNo)])
  {}

  /** The gap a packet in step reveals, in terms of positions. */
  lemma GapInStep(pkts: seq<RxPacket>, at: seq<nat>, codec: CodecId, ans: Answers, n: nat, fs: int)
    returns (gap: seq<Frame>)
    requires n < |at| == |pkts| && Arrivals(pkts, at, codec, n + 1) && AllSucceed(ans)
    ensures gap == GapFor(pkts[..n + 1], if n == 0 then None else Some(Add32(pkts[n - 1].seqNo, 1)),
                          pkts[n].seqNo, fs, ans)
    ensures |gap| == (if n == 0 then 0 else at[n] as int - at[n - 1] - 1)
    ensures forall j :: 0 <= j < |gap| ==> gap[j] == FrameFor(pkts[n], at[n], at[n - 1] + 1 + j, fs)
  {
    if n == 0 {
      gap := [];
    } else {
      AddWraps(at[n - 1], 1);
      var anchorPos := CacheIsAnchor(pkts, at, codec, n);
      GapShape(pkts[n], at[n], at[n - 1], LastBearing(pkts[..n + 1]), anchorPos, fs, ans);
      gap := GapFrames(LastBearing(pkts[..n + 1]), fs, Wrap32(at[n - 1] + 1), at[n] - at[n - 1] - 1, ans);
    }
  }

  /** A packet in step. */
  lemma InStep(l: Loop, pkts: seq<RxPacket>, at: seq<nat>, codec: CodecId, ans: Answers, n: nat, fs: int)
    requires n < |at| == |pkts| && OnTrack(l, pkts, at, codec, n, fs)
    requires codec.IsOpus() && AllSucceed(ans) && Arrivals(pkts, at, codec, n + 1)
    ensures PlayedInOrder(StepLoop(l, pkts[n], ans, fs).playout, pkts, at, n + 1, fs)
  {
    OpusStep(l, pkts[n], ans, fs);
    assert pkts[..n + 1] == pkts[..n] + [pkts[n]];
    var gap := GapInStep(pkts, at, codec, ans, n, fs);
    ExtendPlayout(l.playout, pkts, at, n, fs, gap, codec);
  }

  /** A packet out of step, or any packet after one. */
  lemma OutOfStep(l: Loop, pkts: seq<RxPacket>, at: seq<nat>, codec: CodecId, lo: nat, ans: Answers, n: nat, fs: int)
    requires n < |at| == |pkts| && OnTrack(l, pkts, at, codec, n, fs)
    requires codec.IsOpus() && AllSucceed(ans) && Positioned(pkts, at, codec, lo) && !Steps(at, n + 1)
    ensures !InSequence(StepLoop(l, pkts[n], ans, fs).playout, at[0])
  {
    var p := pkts[n];
    var gap := GapFor(l.seen + [p], l.expected, p.seqNo, fs, ans);
    if Steps(at, n) {
      AddWraps(at[n - 1], 1);
      OffStepBreaks(l.playout, pkts, at, codec, lo, n, fs);
      assert l.playout + gap == l.playout;
    } else {
      StaysBroken(l.playout, gap + [Audio(p.seqNo)], at[0]);
      assert l.playout + (gap + [Audio(p.seqNo)]) == l.playout + gap + [Audio(p.seqNo)];
    }
  }

  lemma StepOnTrack(l: Loop, pkts: seq<RxPacket>, at: seq<nat>, codec: CodecId, lo: nat, ans: Answers, n: nat, fs: int)
    requires n < |at| == |pkts| && OnTrack(l, pkts, at, codec, n, fs)
    requires codec.IsOpus() && AllSucceed(ans) && Positioned(pkts, at, codec, lo)
    ensures OnTrack(StepLoop(l, pkts[n], ans, fs), pkts, at, codec, n + 1, fs)
  {
    assert pkts[..n + 1] == pkts[..n] + [pkts[n]];
    if Steps(at, n + 1) {
      StepsAreArrivals(pkts, at, codec, lo, n + 1);
      InStep(l, pkts, at, codec, ans, n, fs);
    } else {
      OutOfStep(l, pkts, at, codec, lo, ans, n, fs);
    }
  }

  lemma {:induction false} EveryPrefixOnTrack(pkts: seq<RxPacket>, answers: seq<Answers>, at: seq<nat>,
                                              codec: CodecId, lo: nat, fs: int, n: nat)
    requires Positioned(pkts, at, codec, lo) && codec.IsOpus() && n <= |pkts| == |answers|
    requires forall i :: 0 <= i < |answers| ==> AllSucceed(answers[i])
    ensures OnTrack(Prefix(codec, pkts, answers, fs, n), pkts, at, codec, n, fs)
    decreases n
  {
    if n == 0 {
    } else {
      EveryPrefixOnTrack(pkts, answers, at, codec, lo, fs, n - 1);
      StepOnTrack(Prefix(codec, pkts, answers, fs, n - 1), pkts, at, codec, lo, answers[n - 1], n - 1, fs);
      PrefixStep(codec, pkts, answers, fs, n - 1);
    }
  }

  /** Any arrivals of one Opus codec within a stretch of 2^31, in any order and with repetitions, and a
      codec that never fails: the playout is in sequence, one frame for each number, if and only if
      positions strictly increase with gaps of at most 16. Then every frame is the one its revealing
      packet calls for. */
  lemma InSequenceExactlyWhen(pkts: seq<RxPacket>, answers: seq<Answers>, at: seq<nat>, codec: CodecId,
                              lo: nat, fs: int)
    requires Positioned(pkts, at, codec, lo) && codec.IsOpus() && 0 < |pkts| == |answers|
    requires forall i :: 0 <= i < |answers| ==> AllSucceed(answers[i])
    ensures var playout := LoopOf(Fresh(codec), pkts, answers, fs).playout;
            && (InSequence(playout, at[0]) <==> Steps(at, |at|))
            && (Steps(at, |at|) ==> PlayedInOrder(playout, pkts, at, |at|, fs))
  {
    var n := |pkts|;
    assert pkts[..n] == pkts && answers[..n] == answers;
    EveryPrefixOnTrack(pkts, answers, at, codec, lo, fs, n);
    if Steps(at, n) {
      StepsAreArrivals(pkts, at, codec, lo, n);
      PlayoutIsInSequence(LoopOf(Fresh(codec), pkts, answers, fs).playout, pkts, at, codec, n, fs);
    }
  }

  // ---------------------------------------------------------------- laws of every run

  lemma {:induction false} LoopConcat(l: Loop, a: seq<RxPacket>, as': seq<Answers>, b: seq<RxPacket>,
                                      bs: seq<Answers>, fs: int)
    requires |a| == |as'| && |b| == |bs|
    ensures LoopOf(l, a + b, as' + bs, fs) == LoopOf(LoopOf(l, a, as', fs), b, bs, fs)
    decreases |b|
  {
    if b == [] {
      assert a + b == a && as' + bs == as';
    } else {
      var n := |b| - 1;
      LoopConcat(l, a, as', b[..n], bs[..n], fs);
      assert (a + b)[..|a| + n] == a + b[..n] && (as' + bs)[..|a| + n] == as' + bs[..n];
    }
  }

  /** Repair and comfort-noise packets are invisible, wherever they come in a run. */
  lemma RepairAndNoiseAreInvisible(l: Loop, a: seq<RxPacket>, as': seq<Answers>, p: RxPacket, ans: Answers,
                                   b: seq<RxPacket>, bs: seq<Answers>, fs: int)
    requires |a| == |as'| && |b| == |bs| && (p.repair || p.codec == ComfortNoise)
    ensures LoopOf(l, a + [p] + b, as' + [ans] + bs, fs) == LoopOf(l, a + b, as' + bs, fs)
  {
    LoopConcat(l, a, as', b, bs, fs);
    LoopConcat(l, a + [p], as' + [ans], b, bs, fs);
    LoopConcat(l, a, as', [p], [ans], fs);
    OneStep(LoopOf(l, a, as', fs), p, ans, fs);
  }

  lemma OneStep(l: Loop, p: RxPacket, ans: Answers, fs: int)
    ensures LoopOf(l, [p], [ans], fs) == StepLoop(l, p, ans, fs)
  {
    assert [p][..0] == [] && [ans][..0] == [];
    assert LoopOf(l, [], [], fs) == l;
  }

  /** The same loop with more already played. */
  function After(played: seq<Frame>, l: Loop): Loop { l.(playout := played + l.playout) }

  lemma StepAfter(played: seq<Frame>, l: Loop, p: RxPacket, ans: Answers, fs: int)
    ensures StepLoop(After(played, l), p, ans, fs) == After(played, StepLoop(l, p, ans, fs))
  {
    var own := Own(p.seqNo, ans);
    assert forall g: seq<Frame> :: played + l.playout + g + own == played + (l.playout + g + own);
    assert played + l.playout + own == played + (l.playout + own);
  }

  /** What has been played never influences what will be. */
  lemma {:induction false} LoopAfter(played: seq<Frame>, l: Loop, pkts: seq<RxPacket>, answers: seq<Answers>, fs: int)
    requires |answers| == |pkts|
    ensures LoopOf(After(played, l), pkts, answers, fs) == After(played, LoopOf(l, pkts, answers, fs))
    decreases |pkts|
  {
    if pkts == [] {
    } else {
      var n := |pkts| - 1;
      LoopAfter(played, l, pkts[..n], answers[..n], fs);
      StepAfter(played, LoopOf(l, pkts[..n], answers[..n], fs), pkts[n], answers[n], fs);
    }
  }

  /** A codec switch is a fresh start: from the first Opus packet of the new codec on, everything is played
      as by a new loop, and nothing before the switch is used to fill a gap. */
  lemma SwitchIsFreshStart(l: Loop, p: RxPacket, ans: Answers, rest: seq<RxPacket>, answers: seq<Answers>, fs: int)
    requires p.codec != l.codec && p.codec.IsOpus() && !p.repair && ans.switches && |answers| == |rest|
    ensures LoopOf(l, [p] + rest, [ans] + answers, fs) ==
            After(l.playout, LoopOf(Fresh(p.codec), [p] + rest, [ans] + answers, fs))
  {
    LoopConcat(l, [p], [ans], rest, answers, fs);
    LoopConcat(Fresh(p.codec), [p], [ans], rest, answers, fs);
    OneStep(l, p, ans, fs);
    OneStep(Fresh(p.codec), p, ans, fs);
    var first := StepLoop(Fresh(p.codec), p, ans, fs);
    FirstOfCodec(l, p, ans, fs);
    LoopAfter(l.playout, first, rest, answers, fs);
  }

  lemma FirstOfCodec(l: Loop, p: RxPacket, ans: Answers, fs: int)
    requires p.codec != l.codec && p.codec.IsOpus() && !p.repair && ans.switches
    ensures StepLoop(l, p, ans, fs) == After(l.playout, StepLoop(Fresh(p.codec), p, ans, fs))
  {
    var own := Own(p.seqNo, ans);
    assert l.playout + [] + own == l.playout + ([] + [] + own);
  }

  /** A gap position gives at most one frame, under its own number; it gives none exactly when the
      reconstruction is out of reach or fails and concealment fails too. */
  lemma GapPosition(held: Option<RxPacket>, fs: int, expected: U32, i: nat, ans: Answers)
    requires i <= MAX_GAP
    ensures var missing, f := Add32(expected, i), GapFrame(held, fs, expected, i, ans);
            var reach := held.Some? && 0 < Offset(held, missing, fs) <= held.value.Dred() as int;
            && |f| <= 1 && (f == [] <==> !(reach && ans.reconstructs(i)) && !ans.conceals(i))
            && (|f| == 1 ==> f[0].seqNo == missing && (f[0].FromDred? <==> reach && ans.reconstructs(i)))
  {}

  // ---------------------------------------------------------------- late packets

  const FINE := Answers(_ => true, _ => true, true, true, true)

  function Plain(seqNo: U32): RxPacket { RxPacket(seqNo, Opus24k, false, false, 0) }

  /** A packet without DRED that reveals a gap of at most one. */
  lemma PlainStep(l: Loop, seqNo: U32, fs: int)
    requires l.codec == Opus24k && GapOf(l.expected, seqNo) <= 1
    ensures StepLoop(l, Plain(seqNo), FINE, fs) ==
            Loop(Opus24k, Some(Add32(seqNo, 1)), l.seen + [Plain(seqNo)],
                 l.playout
                 + (if GapOf(l.expected, seqNo) == 1 then GapFrame(LastBearing(l.seen), fs, l.expected.value, 0, FINE)
                    else [])
                 + [Audio(seqNo)])
  {
    assert (l.seen + [Plain(seqNo)])[..|l.seen|] == l.seen;
    if GapOf(l.expected, seqNo) == 1 {
      var held, e := LastBearing(l.seen), l.expected.value;
      assert GapFrames(held, fs, e, 0, FINE) == [];
      assert GapFrames(held, fs, e, 1, FINE) == [] + GapFrame(held, fs, e, 0, FINE);
    }
  }

  /** The same while nothing seen bears DRED. */
  lemma PlainRun(l: Loop, seqNo: U32, fs: int) returns (l': Loop)
    requires l.codec == Opus24k && GapOf(l.expected, seqNo) <= 1 && LastBearing(l.seen) == None
    ensures l' == StepLoop(l, Plain(seqNo), FINE, fs)
    ensures l'.codec == Opus24k && l'.expected == Some(Add32(seqNo, 1)) && LastBearing(l'.seen) == None
    ensures l'.playout == l.playout
              + (if GapOf(l.expected, seqNo) == 1 then [Concealed(l.expected.value)] else []) + [Audio(seqNo)]
  {
    l' := StepLoop(l, Plain(seqNo), FINE, fs);
    PlainStep(l, seqNo, fs);
    assert l'.seen[..|l.seen|] == l.seen;
  }

  /** Two packets with one missing between them, after a packet that left no gap before the first. */
  lemma PlainPair(l: Loop, x: U32, y: U32, fs: int) returns (l': Loop)
    requires l.codec == Opus24k && LastBearing(l.seen) == None && GapOf(l.expected, x) == 0
    requires GapOf(Some(Add32(x, 1)), y) == 1
    ensures l' == StepLoop(StepLoop(l, Plain(x), FINE, fs), Plain(y), FINE, fs)
    ensures l'.codec == Opus24k && LastBearing(l'.seen) == None && l'.expected == Some(Add32(y, 1))
    ensures l'.playout == l.playout + [Audio(x), Concealed(Add32(x, 1)), Audio(y)]
  {
    l' := PlainRun(l, x, fs);
    l' := PlainRun(l', y, fs);
  }

  /** A late packet moves the expected number back, so numbers already played are played again: 10, 12,
      11, 13 without DRED comes out as 10, 11, 12, 11, 12, 13. */
  lemma LateArrivalReplays(fs: int) returns (l: Loop, l': Loop)
    ensures l == StepLoop(StepLoop(Fresh(Opus24k), Plain(10), FINE, fs), Plain(12), FINE, fs)
    ensures l' == StepLoop(StepLoop(l, Plain(11), FINE, fs), Plain(13), FINE, fs)
    ensures l'.playout == [Audio(10), Concealed(11), Audio(12), Audio(11), Concealed(12), Audio(13)]
  {
    l := PlainPair(Fresh(Opus24k), 10, 12, fs);
    l' := PlainPair(l, 11, 13, fs);
  }

  /** After a late packet the anchor can be ahead of the packet that reveals a gap: with 16 bearing DRED
      and 11 late, 13 reveals the loss of 12, which is reconstructed four frames back from 16. */
  lemma LateGapFromAhead(l: Loop, ahead: RxPacket, fs: int)
    requires l.codec == Opus24k && ahead.seqNo == 16 && LastBearing(l.seen) == Some(ahead)
    requires 0 < 4 * fs <= ahead.Dred() as int && GapOf(l.expected, 11) == 0
    ensures StepLoop(StepLoop(l, Plain(11), FINE, fs), Plain(13), FINE, fs).playout ==
            l.playout + [Audio(11), FromDred(12, Some(ahead), 4 * fs), Audio(13)]
  {
    var late := StepLoop(l, Plain(11), FINE, fs);
    PlainStep(l, 11, fs);
    assert late.seen[..|l.seen|] == l.seen;
    assert LastBearing(late.seen) == Some(ahead);
    PlainStep(late, 13, fs);
    assert GapFrame(Some(ahead), fs, 12, 0, FINE) == [FromDred(12, Some(ahead), 4 * fs)];
  }

  // ---------------------------------------------------------------- the object

  class RecvLoop {
    const frameMs: U8
    const cache: DredCache
    var decoderCodec: CodecId
    var expectedSeq: Option<U32>
    var playout: seq<Frame>

    ghost predicate Valid()
      reads this, cache, cache.scratch, cache.lastGood
    {
      cache.Valid()
    }

    ghost function AsLoop(): Loop
      reads this, cache
    {
      Loop(decoderCodec, expectedSeq, cache.seen, playout)
    }

    constructor (codec: CodecId, frameMs: U8)
      ensures Valid() && AsLoop() == Fresh(codec) && this.frameMs == frameMs
      ensures fresh(cache) && fresh(cache.scratch) && fresh(cache.lastGood)
    {
      this.frameMs := frameMs;
      cache := new DredCache();
      decoderCodec, expectedSeq, playout := codec, None, [];
    }

    function FrameSamples(): int { 48 * frameMs }

    /** One received packet. */
    method OnPacket(p: RxPacket, ans: Answers)
      requires Valid()
      modifies this`decoderCodec, this`expectedSeq, this`playout, cache, cache.scratch, cache.lastGood
      ensures Valid()
      ensures {cache.scratch, cache.lastGood} == {old(cache.scratch), old(cache.lastGood)}
      ensures AsLoop() == StepLoop(old(AsLoop()), p, ans, FrameSamples())
    {
      if p.repair || p.codec == ComfortNoise {
        return;
      }
      if p.codec != decoderCodec {
        if ans.switches {
          decoderCodec := p.codec;
        }
        cache.Reset();
        expectedSeq := None;
      }
      if p.codec.IsOpus() {
        ParseAndFill(p, ans);
      }
      playout := playout + Own(p.seqNo, ans);
    }

    /** The Opus part: parse DRED first, then fill the gap before the packet. */
    method ParseAndFill(p: RxPacket, ans: Answers)
      requires Valid()
      modifies this`expectedSeq, this`playout, cache, cache.scratch, cache.lastGood
      ensures Valid()
      ensures {cache.scratch, cache.lastGood} == {old(cache.scratch), old(cache.lastGood)}
      ensures cache.seen == old(cache.seen) + [p] && expectedSeq == Some(Add32(p.seqNo, 1))
      ensures playout == old(playout) + GapFor(cache.seen, old(expectedSeq), p.seqNo, FrameSamples(), ans)
    {
      cache.Offer(p);
      FillGap(p.seqNo, ans);
      expectedSeq := Some(Add32(p.seqNo, 1));
    }

    /** The gap loop. */
    method FillGap(seqNo: U32, ans: Answers)
      requires Valid()
      modifies this`playout
      ensures Valid()
      ensures playout == old(playout) + GapFor(cache.seen, expectedSeq, seqNo, FrameSamples(), ans)
    {
      if expectedSeq == None {
        return;
      }
      var expected := expectedSeq.value;
      var gap := Sub32(seqNo, expected);
      if !(0 < gap <= MAX_GAP) {
        assert GapFor(cache.seen, expectedSeq, seqNo, FrameSamples(), ans) == [];
        return;
      }
      var frameSamples: i32 := (48_000 * (frameMs as i32)) / 1000;
      var available := cache.lastGood.samplesAvailable;
      ghost var held := LastBearing(cache.seen);
      var i := 0;
      while i < gap
        invariant 0 <= i <= gap
        invariant playout == old(playout) + GapFrames(held, FrameSamples(), expected, i, ans)
      {
        FillOne(Add32(expected, i), i, frameSamples, available, ans, expected);
        i := i + 1;
      }
    }

    /** One turn of the gap loop. */
    method FillOne(missing: U32, i: nat, frameSamples: i32, available: i32, ans: Answers, ghost expected: U32)
      requires Valid() && i < MAX_GAP && missing == Add32(expected, i)
      requires frameSamples as int == FrameSamples() && available == cache.lastGood.samplesAvailable
      modifies this`playout
      ensures playout == old(playout) + GapFrame(LastBearing(cache.seen), FrameSamples(), expected, i, ans)
    {
      var offset: i32 := -1;
      match cache.lastGoodSeq {
        case Some(anchor) =>
          var delta := Sub32(anchor, missing);
          if !(delta == 0 || delta > MAX_GAP) {
            GapProduct(delta, frameSamples as int);
            offset := delta as i32 * frameSamples;
          }
        case None =>
      }
      var r: Reconstruction := BadOffset;
      if 0 < offset <= available {
        r := ReconstructFromDred(cache.lastGood, offset, FrameSamples(), if ans.reconstructs(i) then 0 else -1);
      }
      if r.Synthesised? {
        playout := playout + [FromDred(missing, r.from, r.offset as int)];
      } else if ans.conceals(i) {
        playout := playout + [Concealed(missing)];
      }
    }

    /** Any packets in any order, with codec switches and failures: the state after the run. */
    method ReceiveAll(pkts: seq<RxPacket>, answers: seq<Answers>)
      requires Valid() && |answers| == |pkts|
      modifies this`decoderCodec, this`expectedSeq, this`playout, cache, cache.scratch, cache.lastGood
      ensures Valid()
      ensures AsLoop() == LoopOf(old(AsLoop()), pkts, answers, FrameSamples())
    {
      for i := 0 to |pkts|
        invariant Valid()
        invariant {cache.scratch, cache.lastGood} == {old(cache.scratch), old(cache.lastGood)}
        invariant AsLoop() == LoopOf(old(AsLoop()), pkts[..i], answers[..i], FrameSamples())
      {
        assert cache.scratch in {old(cache.scratch), old(cache.lastGood)};
        assert cache.lastGood in {old(cache.scratch), old(cache.lastGood)};
        assert pkts[..i + 1][..i] == pkts[..i] && answers[..i + 1][..i] == answers[..i];
        OnPacket(pkts[i], answers[i]);
      }
      assert pkts[..|pkts|] == pkts && answers[..|pkts|] == answers;
    }
  }
}
