/** The send side of a call: silence suppression, packet numbering, timestamps and FEC blocks.
    The echo canceller, gain control, denoiser and codec are outside: a frame arrives as "quiet
    or not" and "encodes or not". Everything promised is stated against the history of frames. */
module CallEncoder {
  import opened Basics
  import opened CallTypes
  import opened Modular

  // ---------------------------------------------------------------- silence detector

  /** `run` counts the quiet frames that end with the latest one. */
  class SilenceDetector {
    const hangover: U32
    var silentFrames: U32
    var isSuppressing: bool
    ghost var run: nat

    ghost predicate Valid()
      reads this
    {
      && silentFrames == Min(run, WORD32 - 1)
      && isSuppressing == (run > hangover && hangover < WORD32 - 1)
    }

    constructor (hangover: U32)
      ensures Valid() && this.hangover == hangover && run == 0
    {
      this.hangover := hangover;
      silentFrames, isSuppressing, run := 0, false, 0;
    }

    /** `is_silent`; `quiet` is the comparison of the frame's RMS with the threshold. */
    method IsSilent(quiet: bool) returns (r: bool)
      requires Valid()
      modifies this
      ensures Valid()
      ensures run == if quiet then old(run) + 1 else 0
      ensures r == (run > hangover && hangover < WORD32 - 1)
    {
      if quiet {
        silentFrames := Min(silentFrames + 1, WORD32 - 1);
        run := run + 1;
        if silentFrames > hangover {
          isSuppressing := true;
        }
      } else {
        silentFrames, isSuppressing, run := 0, false, 0;
      }
      r := isSuppressing;
    }
  }

  // ---------------------------------------------------------------- FEC encoder

  /** Repair symbols generated for n source symbols: ceil(n * ratio). */
  function RepairCount(n: nat, ratio: real): nat {
    var x := n as real * ratio;
    if x <= 0.0 then 0 else -((-x).Floor)
  }

  /** The RaptorQ encoder's bookkeeping; symbol contents are not part of this model. */
  class FecEncoder {
    const framesPerBlock: nat
    var symbols: nat

    constructor (framesPerBlock: nat)
      ensures this.framesPerBlock == framesPerBlock && symbols == 0
    {
      this.framesPerBlock := framesPerBlock;
      symbols := 0;
    }

    method AddSourceSymbol() returns (ok: bool)
      modifies this
      ensures ok == (old(symbols) < framesPerBlock)
      ensures symbols == if ok then old(symbols) + 1 else old(symbols)
    {
      if symbols >= framesPerBlock {
        return false;
      }
      symbols := symbols + 1;
      return true;
    }

    /** Symbol indices of the repair packets: they follow the source symbols. */
    method GenerateRepair(ratio: real) returns (indices: seq<int>)
      ensures |indices| == RepairCount(symbols, ratio)
      ensures forall i :: 0 <= i < |indices| ==> indices[i] == (symbols + i) % 65536
    {
      var n := RepairCount(symbols, ratio);
      indices := [];
      for i := 0 to n
        invariant |indices| == i
        invariant forall j :: 0 <= j < i ==> indices[j] == (symbols + j) % 65536
      {
        indices := indices + [(symbols + i) % 65536];
      }
    }

    method FinalizeBlock()
      modifies this
      ensures symbols == 0
    {
      symbols := 0;
    }
  }

  // ---------------------------------------------------------------- histories

  datatype Kind = Source | Repair | Noise
  datatype Packet = Packet(kind: Kind, codec: CodecId, seqNo: U32, timestamp: U32, fecBlock: int)

  /** What became of a frame: suppressed, sent, dropped because the codec refused it, or dropped
      because the FEC block was full. The last two return an error. */
  datatype Fate = Suppressed | Sent(repairs: nat) | NotEncoded | NotProtected
  datatype Frame = Frame(quiet: bool, ms: nat, codec: CodecId, fate: Fate)

  /** The frames offered so far, latest last. */
  datatype History = Start | Then(before: History, last: Frame)

  /** Quiet frames at the end of a history. */
  function QuietRun(h: History): nat {
    match h
    case Start => 0
    case Then(before, f) => if f.quiet then QuietRun(before) + 1 else 0
  }

  /** Consecutive suppressed frames at the end of a history. */
  function SuppressedRun(h: History): nat {
    match h
    case Start => 0
    case Then(before, f) => if f.fate == Suppressed then SuppressedRun(before) + 1 else 0
  }

  /** Milliseconds of all frames that were encoded or suppressed. */
  function Elapsed(h: History): nat {
    match h
    case Start => 0
    case Then(before, f) => Elapsed(before) + if f.fate == NotEncoded then 0 else f.ms
  }

  /** Frames that FEC refused. Each costs a sequence number. */
  function Refusals(h: History): nat {
    match h
    case Start => 0
    case Then(before, f) => Refusals(before) + if f.fate == NotProtected then 1 else 0
  }

  // ---------------------------------------------------------------- what a run calls for

  /** One call on the encoder. */
  datatype Input = Offer(quiet: bool, encodes: bool) | Switch(profile: QualityProfile, accepted: bool)

  /** When frames are suppressed. */
  datatype Rule = Rule(enabled: bool, hangover: U32)

  /** A packet without its number. */
  datatype Header = Header(kind: Kind, codec: CodecId, timestamp: U32, fecBlock: int)

  function HeaderOf(p: Packet): Header { Header(p.kind, p.codec, p.timestamp, p.fecBlock) }

  function Headers(packets: seq<Packet>): (hs: seq<Header>)
    ensures |hs| == |packets|
  {
    seq(|packets|, i requires 0 <= i < |packets| => HeaderOf(packets[i]))
  }

  lemma HeadersConcat(a: seq<Packet>, b: seq<Packet>)
    ensures Headers(a + b) == Headers(a) + Headers(b)
  {}

  /** What the inputs so far amount to: the frames with their fates, the profile in force, the FEC block
      and the frames open in it, and the packets emitted. */
  datatype Run = Run(frames: History, profile: QualityProfile, block: U8, open: nat, out: seq<Header>)

  /** The frame ends a run of more than `hangover` quiet frames. A saturated counter never gets there. */
  predicate Quietened(before: History, quiet: bool, rule: Rule) {
    rule.enabled && quiet && QuietRun(before) + 1 > rule.hangover && rule.hangover < WORD32 - 1
  }

  /** The open block is full once this frame is in it. */
  predicate Fills(r: Run) { !r.profile.codec.IsOpus() && r.open + 1 == r.profile.framesPerBlock }

  function FateOf(r: Run, quiet: bool, encodes: bool, rule: Rule): Fate {
    if Quietened(r.frames, quiet, rule) then Suppressed
    else if !encodes then NotEncoded
    else SendFate(r)
  }

  /** The fate of a frame the codec has encoded. */
  function SendFate(r: Run): Fate {
    if !r.profile.codec.IsOpus() && r.open >= r.profile.framesPerBlock then NotProtected
    else Sent(if Fills(r) then RepairCount(r.profile.framesPerBlock, r.profile.fecRatio) else 0)
  }

  /** The header's FEC word: block in the low byte, symbol shifted into the high byte and cut off
      at 16 bits. */
  function FecWord(block: U8, symbol: nat): int { block + (symbol % 65536 * 256) % 65536 }

  function RepairHeaders(n: nat, codec: CodecId, timestamp: U32, block: U8, first: nat): (hs: seq<Header>)
    ensures |hs| == n
  {
    seq(n, k requires 0 <= k < n => Header(Repair, codec, timestamp, FecWord(block, first + k)))
  }

  /** The packets the latest frame of h calls for: comfort noise on every tenth frame of a suppressed
      stretch; a source packet stamped with the duration of all earlier frames, and the repair packets
      of a block it fills, stamped with the duration including it. */
  function EmittedBy(r: Run, h: History): seq<Header>
    requires h.Then?
  {
    match h.last.fate
    case Suppressed =>
      NoiseHeaders(Wrap32(SuppressedRun(h)), Wrap32(Elapsed(h)), r.block)
    case Sent(n) => SentHeaders(r, n, Wrap32(Elapsed(r.frames)), Wrap32(Elapsed(h)))
    case _ => []
  }

  /** Comfort noise on every tenth count. */
  function NoiseHeaders(count: U32, timestamp: U32, block: U8): seq<Header> {
    if count % 10 == 0 then [Header(Noise, ComfortNoise, timestamp, block)] else []
  }

  /** A source packet and n repair packets, stamped before and after. */
  function SentHeaders(r: Run, n: nat, before: U32, after: U32): seq<Header> {
    var codec := r.profile.codec;
    [Header(Source, codec, before, if codec.IsOpus() then 0 else r.block + 256 * r.open)]
    + RepairHeaders(n, codec, after, r.block, r.profile.framesPerBlock)
  }

  /** `block_id.wrapping_add(1)` on u8. */
  function NextBlock(b: U8): U8 { if b == 255 then 0 else b + 1 }

  /** Block and open frames after a frame with the given fate. */
  function BlockAfter(r: Run, fate: Fate): (U8, nat) {
    if !fate.Sent? || r.profile.codec.IsOpus() then (r.block, r.open)
    else if Fills(r) then (NextBlock(r.block), 0)
    else (r.block, r.open + 1)
  }

  function StepRun(r: Run, input: Input, rule: Rule): Run {
    match input
    case Switch(p, accepted) => if accepted then r.(profile := p, open := 0) else r
    case Offer(quiet, encodes) => After(r, quiet, FateOf(r, quiet, encodes, rule))
  }

  /** The run after one more frame with the given fate. */
  function After(r: Run, quiet: bool, fate: Fate): Run {
    var h := Then(r.frames, Frame(quiet, r.profile.frameMs, r.profile.codec, fate));
    var (block, open) := BlockAfter(r, fate);
    Run(h, r.profile, block, open, r.out + EmittedBy(r, h))
  }

  function RunOf(start: QualityProfile, inputs: seq<Input>, rule: Rule): Run
    decreases |inputs|
  {
    if inputs == [] then Run(Start, start, 0, 0, [])
    else StepRun(RunOf(start, inputs[..|inputs| - 1], rule), inputs[|inputs| - 1], rule)
  }

  // ---------------------------------------------------------------- laws of every run

  /** Every frame was suppressed exactly if it ended a run of more than `hangover` quiet ones. */
  ghost predicate Lawful(h: History, rule: Rule) {
    match h
    case Start => true
    case Then(before, f) =>
      && Lawful(before, rule)
      && (f.fate == Suppressed <==> rule.enabled && QuietRun(h) > rule.hangover && rule.hangover < WORD32 - 1)
  }

  function QuietFlags(h: History): seq<bool> {
    match h
    case Start => []
    case Then(before, f) => QuietFlags(before) + [f.quiet]
  }

  function Offered(inputs: seq<Input>): seq<bool> {
    if inputs == [] then []
    else
      var init, last := Offered(inputs[..|inputs| - 1]), inputs[|inputs| - 1];
      if last.Offer? then init + [last.quiet] else init
  }

  /** A profile under which FEC never refuses a frame: Opus skips FEC, other blocks are non-empty. */
  predicate Sane(p: QualityProfile) { p.codec.IsOpus() || p.framesPerBlock > 0 }

  predicate AllSane(start: QualityProfile, inputs: seq<Input>) {
    Sane(start) && forall i :: 0 <= i < |inputs| && inputs[i].Switch? ==> Sane(inputs[i].profile)
  }

  /** Every run: there is one frame for each offer, in order; suppression follows the quiet runs of the
      offers; the open block is never full; and FEC refuses nothing under sane profiles. */
  lemma {:induction false} RunLaws(start: QualityProfile, inputs: seq<Input>, rule: Rule)
    ensures var r := RunOf(start, inputs, rule);
            && QuietFlags(r.frames) == Offered(inputs) && Lawful(r.frames, rule)
            && (r.open < r.profile.framesPerBlock || r.open == 0)
            && (AllSane(start, inputs) ==> Sane(r.profile) && Refusals(r.frames) == 0)
    decreases |inputs|
  {
    if inputs == [] {
    } else {
      RunLaws(start, inputs[..|inputs| - 1], rule);
    }
  }

  // ---------------------------------------------------------------- the packet stream, from the inputs alone

  /** The profile of the last accepted switch. */
  function InForce(start: QualityProfile, inputs: seq<Input>): QualityProfile {
    if inputs == [] then start
    else
      var last := inputs[|inputs| - 1];
      if last.Switch? && last.accepted then last.profile else InForce(start, inputs[..|inputs| - 1])
  }

  /** Quiet frames offered in a row at the end, switches aside. */
  function QuietOffers(inputs: seq<Input>): nat {
    if inputs == [] then 0
    else
      var n, last := QuietOffers(inputs[..|inputs| - 1]), inputs[|inputs| - 1];
      if last.Switch? then n else if last.quiet then n + 1 else 0
  }

  /** The latest input is a frame that ends more than `hangover` quiet ones. */
  predicate SuppressedAt(inputs: seq<Input>, rule: Rule)
    requires inputs != []
  {
    && inputs[|inputs| - 1].Offer? && rule.enabled
    && QuietOffers(inputs) > rule.hangover && rule.hangover < WORD32 - 1
  }

  /** Suppressed frames in a row at the end, switches aside. */
  function SuppressedOffers(inputs: seq<Input>, rule: Rule): nat {
    if inputs == [] then 0
    else
      var n := SuppressedOffers(inputs[..|inputs| - 1], rule);
      if inputs[|inputs| - 1].Switch? then n else if SuppressedAt(inputs, rule) then n + 1 else 0
  }

  /** Milliseconds of all frames encoded or suppressed so far. */
  function Duration(start: QualityProfile, inputs: seq<Input>, rule: Rule): nat {
    if inputs == [] then 0
    else
      var init, last := inputs[..|inputs| - 1], inputs[|inputs| - 1];
      Duration(start, init, rule) +
      if last.Offer? && (SuppressedAt(inputs, rule) || last.encodes) then InForce(start, init).frameMs else 0
  }

  /** The latest input is a frame that goes out. */
  predicate SentAt(start: QualityProfile, inputs: seq<Input>, rule: Rule)
    requires inputs != []
  {
    var init, last := inputs[..|inputs| - 1], inputs[|inputs| - 1];
    last.Offer? && last.encodes && !SuppressedAt(inputs, rule) && Sane(InForce(start, init))
  }

  /** Frames in the open FEC block: those sent since it was opened or the profile changed. */
  function Members(start: QualityProfile, inputs: seq<Input>, rule: Rule): nat {
    if inputs == [] then 0
    else
      var init, last := inputs[..|inputs| - 1], inputs[|inputs| - 1];
      var n, p := Members(start, init, rule), InForce(start, init);
      if last.Switch? then (if last.accepted then 0 else n)
      else if !SentAt(start, inputs, rule) || p.codec.IsOpus() then n
      else if n + 1 == p.framesPerBlock then 0
      else n + 1
  }

  /** The latest frame completes an FEC block. */
  predicate FillsAt(start: QualityProfile, inputs: seq<Input>, rule: Rule)
    requires inputs != []
  {
    var init := inputs[..|inputs| - 1];
    && SentAt(start, inputs, rule) && !InForce(start, init).codec.IsOpus()
    && Members(start, init, rule) + 1 == InForce(start, init).framesPerBlock
  }

  /** Blocks completed so far. */
  function Blocks(start: QualityProfile, inputs: seq<Input>, rule: Rule): nat {
    if inputs == [] then 0
    else Blocks(start, inputs[..|inputs| - 1], rule) + if FillsAt(start, inputs, rule) then 1 else 0
  }

  predicate AllOf(hs: seq<Header>, kind: Kind) {
    forall i :: 0 <= i < |hs| ==> hs[i].kind == kind
  }

  /** The source packet of the latest frame, if it goes out: stamped with the duration of all frames
      strictly before it; Opus carries no FEC word, Codec2 the number of its block and its place in it. */
  function SourceAt(start: QualityProfile, inputs: seq<Input>, rule: Rule): (hs: seq<Header>)
    requires inputs != []
    ensures AllOf(hs, Source)
  {
    var init := inputs[..|inputs| - 1];
    var codec := InForce(start, init).codec;
    var word := Blocks(start, init, rule) % 256 + 256 * Members(start, init, rule);
    if SentAt(start, inputs, rule)
    then [Header(Source, codec, Wrap32(Duration(start, init, rule)), if codec.IsOpus() then 0 else word)] else []
  }

  /** The comfort-noise packet of the latest frame: on every tenth of a suppressed stretch. */
  function NoiseAt(start: QualityProfile, inputs: seq<Input>, rule: Rule): (hs: seq<Header>)
    requires inputs != []
    ensures AllOf(hs, Noise)
  {
    if SuppressedAt(inputs, rule) && Wrap32(SuppressedOffers(inputs, rule)) % 10 == 0
    then [Header(Noise, ComfortNoise, Wrap32(Duration(start, inputs, rule)),
                 Blocks(start, inputs[..|inputs| - 1], rule) % 256)]
    else []
  }

  /** The repair packets of the latest frame: those of the block it completes. */
  function RepairsAt(start: QualityProfile, inputs: seq<Input>, rule: Rule): (hs: seq<Header>)
    requires inputs != []
    ensures AllOf(hs, Repair)
  {
    var init := inputs[..|inputs| - 1];
    var p := InForce(start, init);
    if FillsAt(start, inputs, rule)
    then RepairHeaders(RepairCount(p.framesPerBlock, p.fecRatio), p.codec, Wrap32(Duration(start, inputs, rule)),
                       Blocks(start, init, rule) % 256, p.framesPerBlock)
    else []
  }

  /** All packets of the latest input: a noise packet, or a source packet and then its repairs. */
  function HeadersAt(start: QualityProfile, inputs: seq<Input>, rule: Rule): seq<Header>
    requires inputs != []
  {
    NoiseAt(start, inputs, rule) + SourceAt(start, inputs, rule) + RepairsAt(start, inputs, rule)
  }

  function HeadersOf(start: QualityProfile, inputs: seq<Input>, rule: Rule): seq<Header> {
    if inputs == [] then []
    else HeadersOf(start, inputs[..|inputs| - 1], rule) + HeadersAt(start, inputs, rule)
  }

  /** The run's state says what the inputs add up to. */
  ghost predicate Agrees(r: Run, start: QualityProfile, inputs: seq<Input>, rule: Rule) {
    && r.profile == InForce(start, inputs)
    && QuietRun(r.frames) == QuietOffers(inputs) && SuppressedRun(r.frames) == SuppressedOffers(inputs, rule)
    && Elapsed(r.frames) == Duration(start, inputs, rule)
    && r.block == Blocks(start, inputs, rule) % 256 && r.open == Members(start, inputs, rule)
    && (r.open < r.profile.framesPerBlock || r.open == 0)
  }

  lemma SwitchAgrees(r: Run, start: QualityProfile, inputs: seq<Input>, rule: Rule)
    requires inputs != [] && inputs[|inputs| - 1].Switch?
    requires Agrees(r, start, inputs[..|inputs| - 1], rule)
    ensures Agrees(StepRun(r, inputs[|inputs| - 1], rule), start, inputs, rule)
    ensures HeadersOf(start, inputs, rule) == HeadersOf(start, inputs[..|inputs| - 1], rule)
  {}

  /** What becomes of an offered frame. */
  lemma FateAgrees(r: Run, start: QualityProfile, inputs: seq<Input>, rule: Rule)
    requires inputs != [] && inputs[|inputs| - 1].Offer?
    requires Agrees(r, start, inputs[..|inputs| - 1], rule)
    ensures var last := inputs[|inputs| - 1];
            var fate := FateOf(r, last.quiet, last.encodes, rule);
            && (fate.Suppressed? <==> SuppressedAt(inputs, rule))
            && (fate.Sent? <==> SentAt(start, inputs, rule))
            && (fate.NotEncoded? <==> !last.encodes && !SuppressedAt(inputs, rule))
            && (fate.Sent? ==> (Fills(r) <==> FillsAt(start, inputs, rule)))
  {}

  lemma OfferAgrees(r: Run, start: QualityProfile, inputs: seq<Input>, rule: Rule)
    requires inputs != [] && inputs[|inputs| - 1].Offer?
    requires Agrees(r, start, inputs[..|inputs| - 1], rule)
    ensures Agrees(StepRun(r, inputs[|inputs| - 1], rule), start, inputs, rule)
  {
    FateAgrees(r, start, inputs, rule);
    NextBlockCounts(Blocks(start, inputs[..|inputs| - 1], rule));
  }

  lemma NextBlockCounts(n: nat)
    ensures NextBlock(n % 256) == (n + 1) % 256
  {}

  /** The packets an offered frame calls for, by its fate. */
  lemma EmissionAgrees(r: Run, start: QualityProfile, inputs: seq<Input>, rule: Rule, h: History)
    requires inputs != [] && inputs[|inputs| - 1].Offer?
    requires Agrees(r, start, inputs[..|inputs| - 1], rule)
    requires h == StepRun(r, inputs[|inputs| - 1], rule).frames
    ensures EmittedBy(r, h) == HeadersAt(start, inputs, rule)
  {
    FateAgrees(r, start, inputs, rule);
    OfferAgrees(r, start, inputs, rule);
    assert SuppressedRun(h) == SuppressedOffers(inputs, rule) && Elapsed(h) == Duration(start, inputs, rule);
    match h.last.fate
    case Suppressed =>
      assert SourceAt(start, inputs, rule) == [] && RepairsAt(start, inputs, rule) == [];
    case Sent(n) =>
      assert NoiseAt(start, inputs, rule) == [];
      if !Fills(r) {
        assert RepairsAt(start, inputs, rule) == [];
      }
    case _ =>
  }

  lemma OfferEmits(r: Run, start: QualityProfile, inputs: seq<Input>, rule: Rule)
    requires inputs != [] && inputs[|inputs| - 1].Offer?
    requires Agrees(r, start, inputs[..|inputs| - 1], rule) && r.out == HeadersOf(start, inputs[..|inputs| - 1], rule)
    ensures StepRun(r, inputs[|inputs| - 1], rule).out == HeadersOf(start, inputs, rule)
  {
    var r' := StepRun(r, inputs[|inputs| - 1], rule);
    EmissionAgrees(r, start, inputs, rule, r'.frames);
  }

  /** Every run: the packet stream is the one the inputs call for, packet by packet and in order. */
  lemma {:induction false} StreamIsFixedByInputs(start: QualityProfile, inputs: seq<Input>, rule: Rule)
    ensures Agrees(RunOf(start, inputs, rule), start, inputs, rule)
    ensures RunOf(start, inputs, rule).out == HeadersOf(start, inputs, rule)
    decreases |inputs|
  {
    if inputs == [] {
    } else {
      var init := inputs[..|inputs| - 1];
      StreamIsFixedByInputs(start, init, rule);
      var r := RunOf(start, init, rule);
      if inputs[|inputs| - 1].Switch? {
        SwitchAgrees(r, start, inputs, rule);
      } else {
        OfferAgrees(r, start, inputs, rule);
        OfferEmits(r, start, inputs, rule);
      }
    }
  }

  /** The packets of one kind, in order. */
  function Only(kind: Kind, hs: seq<Header>): seq<Header> {
    if hs == [] then []
    else Only(kind, hs[..|hs| - 1]) + if hs[|hs| - 1].kind == kind then [hs[|hs| - 1]] else []
  }

  lemma {:induction false} OnlyConcat(kind: Kind, a: seq<Header>, b: seq<Header>)
    ensures Only(kind, a + b) == Only(kind, a) + Only(kind, b)
    decreases |b|
  {
    if b == [] {
      assert a + b == a;
    } else {
      assert (a + b)[..|a + b| - 1] == a + b[..|b| - 1];
      OnlyConcat(kind, a, b[..|b| - 1]);
    }
  }

  lemma {:induction false} OnlyOf(kind: Kind, hs: seq<Header>, all: Kind)
    requires AllOf(hs, all)
    ensures Only(kind, hs) == if kind == all then hs else []
    decreases |hs|
  {
    if hs == [] {
    } else {
      OnlyOf(kind, hs[..|hs| - 1], all);
    }
  }

  /** The packets of the latest input, by kind. */
  lemma KindsAt(kind: Kind, start: QualityProfile, inputs: seq<Input>, rule: Rule)
    requires inputs != []
    ensures Only(kind, NoiseAt(start, inputs, rule)) == if kind == Noise then NoiseAt(start, inputs, rule) else []
    ensures Only(kind, SourceAt(start, inputs, rule)) == if kind == Source then SourceAt(start, inputs, rule) else []
    ensures Only(kind, RepairsAt(start, inputs, rule)) == if kind == Repair then RepairsAt(start, inputs, rule) else []
  {
    OnlyOf(kind, NoiseAt(start, inputs, rule), Noise);
    OnlyOf(kind, SourceAt(start, inputs, rule), Source);
    OnlyOf(kind, RepairsAt(start, inputs, rule), Repair);
  }

  lemma OnlyAt(kind: Kind, start: QualityProfile, inputs: seq<Input>, rule: Rule)
    requires inputs != []
    ensures Only(kind, HeadersAt(start, inputs, rule)) ==
            match kind
            case Source => SourceAt(start, inputs, rule)
            case Noise => NoiseAt(start, inputs, rule)
            case Repair => RepairsAt(start, inputs, rule)
  {
    var a, b, c := NoiseAt(start, inputs, rule), SourceAt(start, inputs, rule), RepairsAt(start, inputs, rule);
    OnlyConcat(kind, a + b, c);
    OnlyConcat(kind, a, b);
    KindsAt(kind, start, inputs, rule);
  }

  /** One more input adds its own packets of each kind. */
  lemma OnlyStep(kind: Kind, start: QualityProfile, inputs: seq<Input>, rule: Rule)
    requires inputs != []
    ensures Only(kind, HeadersOf(start, inputs, rule)) ==
            Only(kind, HeadersOf(start, inputs[..|inputs| - 1], rule))
            + match kind
              case Source => SourceAt(start, inputs, rule)
              case Noise => NoiseAt(start, inputs, rule)
              case Repair => RepairsAt(start, inputs, rule)
  {
    OnlyConcat(kind, HeadersOf(start, inputs[..|inputs| - 1], rule), HeadersAt(start, inputs, rule));
    OnlyAt(kind, start, inputs, rule);
  }

  /** The total duration before each frame that went out. */
  function SourceStamps(start: QualityProfile, inputs: seq<Input>, rule: Rule): seq<U32> {
    if inputs == [] then []
    else
      var init := inputs[..|inputs| - 1];
      SourceStamps(start, init, rule)
      + if SentAt(start, inputs, rule) then [Wrap32(Duration(start, init, rule))] else []
  }

  function Stamps(hs: seq<Header>): (ts: seq<U32>)
    ensures |ts| == |hs|
  {
    seq(|hs|, i requires 0 <= i < |hs| => hs[i].timestamp)
  }

  lemma {:induction false} StampsOfHeaders(start: QualityProfile, inputs: seq<Input>, rule: Rule)
    ensures Stamps(Only(Source, HeadersOf(start, inputs, rule))) == SourceStamps(start, inputs, rule)
    decreases |inputs|
  {
    if inputs == [] {
    } else {
      var init := inputs[..|inputs| - 1];
      StampsOfHeaders(start, init, rule);
      OnlyStep(Source, start, inputs, rule);
      StampsConcat(Only(Source, HeadersOf(start, init, rule)), SourceAt(start, inputs, rule));
    }
  }

  /** Every run: source timestamps are, in order, the total duration of the strictly earlier frames that
      were encoded or suppressed. */
  lemma {:induction false} SourceTimestamps(start: QualityProfile, inputs: seq<Input>, rule: Rule)
    ensures Stamps(Only(Source, RunOf(start, inputs, rule).out)) == SourceStamps(start, inputs, rule)
  {
    StreamIsFixedByInputs(start, inputs, rule);
    StampsOfHeaders(start, inputs, rule);
  }

  lemma StampsConcat(a: seq<Header>, b: seq<Header>)
    ensures Stamps(a + b) == Stamps(a) + Stamps(b)
  {}

  // ---------------------------------------------------------------- a steady call, in closed form

  function Steady(n: nat): (inputs: seq<Input>)
    ensures |inputs| == n
  {
    seq(n, _ => Offer(false, true))
  }

  lemma SteadyInit(n: nat)
    requires n > 0
    ensures Steady(n)[..n - 1] == Steady(n - 1) && Steady(n)[n - 1] == Offer(false, true)
  {}

  /** A loud frame that encodes, under a Codec2 profile. */
  lemma LoudFrame(start: QualityProfile, inputs: seq<Input>, rule: Rule)
    requires inputs != [] && inputs[|inputs| - 1] == Offer(false, true)
    requires var p := InForce(start, inputs[..|inputs| - 1]); !p.codec.IsOpus() && p.framesPerBlock > 0
    ensures var init := inputs[..|inputs| - 1];
            var p, m := InForce(start, init), Members(start, init, rule);
            && InForce(start, inputs) == p && SentAt(start, inputs, rule)
            && Duration(start, inputs, rule) == Duration(start, init, rule) + p.frameMs
            && Members(start, inputs, rule) == (if m + 1 == p.framesPerBlock then 0 else m + 1)
            && Blocks(start, inputs, rule) == Blocks(start, init, rule) + (if m + 1 == p.framesPerBlock then 1 else 0)
  {
    assert QuietOffers(inputs) == 0;
  }

  /** n loud frames under one Codec2 profile: n frames have gone by. */
  lemma {:induction false} SteadyClock(p: QualityProfile, n: nat, rule: Rule)
    requires !p.codec.IsOpus() && p.framesPerBlock > 0
    ensures InForce(p, Steady(n)) == p && Duration(p, Steady(n), rule) == n * p.frameMs
    decreases n
  {
    if n == 0 {
    } else {
      SteadyInit(n);
      SteadyClock(p, n - 1, rule);
      LoudFrame(p, Steady(n), rule);
      MulSucc(n - 1, p.frameMs);
    }
  }

  lemma MulSucc(n: nat, m: nat)
    ensures (n + 1) * m == n * m + m
  {}

  /** n / per blocks are complete and n % per frames are open. */
  lemma {:induction false} SteadyBlocks(p: QualityProfile, n: nat, rule: Rule)
    requires !p.codec.IsOpus() && p.framesPerBlock > 0
    ensures Members(p, Steady(n), rule) == n % p.framesPerBlock && Blocks(p, Steady(n), rule) == n / p.framesPerBlock
    decreases n
  {
    if n == 0 {
      DivModUnique(0, p.framesPerBlock, 0, 0);
    } else {
      SteadyInit(n);
      SteadyBlocks(p, n - 1, rule);
      SteadyClock(p, n - 1, rule);
      LoudFrame(p, Steady(n), rule);
      DivSucc(n - 1, p.framesPerBlock);
    }
  }

  lemma DivSucc(n: nat, m: nat)
    requires m > 0
    ensures (n + 1) % m == if n % m + 1 == m then 0 else n % m + 1
    ensures (n + 1) / m == n / m + if n % m + 1 == m then 1 else 0
  {
    ModSucc(n, m);
    var q, r := n / m, n % m;
    assert n == m * q + r;
    if r + 1 == m {
      assert (q + 1) * m == m * q + m;
      DivModUnique(n + 1, m, q + 1, 0);
    } else {
      assert q * m == m * q;
      DivModUnique(n + 1, m, q, r + 1);
    }
  }

  /** Frame k of a steady call: stamped k frames in, at place k % per of block k / per mod 256. */
  function SteadyHeader(p: QualityProfile, k: nat): Header
    requires p.framesPerBlock > 0
  {
    var per := p.framesPerBlock;
    Header(Source, p.codec, Wrap32(k * p.frameMs), (k / per) % 256 + 256 * (k % per))
  }

  function SteadyHeaders(p: QualityProfile, n: nat): seq<Header>
    requires p.framesPerBlock > 0
  {
    if n == 0 then [] else SteadyHeaders(p, n - 1) + [SteadyHeader(p, n - 1)]
  }

  /** The source packets of a steady call, in closed form. */
  lemma {:induction false} SteadyCall(p: QualityProfile, n: nat, rule: Rule)
    requires !p.codec.IsOpus() && p.framesPerBlock > 0
    ensures Only(Source, RunOf(p, Steady(n), rule).out) == SteadyHeaders(p, n)
  {
    StreamIsFixedByInputs(p, Steady(n), rule);
    SteadySources(p, n, rule);
  }

  lemma {:induction false} SteadySources(p: QualityProfile, n: nat, rule: Rule)
    requires !p.codec.IsOpus() && p.framesPerBlock > 0
    ensures Only(Source, HeadersOf(p, Steady(n), rule)) == SteadyHeaders(p, n)
    decreases n
  {
    if n == 0 {
    } else {
      SteadySources(p, n - 1, rule);
      SteadyInit(n);
      OnlyStep(Source, p, Steady(n), rule);
      SteadySource(p, n, rule);
    }
  }

  lemma SteadySource(p: QualityProfile, n: nat, rule: Rule)
    requires !p.codec.IsOpus() && p.framesPerBlock > 0 && n > 0
    ensures SourceAt(p, Steady(n), rule) == [SteadyHeader(p, n - 1)]
  {
    SteadyInit(n);
    SteadyClock(p, n - 1, rule);
    SteadyBlocks(p, n - 1, rule);
    LoudFrame(p, Steady(n), rule);
  }

  /** The repair count is the ceiling of the product. */
  lemma RepairCountIsCeiling(n: nat, ratio: real)
    requires ratio >= 0.0
    ensures RepairCount(n, ratio) as real - 1.0 < n as real * ratio <= RepairCount(n, ratio) as real
  {
    assert n as real * ratio >= 0.0;
  }

  /** The FEC word: block in the low byte, low byte of the symbol in the high one. */
  lemma FecWordLayout(block: U8, symbol: nat)
    ensures FecWord(block, symbol) % 256 == block && FecWord(block, symbol) / 256 == symbol % 256
  {}

  // ---------------------------------------------------------------- the encoder

  /** What the three counters show: suppressed frames in a row, the clock, and lost numbers. */
  function Counters(h: History): (U32, U32, nat) {
    (Wrap32(SuppressedRun(h)), Wrap32(Elapsed(h)), Refusals(h))
  }

  lemma CountersAfter(h: History, f: Frame)
    requires f.ms < WORD32
    ensures var (run, clock, lost) := Counters(h);
            Counters(Then(h, f)) == (if f.fate == Suppressed then Add32(run, 1) else 0,
                                     if f.fate == NotEncoded then clock else Add32(clock, f.ms),
                                     if f.fate == NotProtected then lost + 1 else lost)
  {
    AddWraps(SuppressedRun(h), 1);
    AddWraps(Elapsed(h), f.ms);
  }

  /** Packet k carries sequence number k mod 2^32. */
  ghost predicate Numbered(sent: seq<Packet>) {
    forall k :: 0 <= k < |sent| ==> sent[k].seqNo == Wrap32(k)
  }

  datatype Result = Ok(packets: seq<Packet>) | Err

  function PacketsOf(r: Result): seq<Packet> { if r.Ok? then r.packets else [] }

  class CallEncoder {
    var profile: QualityProfile
    var fec: FecEncoder
    var seqNo: U32
    var blockId: U8
    var frameInBlock: nat
    var timestampMs: U32
    const detector: SilenceDetector
    const suppressionEnabled: bool
    var cnCounter: U32
    /** Every frame offered, every packet emitted, and sequence numbers spent on packets that an
        FEC error withheld. */
    ghost var frames: History
    ghost var sent: seq<Packet>
    ghost var withheld: nat

    /** Packets are numbered consecutively from 0, as long as none was withheld. */
    ghost predicate NumberingOk()
      reads this
    {
      seqNo == Wrap32(|sent| + withheld) && (withheld == 0 ==> Numbered(sent))
    }

    /** The FEC encoder holds exactly the frames of the open block, which is never full. */
    ghost predicate BlockOk()
      reads this, fec
    {
      && fec.framesPerBlock == profile.framesPerBlock && fec.symbols == frameInBlock
      && (frameInBlock < profile.framesPerBlock || frameInBlock == 0)
    }

    ghost predicate Valid()
      reads this, fec, detector
    {
      && detector.Valid()
      && (suppressionEnabled ==> detector.run == QuietRun(frames))
      && (cnCounter, timestampMs, withheld) == Counters(frames)
      && NumberingOk() && BlockOk()
    }

    /** Where the encoder is in a run. */
    ghost function AsRun(): Run
      reads this
    {
      Run(frames, profile, blockId, frameInBlock, Headers(sent))
    }

    ghost function TheRule(): Rule { Rule(suppressionEnabled, detector.hangover) }

    constructor (profile: QualityProfile, suppression: bool, hangover: U32)
      ensures Valid() && fresh(fec) && fresh(detector)
      ensures AsRun() == RunOf(profile, [], TheRule()) && sent == []
      ensures TheRule() == Rule(suppression, hangover)
    {
      this.profile := profile;
      fec := new FecEncoder(profile.framesPerBlock);
      seqNo, blockId, frameInBlock, timestampMs, cnCounter := 0, 0, 0, 0, 0;
      detector := new SilenceDetector(hangover);
      suppressionEnabled := suppression;
      frames, sent, withheld := Start, [], 0;
    }

    /** `encode_frame`: the counters bring the run forward by exactly one offered frame. An error is
        returned exactly when the codec or FEC refuses it; only the latter costs a number. */
    method EncodeFrame(quiet: bool, encodes: bool) returns (r: Result)
      requires Valid()
      modifies this, fec, detector
      ensures Valid() && fec == old(fec)
      ensures AsRun() == StepRun(old(AsRun()), Offer(quiet, encodes), TheRule())
      ensures sent == old(sent) + PacketsOf(r)
      ensures r.Err? <==> frames.Then? && (frames.last.fate.NotEncoded? || frames.last.fate.NotProtected?)
    {
      var silent := Listen(quiet);
      if silent {
        r := Suppress(quiet);
        return;
      }
      cnCounter := 0;
      if !encodes {
        r := Drop(quiet);
        return;
      }
      r := SendSource(quiet);
    }

    /** Everything `Valid` says, with the latest frame known to the detector only. */
    ghost predicate Pending(quiet: bool, cn: U32)
      reads this, fec, detector
    {
      && detector.Valid()
      && (suppressionEnabled ==> detector.run == if quiet then QuietRun(frames) + 1 else 0)
      && (cn, timestampMs, withheld) == Counters(frames)
      && NumberingOk() && BlockOk()
    }

    method Listen(quiet: bool) returns (silent: bool)
      requires Valid()
      modifies detector
      ensures Pending(quiet, cnCounter)
      ensures silent == Quietened(frames, quiet, TheRule())
    {
      silent := false;
      if suppressionEnabled {
        silent := detector.IsSilent(quiet);
      }
    }

    /** The suppressed branch. */
    method Suppress(quiet: bool) returns (r: Result)
      requires Pending(quiet, cnCounter)
      modifies this`cnCounter, this`timestampMs, this`seqNo, this`frames, this`sent
      ensures Valid()
      ensures AsRun() == After(old(AsRun()), quiet, Suppressed)
      ensures r.Ok? && sent == old(sent) + r.packets
    {
      ghost var f := Frame(quiet, profile.frameMs, profile.codec, Suppressed);
      CountersAfter(frames, f);
      cnCounter := Add32(cnCounter, 1);
      timestampMs := Add32(timestampMs, profile.frameMs);
      var packets := SendNoise();
      frames := Then(frames, f);
      r := Ok(packets);
    }

    /** A comfort-noise packet when the counter says so. */
    method SendNoise() returns (packets: seq<Packet>)
      requires NumberingOk()
      modifies this`seqNo, this`sent
      ensures NumberingOk() && sent == old(sent) + packets
      ensures Headers(sent) == Headers(old(sent)) + NoiseHeaders(cnCounter, timestampMs, blockId)
    {
      packets := [];
      if cnCounter % 10 == 0 {
        var p := Packet(Noise, ComfortNoise, seqNo, timestampMs, blockId);
        Emit(p);
        packets := [p];
      }
      HeadersConcat(old(sent), packets);
    }

    /** The codec refused the frame: nothing is sent and the clock stands still. */
    method Drop(quiet: bool) returns (r: Result)
      requires Pending(quiet, Counters(frames).0) && cnCounter == 0
      modifies this`frames
      ensures Valid()
      ensures AsRun() == After(old(AsRun()), quiet, NotEncoded)
      ensures r.Err? && sent == old(sent) + PacketsOf(r)
    {
      ghost var f := Frame(quiet, profile.frameMs, profile.codec, NotEncoded);
      CountersAfter(frames, f);
      frames := Then(frames, f);
      assert Headers(sent) + [] == Headers(sent);
      r := Err;
    }

    /** Give a packet the next sequence number. */
    method Emit(p: Packet)
      requires NumberingOk() && p.seqNo == seqNo
      modifies this`seqNo, this`sent
      ensures sent == old(sent) + [p] && NumberingOk()
    {
      AddWraps(|sent| + withheld, 1);
      seqNo := Add32(seqNo, 1);
      sent := sent + [p];
    }

    /** The encoding branch: source packet, then for Codec2 the FEC block. */
    method SendSource(quiet: bool) returns (r: Result)
      requires Pending(quiet, Counters(frames).0) && cnCounter == 0
      modifies this`timestampMs, this`seqNo, this`frames, this`sent, this`withheld
      modifies this`frameInBlock, this`blockId, fec
      ensures Valid()
      ensures AsRun() == After(old(AsRun()), quiet, SendFate(old(AsRun())))
      ensures sent == old(sent) + PacketsOf(r) && (r.Err? <==> SendFate(old(AsRun())).NotProtected?)
    {
      ghost var before := AsRun();
      ghost var f := Frame(quiet, profile.frameMs, profile.codec, SendFate(before));
      CountersAfter(frames, f);
      r := SendPackets();
      frames := Then(frames, f);
    }

    /** The packets of an encoded frame, before the frame enters the history. */
    method SendPackets() returns (r: Result)
      requires NumberingOk() && BlockOk() && timestampMs == Wrap32(Elapsed(frames))
      modifies this`timestampMs, this`seqNo, this`sent, this`withheld, this`frameInBlock, this`blockId, fec
      ensures NumberingOk() && BlockOk()
      ensures timestampMs == Add32(old(timestampMs), profile.frameMs)
      ensures sent == old(sent) + PacketsOf(r) && (r.Err? <==> SendFate(old(AsRun())).NotProtected?)
      ensures withheld == old(withheld) + if r.Ok? then 0 else 1
      ensures (blockId, frameInBlock) == BlockAfter(old(AsRun()), SendFate(old(AsRun())))
      ensures var was := old(AsRun());
              Headers(sent) == was.out + match SendFate(was)
                                         case Sent(n) => SentHeaders(was, n, old(timestampMs), timestampMs)
                                         case _ => []
    {
      var isOpus := profile.codec.IsOpus();
      var source := Packet(Source, profile.codec, seqNo, timestampMs,
                           if isOpus then 0 else blockId + 256 * frameInBlock);
      timestampMs := Add32(timestampMs, profile.frameMs);
      if isOpus {
        Emit(source);
        r := Ok([source]);
      } else {
        r := Protect(source);
      }
      HeadersConcat(old(sent), PacketsOf(r));
    }

    /** The Codec2 part: feed the FEC encoder, close the block when it is full. */
    method Protect(source: Packet) returns (r: Result)
      requires NumberingOk() && BlockOk() && source.seqNo == seqNo
      modifies this`seqNo, this`sent, this`withheld, this`frameInBlock, this`blockId, fec
      ensures NumberingOk() && BlockOk()
      ensures r.Ok? <==> old(frameInBlock) < profile.framesPerBlock
      ensures sent == old(sent) + PacketsOf(r)
      ensures withheld == old(withheld) + if r.Ok? then 0 else 1
      ensures var filled := old(frameInBlock) + 1 == profile.framesPerBlock;
              var n := if filled then RepairCount(profile.framesPerBlock, profile.fecRatio) else 0;
              var repairs := RepairHeaders(n, profile.codec, timestampMs, old(blockId), profile.framesPerBlock);
              && (r.Ok? ==> Headers(r.packets) == [HeaderOf(source)] + repairs)
              && (blockId, frameInBlock) == if r.Err? then (old(blockId), old(frameInBlock))
                                            else if filled then (NextBlock(old(blockId)), 0)
                                            else (old(blockId), old(frameInBlock) + 1)
    {
      var added := fec.AddSourceSymbol();
      if !added {
        Withhold();
        assert sent + [] == sent;
        return Err;
      }
      Emit(source);
      frameInBlock := frameInBlock + 1;
      var repairs := [];
      if frameInBlock >= profile.framesPerBlock {
        repairs := CloseBlock();
      }
      r := Ok([source] + repairs);
      assert sent == old(sent) + [source] + repairs == old(sent) + r.packets;
      HeadersConcat([source], repairs);
    }

    /** A sequence number is spent on a packet that is not returned. */
    method Withhold()
      requires NumberingOk()
      modifies this`seqNo, this`withheld
      ensures NumberingOk() && withheld == old(withheld) + 1
    {
      AddWraps(|sent| + withheld, 1);
      seqNo := Add32(seqNo, 1);
      withheld := withheld + 1;
    }

    /** Repair packets, then a fresh block. */
    method CloseBlock() returns (repairs: seq<Packet>)
      requires NumberingOk()
      requires fec.framesPerBlock == profile.framesPerBlock == fec.symbols
      modifies this`seqNo, this`sent, this`frameInBlock, this`blockId, fec
      ensures NumberingOk() && BlockOk()
      ensures Headers(repairs) == RepairHeaders(RepairCount(profile.framesPerBlock, profile.fecRatio), profile.codec,
                                                timestampMs, old(blockId), profile.framesPerBlock)
      ensures sent == old(sent) + repairs
      ensures blockId == NextBlock(old(blockId)) && frameInBlock == 0
    {
      repairs := EmitRepairs();
      fec.FinalizeBlock();
      blockId := NextBlock(blockId);
      frameInBlock := 0;
    }

    /** The repair packets of a full block. */
    method EmitRepairs() returns (repairs: seq<Packet>)
      requires NumberingOk()
      modifies this`seqNo, this`sent
      ensures Headers(repairs) == RepairHeaders(RepairCount(fec.symbols, profile.fecRatio), profile.codec,
                                                timestampMs, blockId, fec.symbols)
      ensures sent == old(sent) + repairs && NumberingOk()
    {
      var indices := fec.GenerateRepair(profile.fecRatio);
      repairs := [];
      var i := 0;
      while i < |indices|
        invariant 0 <= i <= |indices| && |repairs| == i
        invariant forall k :: 0 <= k < i ==>
                    HeaderOf(repairs[k]) ==
                    Header(Repair, profile.codec, timestampMs, FecWord(blockId, fec.symbols + k))
        invariant sent == old(sent) + repairs && NumberingOk()
      {
        var p := Packet(Repair, profile.codec, seqNo, timestampMs, blockId + (indices[i] * 256) % 65536);
        Emit(p);
        repairs := repairs + [p];
        i := i + 1;
      }
    }

    /** `set_profile`: a fresh FEC encoder and block position; numbering and clock carry on. */
    method SetProfile(p: QualityProfile, accepted: bool) returns (ok: bool)
      requires Valid()
      modifies this`profile, this`fec, this`frameInBlock
      ensures Valid() && ok == accepted
      ensures AsRun() == StepRun(old(AsRun()), Switch(p, accepted), TheRule())
      ensures if ok then fresh(fec) else fec == old(fec)
    {
      if !accepted {
        return false;
      }
      fec := new FecEncoder(p.framesPerBlock);
      profile := p;
      frameInBlock := 0;
      return true;
    }

    /** Any run of frames and profile switches on a fresh encoder. Every field of every packet is fixed
        by the inputs: kinds, codecs, timestamps and FEC words are those the run calls for, in order,
        and unless FEC refuses a frame packets of all kinds are numbered 0, 1, 2, ... */
    method EncodeAll(inputs: seq<Input>) returns (packets: seq<Packet>)
      requires Valid() && AsRun() == RunOf(profile, [], TheRule())
      modifies this, fec, detector
      ensures Valid() && AsRun() == RunOf(old(profile), inputs, TheRule())
      ensures Headers(packets) == HeadersOf(old(profile), inputs, TheRule())
      ensures Refusals(RunOf(old(profile), inputs, TheRule()).frames) == 0 ==>
                forall k :: 0 <= k < |packets| ==> packets[k].seqNo == k % WORD32
    {
      packets := [];
      for i := 0 to |inputs|
        invariant Valid() && packets == sent
        invariant AsRun() == RunOf(old(profile), inputs[..i], TheRule())
        invariant fec == old(fec) || fresh(fec)
      {
        assert inputs[..i + 1][..i] == inputs[..i];
        match inputs[i]
        case Offer(quiet, encodes) =>
          var r := EncodeFrame(quiet, encodes);
          packets := packets + PacketsOf(r);
        case Switch(p, accepted) =>
          var ok := SetProfile(p, accepted);
      }
      assert inputs[..|inputs|] == inputs;
      StreamIsFixedByInputs(old(profile), inputs, TheRule());
    }
  }
}
