/** The desktop receive side around the jitter buffer: which frame `decode_next` plays when the
    buffer reports a packet, a gap or nothing. The codec's successes are inputs. */
module CallDecoder {
  import opened Basics
  import opened CallTypes
  import opened Dred

  const MAX_SEQ_DELTA: nat := 128

  datatype Playout = GotPacket(p: RxPacket) | Missing(seqNo: U32) | NotReady

  /** What the codec would answer in this call. */
  datatype CodecAnswers = CodecAnswers(decodes: bool, conceals: bool, switches: bool, dred: i32)

  /** What was played: nothing, comfort noise, the packet, a reconstruction from `from` reaching
      `offset` samples back, or classical concealment. */
  datatype Played = Silence | Noise | Audio(seqNo: U32) | FromDred(from: Option<RxPacket>, offset: int) | Concealed

  /** `profile_for_codec`. */
  function ProfileFor(codec: CodecId): QualityProfile {
    match codec
    case Opus24k => GOOD
    case Opus16k => GOOD.(codec := Opus16k, fecRatio := 0.3)
    case Opus6k => DEGRADED
    case Opus32k => GOOD.(codec := Opus32k, fecRatio := 0.1)
    case Opus48k => GOOD.(codec := Opus48k, fecRatio := 0.1)
    case Opus64k => GOOD.(codec := Opus64k, fecRatio := 0.1)
    case Codec2_3200 => GOOD.(codec := Codec2_3200, fecRatio := 0.5)
    case Codec2_1200 => CATASTROPHIC
    case ComfortNoise => GOOD
  }

  /** Samples from the missing frame to the start of packet p, if p can cover it: p is 1 to 128
      frames ahead and its DRED history reaches back that far. */
  function Reach(p: RxPacket, missing: U32, frameMs: U8): Option<int> {
    var delta := Sub32(p.seqNo, missing);
    if 0 < delta <= MAX_SEQ_DELTA && 0 < delta * (48 * frameMs) <= p.Dred() as int
    then Some(delta * (48 * frameMs)) else None
  }

  /** By absolute positions: packet p at position pos covers the missing frame at position q exactly when
      it is 1 to 128 frames ahead and that many frames fit its history. */
  lemma ReachByPosition(p: RxPacket, pos: nat, q: nat, frameMs: U8)
    requires p.seqNo == Wrap32(pos) && pos < q + 0x8000_0000 && q < pos + 0x8000_0000
    ensures var back := (pos - q) * (48 * frameMs);
            Reach(p, Wrap32(q), frameMs) ==
            if q < pos <= q + 128 && 0 < back <= p.Dred() as int then Some(back) else None
  {
    if q <= pos {
      SubWraps(pos, q);
    } else {
      SubWrapsBack(pos, q);
    }
  }

  /** Each audio codec is decoded under a profile of its own, with 40 ms frames for the two lowest rates
      and 20 ms for the others. */
  lemma ProfileMatchesCodec(codec: CodecId)
    requires codec != ComfortNoise
    ensures ProfileFor(codec).codec == codec
    ensures ProfileFor(codec).frameMs == if codec == Opus6k || codec == Codec2_1200 then 40 else 20
  {}

  class CallDecoder {
    var profile: QualityProfile
    const cache: DredCache
    var dredReconstructions: nat
    var classicalPlc: nat
    /** Every packet ingested. */
    ghost var arrived: seq<RxPacket>

    ghost predicate Valid()
      reads this, cache, cache.scratch, cache.lastGood
    {
      cache.Valid() && cache.seen == OpusSources(arrived)
    }

    constructor (profile: QualityProfile)
      ensures Valid() && arrived == [] && this.profile == profile && fresh(cache)
    {
      this.profile := profile;
      cache := new DredCache();
      dredReconstructions, classicalPlc := 0, 0;
      arrived := [];
    }

    /** `ingest`, DRED part: after any ingest sequence the cache holds the latest Opus source packet
        that carried DRED. Repair and Codec2 packets leave it alone. */
    method Ingest(p: RxPacket)
      requires Valid()
      modifies this`arrived, cache, cache.scratch, cache.lastGood
      ensures Valid() && arrived == old(arrived) + [p]
      ensures {cache.scratch, cache.lastGood} == {old(cache.scratch), old(cache.lastGood)}
    {
      assert (arrived + [p])[..|arrived|] == arrived;
      if p.codec.IsOpus() && !p.repair {
        cache.Offer(p);
      }
      arrived := arrived + [p];
    }

    /** `decode_next`. `depth` is the number of packets still buffered, `outLen` the PCM buffer. */
    method DecodeNext(pop: Playout, depth: nat, outLen: nat, codec: CodecAnswers) returns (played: Played)
      requires Valid()
      modifies this`profile, this`dredReconstructions, this`classicalPlc
      ensures Valid()
      ensures pop.NotReady? ==> played == Silence
      ensures pop.GotPacket? ==>
                played == if pop.p.codec == ComfortNoise then Noise
                          else if codec.decodes then Audio(pop.p.seqNo)
                          else if codec.conceals then Concealed else Silence
      ensures pop.GotPacket? ==>
                profile == if pop.p.codec != ComfortNoise && pop.p.codec != old(profile).codec && codec.switches
                           then ProfileFor(pop.p.codec) else old(profile)
      ensures !pop.GotPacket? ==> profile == old(profile)
      // a gap: never an offset the callee would refuse, always from the latest DRED-bearing packet
      ensures pop.Missing? ==>
                played == if depth == 0 then Silence
                          else match GapCover(pop.seqNo)
                               case Some(f) => if outLen > 0 && codec.dred >= 0 then f
                                               else if codec.conceals then Concealed else Silence
                               case None => if codec.conceals then Concealed else Silence
      ensures dredReconstructions == old(dredReconstructions) + if played.FromDred? then 1 else 0
      ensures classicalPlc == old(classicalPlc) + if pop.Missing? && depth > 0 && !played.FromDred? then 1 else 0
    {
      match pop
      case NotReady =>
        played := Silence;
      case GotPacket(p) =>
        if p.codec == ComfortNoise {
          return Noise;
        }
        if p.codec != profile.codec && codec.switches {
          profile := ProfileFor(p.codec);
        }
        played := if codec.decodes then Audio(p.seqNo) else if codec.conceals then Concealed else Silence;
      case Missing(seqNo) =>
        if depth == 0 {
          return Silence;
        }
        var f := TryDred(seqNo, outLen, codec.dred);
        match f
        case Some(frame) =>
          dredReconstructions := dredReconstructions + 1;
          played := frame;
        case None =>
          classicalPlc := classicalPlc + 1;
          played := if codec.conceals then Concealed else Silence;
    }

    /** The reconstruction a gap calls for, from the arrival history alone. */
    ghost function GapCover(missing: U32): Option<Played>
      reads this
    {
      if !profile.codec.IsOpus() then None
      else match LastBearing(OpusSources(arrived))
           case None => None
           case Some(p) =>
             match Reach(p, missing, profile.frameMs)
             case None => None
             case Some(offset) => Some(FromDred(Some(p), offset))
    }

    /** The reconstruction attempt: in machine arithmetic, and only with offsets the callee takes. */
    method TryDred(seqNo: U32, outLen: nat, lib: i32) returns (f: Option<Played>)
      requires Valid()
      ensures f == if outLen > 0 && lib >= 0 then GapCover(seqNo) else None
    {
      if !profile.codec.IsOpus() || cache.lastGoodSeq == None {
        return None;
      }
      var seqDelta := Sub32(cache.lastGoodSeq.value, seqNo);
      if 0 < seqDelta <= MAX_SEQ_DELTA {
        var frameSamples: i32 := (48_000 * (profile.frameMs as i32)) / 1000;
        assert frameSamples as int == 48 * profile.frameMs;
        DeltaTimesFrame(seqDelta, frameSamples as int);
        var offset: i32 := (seqDelta as i32) * frameSamples;
        var available := cache.lastGood.samplesAvailable;
        if 0 < offset <= available {
          var r := ReconstructFromDred(cache.lastGood, offset, outLen, lib);
          assert !r.BadOffset?;
          if r.Synthesised? {
            return Some(FromDred(r.from, r.offset as int));
          }
        }
      }
      return None;
    }
  }

  lemma DeltaTimesFrame(delta: int, frame: int)
    requires 0 < delta <= MAX_SEQ_DELTA && 0 <= frame <= 48 * 255
    ensures 0 <= delta * frame <= 128 * 48 * 255
  {}

  /** The cache sees exactly the Opus packets that are not repairs. */
  lemma {:induction false} SourcesAreOpus(h: seq<RxPacket>, p: RxPacket)
    ensures p in OpusSources(h) <==> p in h && p.codec.IsOpus() && !p.repair
    decreases |h|
  {
    if h == [] {
    } else {
      SourcesAreOpus(h[..|h| - 1], p);
      assert h == h[..|h| - 1] + [h[|h| - 1]];
    }
  }

  /** Opus source packets of an arrival history. */
  function OpusSources(h: seq<RxPacket>): seq<RxPacket> {
    if h == [] then []
    else
      var init, p := OpusSources(h[..|h| - 1]), h[|h| - 1];
      if p.codec.IsOpus() && !p.repair then init + [p] else init
  }
}
