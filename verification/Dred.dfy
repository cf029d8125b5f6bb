/** DRED side-channel caching: two heap states swapped on every successful parse. libopus itself
    is outside; the number it returns for a packet is part of the packet. */
module Dred {
  import opened Basics
  import opened CallTypes

  /** `parsed` is what `opus_dred_parse` returns for a non-empty payload: an error when negative,
      nothing when 0, else the usable history in samples. */
  datatype RxPacket = RxPacket(seqNo: U32, codec: CodecId, repair: bool, empty: bool, parsed: i32) {
    /** The outcome of `parse_into`: libopus is not asked about an empty payload. */
    function Dred(): i32 { if empty then 0 else parsed }
  }

  predicate Bearing(p: RxPacket) { p.Dred() > 0 }

  /** The most recent DRED-bearing packet of a history. */
  function LastBearing(h: seq<RxPacket>): Option<RxPacket> {
    if h == [] then None
    else if Bearing(h[|h| - 1]) then Some(h[|h| - 1])
    else LastBearing(h[..|h| - 1])
  }

  /** It is the last packet with a positive history, with none after it. */
  lemma {:induction false} LastBearingAt(h: seq<RxPacket>) returns (j: nat)
    requires LastBearing(h).Some?
    ensures j < |h| && LastBearing(h) == Some(h[j]) && h[j].Dred() > 0
    ensures forall m :: j < m < |h| ==> h[m].Dred() <= 0
    decreases |h|
  {
    var n := |h| - 1;
    if Bearing(h[n]) {
      j := n;
    } else {
      j := LastBearingAt(h[..n]);
    }
  }

  /** There is none exactly when no packet has any. */
  lemma {:induction false} NoneBearing(h: seq<RxPacket>)
    ensures LastBearing(h) == None <==> forall m :: 0 <= m < |h| ==> h[m].Dred() <= 0
    decreases |h|
  {
    if h == [] {
    } else {
      var init := h[..|h| - 1];
      NoneBearing(init);
      assert forall m :: 0 <= m < |init| ==> init[m] == h[m];
    }
  }

  /** `contents` stands for the libopus object: the packet it was last parsed from. */
  class DredState {
    var samplesAvailable: i32
    var contents: Option<RxPacket>

    constructor ()
      ensures samplesAvailable == 0 && contents == None
    {
      samplesAvailable := 0;
      contents := None;
    }
  }

  /** `parse_into`: libopus overwrites its object whatever the outcome, except for an empty payload. */
  method ParseInto(state: DredState, p: RxPacket) returns (available: Option<i32>)
    modifies state
    ensures state.contents == if p.empty then old(state.contents) else Some(p)
    ensures state.samplesAvailable == if p.Dred() < 0 then 0 else p.Dred()
    ensures available == if p.Dred() < 0 then None else Some(p.Dred())
  {
    if p.empty {
      state.samplesAvailable := 0;
      return Some(0);
    }
    state.contents := Some(p);
    if p.parsed < 0 {
      state.samplesAvailable := 0;
      return None;
    }
    state.samplesAvailable := p.parsed;
    return Some(p.parsed);
  }

  /** Audio synthesised from a parsed packet, `offset` samples before its own audio. */
  datatype Reconstruction = Synthesised(from: Option<RxPacket>, offset: i32) | EmptyOutput | BadOffset | LibError

  /** `reconstruct_from_dred`; `lib` is what libopus answers if it is called at all. */
  method ReconstructFromDred(state: DredState, offset: i32, outLen: nat, lib: i32) returns (r: Reconstruction)
    ensures r == if outLen == 0 then EmptyOutput
                 else if offset <= 0 || offset > state.samplesAvailable then BadOffset
                 else if lib < 0 then LibError else Synthesised(state.contents, offset)
  {
    if outLen == 0 {
      return EmptyOutput;
    }
    if offset <= 0 {
      return BadOffset;
    }
    if offset > state.samplesAvailable {
      return BadOffset;
    }
    if lib < 0 {
      return LibError;
    }
    return Synthesised(state.contents, offset);
  }

  /** Scratch and last-good state. `seen` is every Opus source packet offered since creation or
      the last reset. */
  class DredCache {
    var scratch: DredState
    var lastGood: DredState
    var lastGoodSeq: Option<U32>
    ghost var seen: seq<RxPacket>

    /** The cache is coherent: the two states are different objects, and the last-good one holds
        the most recent DRED-bearing packet, under that packet's sequence number. */
    ghost predicate Valid()
      reads this, scratch, lastGood
    {
      && scratch != lastGood
      && match LastBearing(seen)
         case None => lastGoodSeq == None
         case Some(p) =>
           && lastGoodSeq == Some(p.seqNo)
           && lastGood.contents == Some(p)
           && lastGood.samplesAvailable == p.Dred() > 0
    }

    constructor ()
      ensures Valid() && seen == [] && fresh(scratch) && fresh(lastGood)
    {
      scratch := new DredState();
      lastGood := new DredState();
      lastGoodSeq, seen := None, [];
    }

    /** Parse an arriving Opus source packet; keep it if it bears DRED. */
    method Offer(p: RxPacket)
      requires Valid()
      modifies this, scratch, lastGood
      ensures Valid() && seen == old(seen) + [p]
      ensures {scratch, lastGood} == {old(scratch), old(lastGood)}
      ensures lastGoodSeq == if Bearing(p) then Some(p.seqNo) else old(lastGoodSeq)
      ensures Bearing(p) ==> lastGood.contents == Some(p)
      ensures lastGood.samplesAvailable == if Bearing(p) then p.Dred() else old(lastGood.samplesAvailable)
    {
      assert (seen + [p])[..|seen|] == seen;
      var available := ParseInto(scratch, p);
      seen := seen + [p];
      match available
      case Some(n) =>
        if n > 0 {
          scratch, lastGood := lastGood, scratch;
          lastGoodSeq := Some(p.seqNo);
        }
      case None =>
    }

    /** A codec switch forgets the anchor. */
    method Reset()
      requires Valid()
      modifies this`lastGoodSeq, this`seen
      ensures Valid() && seen == [] && lastGoodSeq == None
    {
      lastGoodSeq, seen := None, [];
    }
  }
}
