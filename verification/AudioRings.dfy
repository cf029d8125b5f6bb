/** `AudioRing` as the program holds it, called one whole call at a time. The contracts are for
    wrapping 64-bit cursors; the histories are those of the step machine in `LapRing`. */
module AudioRings {
  import opened Basics
  import opened Modular
  import opened LapRing

  /** Where a read begins: at the read position, or at the oldest sample still in the ring. */
  function ReadStart(accepted: seq<Sample>, readAt: nat): nat
  {
    Max(readAt, |accepted| - CAP)
  }

  /** The state of a write about to begin storing. */
  lemma BeginStoring(s: State, samples: seq<Sample>) returns (s': State)
    requires Inv(s) && s.producer.PIdle?
    ensures s' == Step(s, StartWrite(samples)) && Inv(s')
  {
    s' := Step(s, StartWrite(samples));
    assert History(s') == History(s);
    SameReads(s, s');
  }

  /** What the sizing step of an undisturbed read leaves behind. */
  lemma SizeQuietRead(s: State, want: nat) returns (s': State)
    requires Inv(s) && Fits(s) && s.consumer.CIdle?
    ensures Inv(s') && Fits(s')
    ensures var start, unread := ReadStart(s.accepted, s.readAt), |s.accepted| - s.readAt;
            var r := if unread > CAP then WrappingSub(s.writePos, CAP) else s.readPos;
            var count := Min(want, |s.accepted| - start);
            && WrappingSub(s.writePos, s.readPos) == unread
            && (s.writePos == r <==> unread == 0)
            && s' == s.(
                 overflows := if unread > CAP then WrappingAdd(s.overflows, 1) else s.overflows,
                 underruns := if unread == 0 then WrappingAdd(s.underruns, 1) else s.underruns,
                 consumer := if count == 0 then CIdle
                             else CLoading(count, r, [], |s.accepted|, start, true))
  {
    var t := Step(s, StartRead(want));
    s' := StepConsumer(t);
    assert Inv(s') by {
      StepKeepsInv(s, StartRead(want));
      SizingKeepsInv(t);
    }
    WrappedDistance(s.writePos, s.readPos, |s.accepted|, s.readAt);
    SameCursors(s.writePos, s.readPos, |s.accepted|, s.readAt);
  }

  /** Within one lap, equal cursors mean equal positions. */
  lemma SameCursors(w: int, r: int, seen: nat, readAt: nat)
    requires w == seen % WORD && r == readAt % WORD && readAt <= seen < readAt + WORD
    ensures w == r <==> seen == readAt
  {
    if readAt < seen {
      ModDistinct(readAt, seen, WORD);
    }
  }

  /** With no writer in between, a load is never lapped. */
  lemma QuietLoad(s: State)
    requires Inv(s) && s.producer.PIdle?
    requires s.consumer.CLoading? && s.consumer.intact && |s.consumer.out| < s.consumer.count
    requires s.consumer.seen == |s.accepted|
    ensures Inv(StepConsumer(s)) && StepConsumer(s).consumer.intact
  {
    LoadKeepsInv(s);
  }

  class AudioRing {
    const buf: array<Sample>
    var writePos: int
    var readPos: int
    var overflowCount: int
    var underrunCount: int
    ghost var accepted: seq<Sample>
    ghost var readAt: nat
    ghost var log: seq<ReadRecord>
    ghost var delivered: nat
    ghost var skipped: nat

    ghost function View(p: Producer, c: Consumer): State
      reads this, buf
    {
      State(buf[..], writePos, readPos, overflowCount, underrunCount, p, c,
            accepted, readAt, log, delivered, skipped)
    }

    /** Among other things: delivered + skipped + unread == accepted. */
    ghost predicate Coherent()
      reads this, buf
    {
      Inv(View(PIdle, CIdle))
    }

    /** Fewer than 2^64 samples are unread, so the cursor difference is their number. */
    ghost predicate Valid()
      reads this, buf
    {
      Coherent() && Fits(View(PIdle, CIdle))
    }

    constructor ()
      ensures Valid() && fresh(buf)
      ensures accepted == [] && readAt == 0
    {
      buf := new Sample[CAP](_ => 0);
      writePos, readPos, overflowCount, underrunCount := 0, 0, 0, 0;
      accepted, readAt, log, delivered, skipped := [], 0, [], 0, 0;
    }

    method Available() returns (n: int)
      requires Valid()
      ensures n == |accepted| - ReadStart(accepted, readAt)
    {
      WrappedDistance(writePos, readPos, |accepted|, readAt);
      n := Min(WrappingSub(writePos, readPos), CAP);
    }

    /** `write`: takes at most CAP samples, never refuses, never moves the read cursor. */
    method Write(samples: seq<Sample>) returns (count: int)
      requires Coherent()
      modifies this`writePos, this`accepted, buf
      ensures Coherent() && (|accepted| - readAt < WORD ==> Valid())
      ensures count == Min(|samples|, CAP)
      ensures accepted == old(accepted) + samples[..count]
    {
      count := Min(|samples|, CAP);
      var w := writePos;
      ghost var s := BeginStoring(View(PIdle, CIdle), samples);
      var i := 0;
      while i < count
        invariant 0 <= i <= count
        invariant unchanged(this)
        invariant Inv(s) && s == View(PStoring(samples, count, w, i), CIdle)
      {
        StoreKeepsInv(s);
        s := StepProducer(s);
        buf[Slot(w, i)] := samples[i];
        i := i + 1;
        assert buf[..] == s.buf;
      }
      PublishKeepsInv(s);
      writePos := WrappingAdd(w, count);
      accepted := accepted + samples[..count];
      assert View(PIdle, CIdle) == StepProducer(s);
    }

    /** `read`: a contiguous slice of the accepted history, beginning at the read position or,
        after a lap, at the oldest retained sample. A read into an empty buffer leaves the
        cursor where it is even when it counts an overflow. */
    method Read(out: array<Sample>) returns (count: int)
      requires Valid() && out != buf
      modifies this`readPos, this`overflowCount, this`underrunCount, out
      modifies this`readAt, this`log, this`delivered, this`skipped
      ensures Valid()
      ensures var start := ReadStart(accepted, old(readAt));
              && count == Min(out.Length, |accepted| - start)
              && out[..count] == accepted[start..start + count]
              && out[count..] == old(out[count..])
              && readAt == (if count == 0 then old(readAt) else start + count)
              && delivered == old(delivered) + count
              && skipped == old(skipped) + (if count == 0 then 0 else start - old(readAt))
      ensures overflowCount == if |accepted| - old(readAt) > CAP
                               then WrappingAdd(old(overflowCount), 1) else old(overflowCount)
      ensures skipped > old(skipped) ==> overflowCount == WrappingAdd(old(overflowCount), 1)
      ensures underrunCount == if |accepted| == old(readAt)
                               then WrappingAdd(old(underrunCount), 1) else old(underrunCount)
    {
      var r;
      count, r := SizeRead(out.Length);
      if count > 0 {
        ghost var start := ReadStart(accepted, readAt);
        CopyOut(out, count, r, View(PIdle, CLoading(count, r, [], |accepted|, start, true)));
      }
    }

    /** The first half of `read`: detect a lap, fix the count, count overflow or underrun. */
    method SizeRead(len: nat) returns (count: int, r: int)
      requires Valid()
      modifies this`overflowCount, this`underrunCount
      ensures count == Min(len, |accepted| - ReadStart(accepted, readAt))
      ensures Inv(View(PIdle, if count == 0 then CIdle
                              else CLoading(count, r, [], |accepted|, ReadStart(accepted, readAt), true)))
      ensures overflowCount == if |accepted| - readAt > CAP
                               then WrappingAdd(old(overflowCount), 1) else old(overflowCount)
      ensures underrunCount == if |accepted| == readAt
                               then WrappingAdd(old(underrunCount), 1) else old(underrunCount)
    {
      ghost var s := SizeQuietRead(View(PIdle, CIdle), len);
      var w := writePos;
      r := readPos;
      var avail := WrappingSub(w, r);
      if avail > CAP {
        r := WrappingSub(w, CAP);
        avail := CAP;
        overflowCount := WrappingAdd(overflowCount, 1);
      }
      count := Min(len, avail);
      if count == 0 && w == r {
        underrunCount := WrappingAdd(underrunCount, 1);
      }
      assert View(PIdle, s.consumer) == s;
    }

    /** The copy loop and the cursor publication of `read`. */
    method CopyOut(out: array<Sample>, count: int, r: int, ghost sized: State)
      requires out != buf && 0 < count <= out.Length
      requires Inv(sized) && Fits(sized)
      requires sized == View(PIdle, CLoading(count, r, [], |accepted|, ReadStart(accepted, readAt), true))
      modifies this`readPos, this`readAt, this`log, this`delivered, this`skipped, out
      ensures Valid()
      ensures var start := ReadStart(accepted, old(readAt));
              && start + count <= |accepted|
              && out[..count] == accepted[start..start + count]
              && out[count..] == old(out[count..])
              && readAt == start + count
              && delivered == old(delivered) + count
              && skipped == old(skipped) + start - old(readAt)
    {
      ghost var start := ReadStart(accepted, readAt);
      ghost var s := LoadAll(out, count, r, sized);
      FinishKeepsInv(s);
      readPos := WrappingAdd(r, count);
      readAt := start + count;
      log := log + [ReadRecord(start, out[..count], true)];
      delivered := delivered + count;
      skipped := skipped + (start - old(readAt));
      assert View(PIdle, CIdle) == StepConsumer(s);
    }

    method LoadAll(out: array<Sample>, count: int, r: int, ghost sized: State) returns (ghost s: State)
      requires out != buf && 0 < count <= out.Length
      requires Inv(sized)
      requires sized == View(PIdle, CLoading(count, r, [], |accepted|, ReadStart(accepted, readAt), true))
      modifies out
      ensures Inv(s)
      ensures s == View(PIdle, CLoading(count, r, out[..count], |accepted|, ReadStart(accepted, readAt), true))
      ensures out[count..] == old(out[count..])
    {
      s := sized;
      var i := 0;
      while i < count
        invariant 0 <= i <= count
        invariant s == sized.(consumer := CLoading(count, r, out[..i], |accepted|, sized.consumer.start, true))
        invariant Inv(s) && unchanged(buf)
        invariant out[count..] == old(out[count..])
      {
        QuietLoad(s);
        ghost var loaded := out[..i];
        out[i] := buf[Slot(r, i)];
        assert out[..i + 1] == loaded + [s.buf[Slot(r, i)]];
        s := StepConsumer(s);
        i := i + 1;
      }
    }
  }
}
