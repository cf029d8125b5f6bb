/** The client's "reader detects lap" sample ring. The producer never waits: it overwrites old
    samples, and the consumer notices that it was lapped and moves its own cursor forward.
    Cursors are 64-bit and wrap; slots are the cursor masked to 2^14.

    `Exec` over a list of actions is an arbitrary interleaving of one producer and one consumer,
    one sample access or one cursor access per step, in sequentially consistent order. */
module LapRing {
  import opened Basics
  import opened Modular

  type Sample = int

  const CAP: int := 16384
  const WORD: int := 0x1_0000_0000_0000_0000

  function WrappingAdd(a: int, b: int): int { (a + b) % WORD }
  function WrappingSub(a: int, b: int): int { (a - b) % WORD }

  /** `(cursor + i) & RING_MASK`. */
  function Slot(cursor: int, i: int): (k: int)
    ensures 0 <= k < CAP
  {
    WrappingAdd(cursor, i) % CAP
  }

  datatype Producer = PIdle | PStoring(data: seq<Sample>, count: nat, w: int, i: nat)

  /** `seen`, `start` and `intact` are specification variables: the published total at the
      load of `write_pos`, the absolute position the read begins at, and whether every load so
      far happened before the producer came round to that slot again. */
  datatype Consumer =
    | CIdle
    | CGotWrite(want: nat, w: int, seen: nat)
    | CLoading(count: nat, r: int, out: seq<Sample>, seen: nat, start: nat, intact: bool)

  /** One completed read: where it began, what it returned, whether it was lapped in flight. */
  datatype ReadRecord = ReadRecord(start: nat, samples: seq<Sample>, intact: bool)

  /** Histories: `accepted` is everything published, `readAt` the absolute read position,
      `log` the completed reads, `delivered` and `skipped` running totals. */
  datatype State = State(
    buf: seq<Sample>, writePos: int, readPos: int, overflows: int, underruns: int,
    producer: Producer, consumer: Consumer,
    accepted: seq<Sample>, readAt: nat, log: seq<ReadRecord>, delivered: nat, skipped: nat)

  datatype Action = StartWrite(data: seq<Sample>) | ProducerStep | StartRead(want: nat) | ConsumerStep

  predicate Bounded(s: State) {
    && |s.buf| == CAP
    && (s.producer.PStoring? ==> s.producer.i <= s.producer.count <= |s.producer.data|)
    && (s.consumer.CLoading? ==> |s.consumer.out| <= s.consumer.count)
  }

  function Init(): (s: State)
    ensures Bounded(s)
  {
    State(seq(CAP, _ => 0), 0, 0, 0, 0, PIdle, CIdle, [], 0, [], 0, 0)
  }

  function StepProducer(s: State): (s': State)
    requires Bounded(s)
    ensures Bounded(s')
  {
    match s.producer
    case PIdle => s
    case PStoring(data, count, w, i) =>
      if i < count then
        s.(buf := s.buf[Slot(w, i) := data[i]], producer := PStoring(data, count, w, i + 1))
      else
        s.(writePos := WrappingAdd(w, count), producer := PIdle,
           accepted := s.accepted + data[..count])
  }

  /** Next position the producer will store to. */
  function Frontier(s: State): nat {
    |s.accepted| + if s.producer.PStoring? then s.producer.i else 0
  }

  /** The sizing step of a read: load `read_pos`, detect a lap, fix the count. */
  function SizeRead(s: State, want: nat, w: int, seen: nat): (s': State)
    requires Bounded(s)
    ensures Bounded(s')
  {
    var lapped := WrappingSub(w, s.readPos) > CAP;
    var r := if lapped then WrappingSub(w, CAP) else s.readPos;
    var avail := if lapped then CAP else WrappingSub(w, s.readPos);
    var overflows := if lapped then WrappingAdd(s.overflows, 1) else s.overflows;
    var count := Min(want, avail);
    if count == 0 then
      s.(consumer := CIdle, overflows := overflows,
         underruns := if w == r then WrappingAdd(s.underruns, 1) else s.underruns)
    else
      s.(consumer := CLoading(count, r, [], seen, Max(s.readAt, seen - CAP), true),
         overflows := overflows)
  }

  function StepConsumer(s: State): (s': State)
    requires Bounded(s)
    ensures Bounded(s')
  {
    match s.consumer
    case CIdle => s
    case CGotWrite(want, w, seen) => SizeRead(s, want, w, seen)
    case CLoading(count, r, out, seen, start, intact) =>
      if |out| < count then
        s.(consumer := CLoading(count, r, out + [s.buf[Slot(r, |out|)]], seen, start,
                                intact && Frontier(s) <= start + |out| + CAP))
      else
        s.(readPos := WrappingAdd(r, count), consumer := CIdle,
           readAt := start + count, log := s.log + [ReadRecord(start, out, intact)],
           delivered := s.delivered + count, skipped := s.skipped + Max(0, start - s.readAt))
  }

  function Step(s: State, a: Action): (s': State)
    requires Bounded(s)
    ensures Bounded(s')
  {
    match a
    case StartWrite(data) =>
      if s.producer.PIdle?
      then s.(producer := PStoring(data, Min(|data|, CAP), s.writePos, 0))
      else s
    case ProducerStep => StepProducer(s)
    case StartRead(want) =>
      if s.consumer.CIdle? then s.(consumer := CGotWrite(want, s.writePos, |s.accepted|)) else s
    case ConsumerStep => StepConsumer(s)
  }

  function Exec(s: State, actions: seq<Action>): (s': State)
    requires Bounded(s)
    ensures Bounded(s')
    decreases |actions|
  {
    if actions == [] then s
    else Step(Exec(s, actions[..|actions| - 1]), actions[|actions| - 1])
  }

  /** The backlog fits the cursor width: fewer than 2^64 samples are unread. */
  predicate Fits(s: State) { |s.accepted| - s.readAt < WORD }

  predicate FitsAlong(s: State, actions: seq<Action>)
    requires Bounded(s)
    decreases |actions|
  {
    Fits(Exec(s, actions)) && (actions != [] ==> FitsAlong(s, actions[..|actions| - 1]))
  }

  // ---------------------------------------------------------------- invariant

  /** Samples published plus those stored by the write in progress. */
  function History(s: State): (h: seq<Sample>)
    requires Bounded(s)
    ensures |h| == Frontier(s)
  {
    if s.producer.PStoring? then s.accepted + s.producer.data[..s.producer.i] else s.accepted
  }

  ghost predicate CursorInv(s: State) {
    && Bounded(s)
    && s.writePos == |s.accepted| % WORD
    && s.readPos == s.readAt % WORD
    && s.readAt <= |s.accepted|
    && s.delivered + s.skipped == s.readAt
  }

  /** The newest CAP stored positions are intact. */
  ghost predicate BufferInv(s: State)
    requires Bounded(s)
  {
    var h := History(s);
    forall j :: 0 <= j < |h| && |h| - CAP <= j ==> s.buf[j % CAP] == h[j]
  }

  ghost predicate ProducerInv(s: State) {
    s.producer.PStoring? ==> s.producer.w == s.writePos && s.producer.count <= CAP
  }

  ghost predicate ConsumerInv(s: State)
    requires CursorInv(s)
  {
    match s.consumer
    case CIdle => true
    case CGotWrite(want, w, seen) =>
      w == seen % WORD && s.readAt <= seen <= |s.accepted|
    case CLoading(count, r, out, seen, start, intact) =>
      && r == start % WORD
      && start == Max(s.readAt, seen - CAP)
      && 0 < count && start + count <= seen <= |s.accepted|
      && (intact ==> out == s.accepted[start..start + |out|])
  }

  ghost predicate RecordOk(s: State, rec: ReadRecord) {
    && rec.start + |rec.samples| <= s.readAt <= |s.accepted|
    && (rec.intact ==> rec.samples == s.accepted[rec.start..rec.start + |rec.samples|])
  }

  ghost predicate ReadsInv(s: State) {
    forall k :: 0 <= k < |s.log| ==> RecordOk(s, s.log[k])
  }

  ghost predicate Inv(s: State) {
    CursorInv(s) && BufferInv(s) && ProducerInv(s) && ConsumerInv(s) && ReadsInv(s)
  }

  /** The slot of a wrapped cursor is the slot of the absolute position. */
  lemma SlotOf(position: nat, cursor: int, i: nat)
    requires cursor == position % WORD
    ensures Slot(cursor, i) == (position + i) % CAP
    ensures WrappingAdd(cursor, i) == (position + i) % WORD
  {
    ModAdd(position, i, WORD);
    ModOfMod(position + i, CAP, 0x4_0000_0000_0000);
  }

  lemma WrappedDistance(w: int, r: int, seen: nat, readAt: nat)
    requires w == seen % WORD && r == readAt % WORD
    requires readAt <= seen < readAt + WORD
    ensures WrappingSub(w, r) == seen - readAt
    ensures seen >= CAP ==> WrappingSub(w, CAP) == (seen - CAP) % WORD
  {
    ModDifference(readAt, seen, WORD);
    ModAdd(seen, -CAP, WORD);
  }

  lemma StoreKeepsInv(s: State)
    requires Inv(s) && s.producer.PStoring? && s.producer.i < s.producer.count
    ensures Inv(StepProducer(s))
  {
    var s' := StepProducer(s);
    var h, h' := History(s), History(s');
    assert h' == h + [s.producer.data[s.producer.i]];
    SlotOf(|s.accepted|, s.writePos, s.producer.i);
    forall j | 0 <= j < |h'| && |h'| - CAP <= j ensures s'.buf[j % CAP] == h'[j] {
      if j < |h| {
        ModDistinct(j, |h|, CAP);
      }
    }
  }

  lemma PublishKeepsInv(s: State)
    requires Inv(s) && s.producer.PStoring? && s.producer.i == s.producer.count
    ensures Inv(StepProducer(s))
    ensures StepProducer(s).accepted == History(s)
  {
    var s' := StepProducer(s);
    assert s'.accepted == History(s) == History(s');
    SlotOf(|s.accepted|, s.writePos, s.producer.count);
    forall k | 0 <= k < |s'.log| ensures RecordOk(s', s'.log[k]) {
      assert RecordOk(s, s.log[k]);
    }
  }

  /** Every load, lapped or not: position p yields the newest stored sample whose position is
      congruent to p; that position is p itself exactly when the producer is at most CAP ahead. */
  lemma LoadYieldsNewestCongruent(s: State, p: nat)
    requires Inv(s) && p < Frontier(s)
    ensures var q := p + CAP * ((Frontier(s) - 1 - p) / CAP);
            && q < Frontier(s) <= q + CAP && s.buf[p % CAP] == History(s)[q]
            && (q == p <==> Frontier(s) <= p + CAP)
  {
    var n := (Frontier(s) - 1 - p) / CAP;
    ModShift(p, CAP, n);
    assert (p + n * CAP) % CAP == p % CAP;
  }

  lemma LoadInTime(s: State)
    requires Inv(s) && s.consumer.CLoading? && |s.consumer.out| < s.consumer.count
    requires Frontier(s) <= s.consumer.start + |s.consumer.out| + CAP
    ensures s.consumer.start + |s.consumer.out| < |s.accepted|
    ensures StepConsumer(s).consumer.out == s.consumer.out + [s.accepted[s.consumer.start + |s.consumer.out|]]
  {
    var c := s.consumer;
    SlotOf(c.start, c.r, |c.out|);
    LoadYieldsNewestCongruent(s, c.start + |c.out|);
  }

  lemma LoadKeepsInv(s: State)
    requires Inv(s) && s.consumer.CLoading? && |s.consumer.out| < s.consumer.count
    ensures Inv(StepConsumer(s))
  {
    var s' := StepConsumer(s);
    assert ConsumerInv(s') by {
      if s'.consumer.intact {
        LoadInTime(s);
      }
    }
    SameReads(s, s');
  }

  lemma SameReads(s: State, s': State)
    requires ReadsInv(s)
    requires s'.log == s.log && s'.readAt == s.readAt && s'.accepted == s.accepted
    ensures ReadsInv(s')
  {
    forall k | 0 <= k < |s'.log| ensures RecordOk(s', s'.log[k]) {
      assert RecordOk(s, s.log[k]);
    }
  }

  lemma FinishKeepsInv(s: State)
    requires Inv(s) && s.consumer.CLoading? && |s.consumer.out| == s.consumer.count
    ensures Inv(StepConsumer(s))
  {
    var s' := StepConsumer(s);
    SlotOf(s.consumer.start, s.consumer.r, s.consumer.count);
    forall k | 0 <= k < |s'.log| ensures RecordOk(s', s'.log[k]) {
      if k < |s.log| {
        assert RecordOk(s, s.log[k]);
      }
    }
  }

  lemma SizingKeepsInv(s: State)
    requires Inv(s) && Fits(s) && s.consumer.CGotWrite?
    ensures Inv(StepConsumer(s))
    ensures var c, s' := s.consumer, StepConsumer(s);
            && s'.overflows == (if c.seen - s.readAt > CAP
                                then WrappingAdd(s.overflows, 1) else s.overflows)
            && s'.underruns == (if c.seen == s.readAt
                                then WrappingAdd(s.underruns, 1) else s.underruns)
            && var start := Max(s.readAt, c.seen - CAP);
               var count := Min(c.want, c.seen - start);
               if count == 0 then s'.consumer == CIdle
               else && s'.consumer.CLoading? && s'.consumer.count == count && s'.consumer.start == start
                    && s'.consumer.out == [] && s'.consumer.seen == c.seen && s'.consumer.intact
  {
    var c := s.consumer;
    WrappedDistance(c.w, s.readPos, c.seen, s.readAt);
    SameReads(s, StepConsumer(s));
  }

  lemma StepKeepsInv(s: State, a: Action)
    requires Inv(s) && Fits(s)
    ensures Inv(Step(s, a))
  {
    match a
    case StartWrite(data) =>
      assert History(Step(s, a)) == History(s);
      SameReads(s, Step(s, a));
    case ProducerStep =>
      if s.producer.PStoring? {
        if s.producer.i < s.producer.count { StoreKeepsInv(s); } else { PublishKeepsInv(s); }
      }
    case StartRead(_) =>
      SameReads(s, Step(s, a));
    case ConsumerStep =>
      match s.consumer
      case CIdle =>
      case CGotWrite(_, _, _) => SizingKeepsInv(s);
      case CLoading(count, _, out, _, _, _) =>
        if |out| < count { LoadKeepsInv(s); } else { FinishKeepsInv(s); }
  }

  lemma {:induction false} ExecFromKeepsInv(s: State, actions: seq<Action>)
    requires Inv(s) && FitsAlong(s, actions)
    ensures Inv(Exec(s, actions))
    decreases |actions|
  {
    if actions == [] {
    } else {
      ExecFromKeepsInv(s, actions[..|actions| - 1]);
      StepKeepsInv(Exec(s, actions[..|actions| - 1]), actions[|actions| - 1]);
    }
  }

  lemma {:induction false} ExecKeepsInv(actions: seq<Action>)
    requires FitsAlong(Init(), actions)
    ensures Inv(Exec(Init(), actions))
  {
    ExecFromKeepsInv(Init(), actions);
  }

  /** A read that loaded too late began more than CAP behind the writer's next store. */
  ghost predicate LateReads(s: State) {
    && (s.consumer.CLoading? && !s.consumer.intact ==> Frontier(s) > s.consumer.start + CAP)
    && forall k :: 0 <= k < |s.log| && !s.log[k].intact ==> Frontier(s) > s.log[k].start + CAP
  }

  lemma StepKeepsLateReads(s: State, a: Action)
    requires Bounded(s) && LateReads(s)
    ensures LateReads(Step(s, a)) && Frontier(s) <= Frontier(Step(s, a))
  {}

  lemma {:induction false} ExecKeepsLateReads(s: State, actions: seq<Action>)
    requires Bounded(s) && LateReads(s)
    ensures LateReads(Exec(s, actions)) && Frontier(s) <= Frontier(Exec(s, actions))
    decreases |actions|
  {
    if actions == [] {
    } else {
      ExecKeepsLateReads(s, actions[..|actions| - 1]);
      StepKeepsLateReads(Exec(s, actions[..|actions| - 1]), actions[|actions| - 1]);
    }
  }

  // ---------------------------------------------------------------- main results

  /** The cursors show the two positions, the read position has not passed what is published, and
      every accepted sample was delivered, was skipped or is unread. */
  ghost predicate Conserved(s: State) {
    && s.writePos == |s.accepted| % WORD && s.readPos == s.readAt % WORD
    && s.readAt <= |s.accepted|
    && s.delivered + s.skipped + (|s.accepted| - s.readAt) == |s.accepted|
  }

  lemma InvConserves(s: State)
    requires Inv(s)
    ensures Conserved(s)
  {}

  /** Every interleaving conserves samples. */
  lemma {:induction false} Conservation(actions: seq<Action>)
    requires FitsAlong(Init(), actions)
    ensures Conserved(Exec(Init(), actions))
  {
    ExecKeepsInv(actions);
    InvConserves(Exec(Init(), actions));
  }

  /** Every interleaving: a completed read whose start the writer has not passed by more than CAP, or
      that made every load in time, returned exactly the accepted samples at its position. */
  lemma {:induction false} EveryInterleaving(actions: seq<Action>, k: nat)
    requires FitsAlong(Init(), actions)
    requires k < |Exec(Init(), actions).log|
    ensures var s := Exec(Init(), actions);
            var rec := s.log[k];
            && rec.start + |rec.samples| <= s.readAt <= |s.accepted|
            && (rec.intact || Frontier(s) <= rec.start + CAP ==>
                  rec.samples == s.accepted[rec.start..rec.start + |rec.samples|])
  {
    ExecKeepsInv(actions);
    ExecKeepsLateReads(Init(), actions);
    assert RecordOk(Exec(Init(), actions), Exec(Init(), actions).log[k]);
  }

  /** Every interleaving: a read that publishes while the writer's next store is at most CAP past the
      read's start is exact. */
  lemma {:induction false} PublishedInTimeIsExact(actions: seq<Action>)
    requires FitsAlong(Init(), actions)
    requires var s := Exec(Init(), actions);
             && s.consumer.CLoading? && |s.consumer.out| == s.consumer.count
             && Frontier(s) <= s.consumer.start + CAP
    ensures var s := Exec(Init(), actions);
            var start, end := s.consumer.start, s.consumer.start + s.consumer.count;
            && end <= |s.accepted|
            && StepConsumer(s).log == s.log + [ReadRecord(start, s.accepted[start..end], true)]
  {
    ExecKeepsInv(actions);
    ExecKeepsLateReads(Init(), actions);
  }

  /** Every interleaving: a load made while the producer's next store position is at most CAP
      beyond the loaded position yields the sample the write history holds there. */
  lemma {:induction false} UnlappedLoadIsExact(actions: seq<Action>)
    requires FitsAlong(Init(), actions)
    requires var s := Exec(Init(), actions);
             && s.consumer.CLoading? && |s.consumer.out| < s.consumer.count
             && Frontier(s) <= s.consumer.start + |s.consumer.out| + CAP
    ensures var s := Exec(Init(), actions);
            && s.consumer.start + |s.consumer.out| < |s.accepted|
            && StepConsumer(s).consumer.out ==
               s.consumer.out + [s.accepted[s.consumer.start + |s.consumer.out|]]
  {
    ExecKeepsInv(actions);
    LoadInTime(Exec(Init(), actions));
  }

  /** Each read in the log ends before the next one starts, and the last ends by `end`. */
  ghost predicate InOrder(log: seq<ReadRecord>, end: nat)
    decreases |log|
  {
    log == [] ||
    var last := log[|log| - 1];
    last.start + |last.samples| <= end && InOrder(log[..|log| - 1], last.start)
  }

  ghost function Total(log: seq<ReadRecord>): nat
    decreases |log|
  {
    if log == [] then 0 else Total(log[..|log| - 1]) + |log[|log| - 1].samples|
  }

  /** Every interleaving: the log is in stream order, and `delivered` counts exactly the samples
      handed over. */
  lemma {:induction false} LogInOrder(actions: seq<Action>)
    requires FitsAlong(Init(), actions)
    ensures var s := Exec(Init(), actions); InOrder(s.log, s.readAt) && Total(s.log) == s.delivered
    decreases |actions|
  {
    if actions == [] {
    } else {
      var before := actions[..|actions| - 1];
      LogInOrder(before);
      ExecKeepsInv(before);
      StepKeepsOrder(Exec(Init(), before), actions[|actions| - 1]);
    }
  }

  lemma StepKeepsOrder(s: State, a: Action)
    requires Inv(s) && InOrder(s.log, s.readAt) && Total(s.log) == s.delivered
    ensures var s' := Step(s, a); InOrder(s'.log, s'.readAt) && Total(s'.log) == s'.delivered
  {
    if a.ConsumerStep? && s.consumer.CLoading? && |s.consumer.out| == s.consumer.count {
      var log' := StepConsumer(s).log;
      assert log'[..|log'| - 1] == s.log;
    }
  }

  lemma {:induction false} OrderedPair(log: seq<ReadRecord>, end: nat, i: nat, j: nat)
    requires InOrder(log, end) && i < j < |log|
    ensures log[i].start + |log[i].samples| <= log[j].start
    decreases |log|
  {
    var init := log[..|log| - 1];
    if j < |log| - 1 {
      OrderedPair(init, log[|log| - 1].start, i, j);
    } else if i < j - 1 {
      OrderedPair(init, log[j].start, i, j - 1);
    }
  }

  /** Every interleaving: reads cover disjoint stretches of the stream in stream order, so no
      position is delivered twice. */
  lemma {:induction false} ReadsAreInOrder(actions: seq<Action>, i: nat, j: nat)
    requires FitsAlong(Init(), actions)
    requires i < j < |Exec(Init(), actions).log|
    ensures var s := Exec(Init(), actions);
            s.log[i].start + |s.log[i].samples| <= s.log[j].start
  {
    LogInOrder(actions);
    OrderedPair(Exec(Init(), actions).log, Exec(Init(), actions).readAt, i, j);
  }

  /** Neither side writes the other side's variables. */
  lemma SingleWriter(s: State)
    requires Bounded(s)
    ensures StepProducer(s).readPos == s.readPos && StepProducer(s).consumer == s.consumer
    ensures StepConsumer(s).writePos == s.writePos && StepConsumer(s).buf == s.buf
    ensures StepConsumer(s).producer == s.producer && StepConsumer(s).accepted == s.accepted
    ensures Inv(s) && Fits(s) ==> s.readAt <= StepConsumer(s).readAt <= |s.accepted|
  {
    if Inv(s) && Fits(s) {
      StepKeepsInv(s, ConsumerStep);
    }
  }

  // ---------------------------------------------------------------- a read torn in flight

  function Repeat(a: Action, n: nat): seq<Action> { seq(n, _ => a) }

  /** `t'` is `t` after n more stores of the same write. */
  ghost predicate StoresLater(t: State, t': State, n: nat) {
    && t.producer.PStoring?
    && t' == t.(buf := t'.buf, producer := t.producer.(i := t.producer.i + n))
  }

  lemma {:induction false} ManyStores(s: State, actions: seq<Action>, n: nat)
    requires Bounded(s)
    requires var t := Exec(s, actions);
             t.producer.PStoring? && t.producer.i + n <= t.producer.count
    ensures StoresLater(Exec(s, actions), Exec(s, actions + Repeat(ProducerStep, n)), n)
    decreases n
  {
    if n == 0 {
      assert actions + Repeat(ProducerStep, 0) == actions;
    } else {
      ManyStores(s, actions, n - 1);
      var a := actions + Repeat(ProducerStep, n - 1);
      assert actions + Repeat(ProducerStep, n) == a + [ProducerStep];
      ExecSnoc(s, a, ProducerStep);
      OneMoreStore(Exec(s, actions), Exec(s, a), n - 1);
    }
  }

  lemma OneMoreStore(t: State, t': State, n: nat)
    requires Bounded(t') && StoresLater(t, t', n) && t'.producer.i < t'.producer.count
    ensures StoresLater(t, Step(t', ProducerStep), n + 1)
  {}

  lemma ExecSnoc(s: State, a: seq<Action>, x: Action)
    requires Bounded(s)
    ensures Exec(s, a + [x]) == Step(Exec(s, a), x)
  {
    assert (a + [x])[..|a|] == a;
  }

  lemma {:induction false} ShortHistoryFits(s: State, actions: seq<Action>)
    requires Bounded(s) && |Exec(s, actions).accepted| < WORD
    ensures FitsAlong(s, actions)
    decreases |actions|
  {
    if actions == [] {
    } else {
      ShortHistoryFits(s, actions[..|actions| - 1]);
    }
  }

  /** A freshly filled ring: CAP zeros published, nothing read. */
  ghost predicate Filled(s: State) {
    && Bounded(s) && s.producer == PIdle && s.consumer == CIdle
    && s.accepted == seq(CAP, _ => 0) && s.writePos == CAP
    && s.readPos == 0 && s.readAt == 0 && s.log == [] && s.overflows == 0
  }

  lemma FillRing() returns (actions: seq<Action>)
    ensures Filled(Exec(Init(), actions))
  {
    var d := seq(CAP, _ => 0);
    ExecSnoc(Init(), [], StartWrite(d));
    actions := [] + [StartWrite(d)];
    ManyStores(Init(), actions, CAP);
    actions := actions + Repeat(ProducerStep, CAP);
    ExecSnoc(Init(), actions, ProducerStep);
    assert d[..CAP] == d && [] + d == d;
    actions := actions + [ProducerStep];
  }

  lemma ExecTwo(s: State, a: seq<Action>, x: Action, y: Action)
    requires Bounded(s)
    ensures Exec(s, a + [x] + [y]) == Step(Step(Exec(s, a), x), y)
  {
    ExecSnoc(s, a, x);
    ExecSnoc(s, a + [x], y);
  }

  /** The lap check runs once, before the copy: a writer that comes round during the copy is not
      noticed. This run returns a sample that was never at the position read, with no overflow
      counted. */
  lemma TornReadExists() returns (actions: seq<Action>)
    ensures FitsAlong(Init(), actions)
    ensures var s := Exec(Init(), actions);
            && s.overflows == 0 && |s.log| == 1
            && s.log[0].start == 0 && s.log[0].samples == [7]
            && |s.accepted| == CAP && s.accepted[0] == 0
  {
    actions := FillRing();
    var s := Exec(Init(), actions);
    ExecTwo(Init(), actions, StartRead(1), ConsumerStep);
    actions := actions + [StartRead(1)] + [ConsumerStep];
    ExecTwo(Init(), actions, StartWrite([7]), ProducerStep);
    actions := actions + [StartWrite([7])] + [ProducerStep];
    ExecTwo(Init(), actions, ConsumerStep, ConsumerStep);
    actions := actions + [ConsumerStep] + [ConsumerStep];
    TornSteps(s);
    ShortHistoryFits(Init(), actions);
  }

  lemma TornSteps(s: State)
    requires Filled(s)
    ensures var s1 := Step(Step(s, StartRead(1)), ConsumerStep);
            var s2 := Step(Step(s1, StartWrite([7])), ProducerStep);
            var t := Step(Step(s2, ConsumerStep), ConsumerStep);
            && t.overflows == 0 && t.log == [ReadRecord(0, [7], false)] && t.accepted == s.accepted
  {
    var s1 := Step(Step(s, StartRead(1)), ConsumerStep);
    assert s1 == s.(consumer := CLoading(1, 0, [], CAP, 0, true));
    var s2 := Step(Step(s1, StartWrite([7])), ProducerStep);
    assert s2.buf == s.buf[0 := 7] && s2.consumer == s1.consumer && Frontier(s2) == CAP + 1;
    var s3 := Step(s2, ConsumerStep);
    assert s3.consumer == CLoading(1, 0, [7], CAP, 0, false);
  }

  // ---------------------------------------------------------------- exactly when a read can tear

  /** A run from s that completes the read in progress, with at most k stores on the way, and hands
      over something other than the accepted samples at its position. */
  ghost predicate TornRun(s: State, mid: seq<Action>, k: nat)
    requires Bounded(s)
  {
    var t := Exec(s, mid);
    && FitsAlong(s, mid) && Frontier(t) <= Frontier(s) + k && |t.log| > |s.log|
    && var rec := t.log[|s.log|];
       rec.start + |rec.samples| <= |t.accepted| &&
       rec.samples != t.accepted[rec.start..rec.start + |rec.samples|]
  }

  /** Until it completes, a copy keeps its start; the record it leaves has that start. */
  ghost predicate SameCopy(s: State, t: State)
    requires s.consumer.CLoading?
  {
    if t.log == s.log then t.consumer.CLoading? && t.consumer.start == s.consumer.start
    else |t.log| > |s.log| && t.log[|s.log|].start == s.consumer.start
  }

  lemma {:induction false} CopyKeepsStart(s: State, mid: seq<Action>)
    requires Bounded(s) && s.consumer.CLoading?
    ensures SameCopy(s, Exec(s, mid))
    decreases |mid|
  {
    if mid == [] {
    } else {
      CopyKeepsStart(s, mid[..|mid| - 1]);
      StepKeepsCopy(s, Exec(s, mid[..|mid| - 1]), mid[|mid| - 1]);
    }
  }

  lemma StepKeepsCopy(s: State, t: State, a: Action)
    requires Bounded(t) && s.consumer.CLoading? && SameCopy(s, t)
    ensures SameCopy(s, Step(t, a))
  {}

  /** One direction: too few stores cannot tear. */
  lemma TornNeedsStores(s: State, mid: seq<Action>, k: nat)
    requires Inv(s) && LateReads(s) && s.consumer.CLoading? && TornRun(s, mid, k)
    ensures k > CAP - (Frontier(s) - s.consumer.start)
  {
    var t := Exec(s, mid);
    ExecFromKeepsInv(s, mid);
    ExecKeepsLateReads(s, mid);
    CopyKeepsStart(s, mid);
    assert RecordOk(t, t.log[|s.log|]);
  }

  lemma FitsSnoc(s: State, a: seq<Action>, x: Action)
    requires Bounded(s) && FitsAlong(s, a) && Fits(Step(Exec(s, a), x))
    ensures FitsAlong(s, a + [x]) && Exec(s, a + [x]) == Step(Exec(s, a), x)
  {
    assert (a + [x])[..|a|] == a;
  }

  lemma {:induction false} StoresFit(s: State, a: seq<Action>, n: nat)
    requires Bounded(s) && FitsAlong(s, a)
    requires var t := Exec(s, a); t.producer.PStoring? && t.producer.i + n <= t.producer.count
    ensures FitsAlong(s, a + Repeat(ProducerStep, n))
    decreases n
  {
    if n == 0 {
      assert a + Repeat(ProducerStep, 0) == a;
    } else {
      StoresFit(s, a, n - 1);
      ManyStores(s, a, n - 1);
      ManyStores(s, a, n);
      var b := a + Repeat(ProducerStep, n - 1);
      assert a + Repeat(ProducerStep, n) == b + [ProducerStep];
      ExecSnoc(s, b, ProducerStep);
      FitsSnoc(s, b, ProducerStep);
    }
  }

  /** `t'` is `t` after n more loads of the same copy; the first load of a copy reads its first slot. */
  ghost predicate LoadsLater(t: State, t': State, n: nat) {
    && Bounded(t) && t.consumer.CLoading? && t'.consumer.CLoading?
    && t' == t.(consumer := t.consumer.(out := t'.consumer.out, intact := t'.consumer.intact))
    && |t'.consumer.out| == |t.consumer.out| + n
    && (n > 0 && t.consumer.out == [] ==> t'.consumer.out[0] == t.buf[Slot(t.consumer.r, 0)])
  }

  lemma OneMoreLoad(t: State, t': State, n: nat)
    requires Bounded(t') && LoadsLater(t, t', n) && |t'.consumer.out| < t'.consumer.count
    ensures LoadsLater(t, Step(t', ConsumerStep), n + 1)
  {}

  lemma {:induction false} ManyLoads(s: State, a: seq<Action>, n: nat)
    requires Bounded(s) && FitsAlong(s, a)
    requires var t := Exec(s, a); t.consumer.CLoading? && |t.consumer.out| + n <= t.consumer.count
    ensures LoadsLater(Exec(s, a), Exec(s, a + Repeat(ConsumerStep, n)), n)
    ensures FitsAlong(s, a + Repeat(ConsumerStep, n))
    decreases n
  {
    if n == 0 {
      assert a + Repeat(ConsumerStep, 0) == a;
    } else {
      ManyLoads(s, a, n - 1);
      var b := a + Repeat(ConsumerStep, n - 1);
      assert a + Repeat(ConsumerStep, n) == b + [ConsumerStep];
      OneMoreLoad(Exec(s, a), Exec(s, b), n - 1);
      FitsSnoc(s, b, ConsumerStep);
    }
  }

  /** A whole write of at most CAP samples, up to but not including its publication. */
  lemma StoreAll(s: State, data: seq<Sample>) returns (mid: seq<Action>)
    requires Bounded(s) && Fits(s) && s.producer.PIdle? && |data| <= CAP
    ensures FitsAlong(s, mid)
    ensures var t := Exec(s, mid);
            t == s.(buf := t.buf, producer := PStoring(data, |data|, s.writePos, |data|))
  {
    FitsSnoc(s, [], StartWrite(data));
    mid := [] + [StartWrite(data)];
    ManyStores(s, mid, |data|);
    StoresFit(s, mid, |data|);
    mid := mid + Repeat(ProducerStep, |data|);
  }

  /** One lap past a read's start, its first slot holds the writer's latest store. */
  lemma LappedSlot(t: State, start: nat, r: int)
    requires Inv(t) && r == start % WORD && Frontier(t) == start + CAP + 1
    ensures t.buf[Slot(r, 0)] == History(t)[start + CAP]
  {
    SlotOf(start, r, 0);
    ModShift(start, CAP, 1);
    var j := start + CAP;
    assert t.buf[j % CAP] == History(t)[j];
  }

  /** A writer that starts during the copy and stores up to one lap past the read's start. */
  lemma StoreOverStart(s: State) returns (mid: seq<Action>)
    requires Inv(s) && Fits(s) && s.producer.PIdle?
    requires s.consumer.CLoading? && s.consumer.out == [] && Frontier(s) <= s.consumer.start + CAP
    ensures FitsAlong(s, mid)
    ensures var t, start := Exec(s, mid), s.consumer.start;
            && t == s.(buf := t.buf, producer := t.producer)
            && Frontier(t) == start + CAP + 1 && start < |s.accepted|
            && t.buf[Slot(s.consumer.r, 0)] == s.accepted[start] + 1
  {
    var start := s.consumer.start;
    var m: nat := CAP + 1 - (Frontier(s) - start);
    var data := seq(m, _ => s.accepted[start] + 1);
    mid := StoreAll(s, data);
    ExecFromKeepsInv(s, mid);
    var t := Exec(s, mid);
    LappedSlot(t, start, s.consumer.r);
    assert History(t)[start + CAP] == data[m - 1];
  }

  /** The other direction: enough stores can. */
  lemma StoresCanTear(s: State, k: nat) returns (mid: seq<Action>)
    requires Inv(s) && Fits(s) && s.producer.PIdle?
    requires s.consumer.CLoading? && s.consumer.out == [] && Frontier(s) <= s.consumer.start + CAP
    requires k > CAP - (Frontier(s) - s.consumer.start)
    ensures TornRun(s, mid, k)
  {
    var count := s.consumer.count;
    mid := StoreOverStart(s);
    ManyLoads(s, mid, count);
    var t := Exec(s, mid);
    mid := mid + Repeat(ConsumerStep, count);
    var u := Exec(s, mid);
    FitsSnoc(s, mid, ConsumerStep);
    mid := mid + [ConsumerStep];
    assert u.consumer.out[0] == s.accepted[s.consumer.start] + 1;
    assert Exec(s, mid).log == s.log + [ReadRecord(s.consumer.start, u.consumer.out, u.consumer.intact)];
  }

  /** Every reachable point at which a read has been sized and not yet lapped, with b samples between its
      start and the writer: some continuation with at most k stores during the copy makes it return wrong
      samples if and only if k exceeds CAP - b. */
  lemma {:induction false} ReadTearsExactlyWhen(actions: seq<Action>, k: nat)
    requires FitsAlong(Init(), actions)
    requires var s := Exec(Init(), actions);
             && s.producer.PIdle? && s.consumer.CLoading? && s.consumer.out == []
             && Frontier(s) <= s.consumer.start + CAP
    ensures var s := Exec(Init(), actions);
            (exists mid :: TornRun(s, mid, k)) <==> k > CAP - (Frontier(s) - s.consumer.start)
  {
    ExecKeepsInv(actions);
    ExecKeepsLateReads(Init(), actions);
    var s := Exec(Init(), actions);
    if k > CAP - (Frontier(s) - s.consumer.start) {
      var mid := StoresCanTear(s, k);
    } else if mid :| TornRun(s, mid, k) {
      TornNeedsStores(s, mid, k);
      assert false;
    }
  }
}
