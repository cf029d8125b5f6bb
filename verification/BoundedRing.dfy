/** The bounded single-producer single-consumer ring shared by the Rust codec thread and
    the C++ Oboe callbacks. One slot stays empty so that equal indices mean "empty".

    Both languages run the same steps: load `write_idx`, load `read_idx`, size the transfer,
    reload the own index, move one sample at a time, publish the own index. The machine below
    takes those steps one at a time; `Exec` over an arbitrary list of actions is an arbitrary
    interleaving. Every load reads the value current at that step, and the value may be stale
    by the time it is used. Acquire and release are treated as sequentially consistent. */
module BoundedRing {
  import opened Basics
  import opened Modular

  type Sample = int

  /** Fields named `room`, `backlog` and `seen` are not program variables: they remember, for
      the specification, the free space, the unread samples and the published total that held
      when the call began. */
  datatype Producer =
    | PIdle
    | PGotWrite(data: seq<Sample>, w: int, room: int)
    | PSized(data: seq<Sample>, count: int, room: int)
    | PStoring(data: seq<Sample>, count: int, w: int, i: nat, room: int)

  datatype Consumer =
    | CIdle
    | CGotWrite(want: nat, w: int, seen: nat)
    | CSized(want: nat, count: int, backlog: int)
    | CLoading(want: nat, count: int, r: int, out: seq<Sample>, backlog: int)

  /** `accepted` and `delivered` are histories: every sample ever published by the producer
      and every sample ever handed over by the consumer. */
  datatype State = State(
    cap: int, buf: seq<Sample>, writeIdx: int, readIdx: int,
    producer: Producer, consumer: Consumer,
    accepted: seq<Sample>, delivered: seq<Sample>)

  /** A write call, a read call, or one step of whichever call is in progress. */
  datatype Action = StartWrite(data: seq<Sample>) | ProducerStep | StartRead(want: nat) | ConsumerStep

  function Unread(s: State): int { |s.accepted| - |s.delivered| }

  function AvailableRead(w: int, r: int, cap: int): int {
    var avail := w - r;
    if avail < 0 then avail + cap else avail
  }

  function AvailableWrite(w: int, r: int, cap: int): int {
    cap - 1 - AvailableRead(w, r, cap)
  }

  function Wrap(i: int, cap: int): int { if i >= cap then 0 else i }

  /** What each access needs in order to be in bounds. */
  predicate Bounded(s: State) {
    && 0 < s.cap == |s.buf|
    && 0 <= s.writeIdx < s.cap && 0 <= s.readIdx < s.cap
    && (s.producer.PSized? ==> s.producer.count <= |s.producer.data|)
    && (s.producer.PStoring? ==>
          s.producer.i <= s.producer.count <= |s.producer.data| && 0 <= s.producer.w < s.cap)
    && (s.consumer.CLoading? ==>
          |s.consumer.out| <= s.consumer.count && 0 <= s.consumer.r < s.cap)
  }

  function Init(cap: int): (s: State)
    requires cap > 0
    ensures Bounded(s)
  {
    State(cap, seq(cap, _ => 0), 0, 0, PIdle, CIdle, [], [])
  }

  function StepProducer(s: State): (s': State)
    requires Bounded(s)
    ensures Bounded(s')
  {
    match s.producer
    case PIdle => s
    case PGotWrite(data, w, room) =>
      var count := Min(|data|, AvailableWrite(w, s.readIdx, s.cap));
      s.(producer := if count <= 0 then PIdle else PSized(data, count, room))
    case PSized(data, count, room) =>
      if count < 0 then s else s.(producer := PStoring(data, count, s.writeIdx, 0, room))
    case PStoring(data, count, w, i, room) =>
      if i < count then
        s.(buf := s.buf[w := data[i]],
           producer := PStoring(data, count, Wrap(w + 1, s.cap), i + 1, room))
      else
        s.(writeIdx := w, producer := PIdle, accepted := s.accepted + data[..count])
  }

  function StepConsumer(s: State): (s': State)
    requires Bounded(s)
    ensures Bounded(s')
  {
    match s.consumer
    case CIdle => s
    case CGotWrite(want, w, seen) =>
      var count := Min(want, AvailableRead(w, s.readIdx, s.cap));
      s.(consumer := if count <= 0 then CIdle else CSized(want, count, seen - |s.delivered|))
    case CSized(want, count, backlog) =>
      if count < 0 then s else s.(consumer := CLoading(want, count, s.readIdx, [], backlog))
    case CLoading(want, count, r, out, backlog) =>
      if |out| < count then
        s.(consumer := CLoading(want, count, Wrap(r + 1, s.cap), out + [s.buf[r]], backlog))
      else
        s.(readIdx := r, consumer := CIdle, delivered := s.delivered + out)
  }

  function Step(s: State, a: Action): (s': State)
    requires Bounded(s)
    ensures Bounded(s')
  {
    match a
    case StartWrite(data) =>
      if s.producer.PIdle?
      then s.(producer := PGotWrite(data, s.writeIdx, s.cap - 1 - Unread(s)))
      else s
    case ProducerStep => StepProducer(s)
    case StartRead(want) =>
      if s.consumer.CIdle? then s.(consumer := CGotWrite(want, s.writeIdx, |s.accepted|)) else s
    case ConsumerStep => StepConsumer(s)
  }

  function Exec(s: State, actions: seq<Action>): (s': State)
    requires Bounded(s)
    ensures Bounded(s')
    decreases |actions|
  {
    if actions == [] then s
    else Step(Exec(s, actions[..|actions| - 1]), actions[|actions| - 1])
  }

  // ---------------------------------------------------------------- invariant

  /** Samples published plus those stored by the write in progress. */
  function History(s: State): seq<Sample>
    requires Bounded(s)
  {
    if s.producer.PStoring? then s.accepted + s.producer.data[..s.producer.i] else s.accepted
  }

  ghost predicate CursorInv(s: State) {
    && Bounded(s)
    && s.delivered <= s.accepted
    && Unread(s) <= s.cap - 1
    && s.writeIdx == |s.accepted| % s.cap
    && s.readIdx == |s.delivered| % s.cap
  }

  /** Every position from the first unread sample to the last stored one is intact. */
  ghost predicate BufferInv(s: State)
    requires Bounded(s)
  {
    var h := History(s);
    && |h| <= |s.delivered| + s.cap - 1
    && forall j :: |s.delivered| <= j < |h| ==> s.buf[j % s.cap] == h[j]
  }

  ghost predicate ProducerInv(s: State)
    requires Bounded(s)
  {
    var free := s.cap - 1 - Unread(s);
    match s.producer
    case PIdle => true
    case PGotWrite(data, w, room) => w == s.writeIdx && room <= free
    case PSized(data, count, room) => 0 <= count <= free && Min(|data|, room) <= count
    case PStoring(data, count, w, i, room) =>
      && 0 <= count <= free && Min(|data|, room) <= count
      && w == (|s.accepted| + i) % s.cap
  }

  ghost predicate ConsumerInv(s: State)
    requires CursorInv(s)
  {
    match s.consumer
    case CIdle => true
    case CGotWrite(want, w, seen) =>
      w == seen % s.cap && |s.delivered| <= seen <= |s.accepted|
    case CSized(want, count, backlog) =>
      0 <= count <= Unread(s) && count == Min(want, backlog)
    case CLoading(want, count, r, out, backlog) =>
      && 0 <= count <= Unread(s) && count == Min(want, backlog)
      && |out| <= count
      && out == s.accepted[|s.delivered|..|s.delivered| + |out|]
      && r == (|s.delivered| + |out|) % s.cap
  }

  ghost predicate Inv(s: State) {
    CursorInv(s) && BufferInv(s) && ProducerInv(s) && ConsumerInv(s)
  }

  lemma ProducerStepKeepsInv(s: State)
    requires Inv(s)
    ensures Inv(StepProducer(s))
  {
    match s.producer
    case PIdle =>
    case PGotWrite(data, w, room) =>
      SizingWriteKeepsInv(s);
    case PSized(data, count, room) =>
      ReloadKeepsInv(s);
    case PStoring(data, count, w, i, room) =>
      if i < count {
        StoreKeepsInv(s);
      } else {
        PublishKeepsInv(s);
      }
  }

  lemma SizingWriteKeepsInv(s: State)
    requires Inv(s) && s.producer.PGotWrite?
    ensures Inv(StepProducer(s))
  {
    ModDifference(|s.delivered|, |s.accepted|, s.cap);
    assert History(StepProducer(s)) == History(s);
  }

  lemma ReloadKeepsInv(s: State)
    requires Inv(s) && s.producer.PSized?
    ensures Inv(StepProducer(s))
  {
    assert s.accepted + s.producer.data[..0] == s.accepted;
    assert History(StepProducer(s)) == History(s);
  }

  lemma StoreKeepsInv(s: State)
    requires Inv(s) && s.producer.PStoring? && s.producer.i < s.producer.count
    ensures Inv(StepProducer(s))
  {
    var s' := StepProducer(s);
    var h, h' := History(s), History(s');
    assert h' == h + [s.producer.data[s.producer.i]];
    ModSucc(|h|, s.cap);
    forall j | |s.delivered| <= j < |h'| ensures s'.buf[j % s.cap] == h'[j] {
      if j < |h| {
        ModDistinct(j, |h|, s.cap);
      }
    }
  }

  lemma PublishKeepsInv(s: State)
    requires Inv(s) && s.producer.PStoring? && s.producer.i >= s.producer.count
    ensures Inv(StepProducer(s))
    ensures StepProducer(s).accepted == History(s)
  {
    var s' := StepProducer(s);
    assert s'.accepted == History(s) == History(s');
  }

  lemma ConsumerStepKeepsInv(s: State)
    requires Inv(s)
    ensures Inv(StepConsumer(s))
  {
    match s.consumer
    case CIdle =>
    case CGotWrite(want, w, seen) =>
      SizingReadKeepsInv(s);
    case CSized(want, count, backlog) =>
    case CLoading(want, count, r, out, backlog) =>
      if |out| < count {
        LoadKeepsInv(s);
      } else {
        FinishKeepsInv(s);
      }
  }

  lemma SizingReadKeepsInv(s: State)
    requires Inv(s) && s.consumer.CGotWrite?
    ensures Inv(StepConsumer(s))
  {
    ModDifference(|s.delivered|, s.consumer.seen, s.cap);
    assert History(StepConsumer(s)) == History(s);
  }

  lemma FinishKeepsInv(s: State)
    requires Inv(s) && s.consumer.CLoading? && |s.consumer.out| == s.consumer.count
    ensures Inv(StepConsumer(s))
  {
    var out := s.consumer.out;
    assert s.delivered + out == s.accepted[..|s.delivered| + |out|];
  }

  lemma LoadKeepsInv(s: State)
    requires Inv(s) && s.consumer.CLoading? && |s.consumer.out| < s.consumer.count
    ensures Inv(StepConsumer(s))
    ensures StepConsumer(s).consumer.out ==
            s.consumer.out + [s.accepted[|s.delivered| + |s.consumer.out|]]
  {
    var p := |s.delivered| + |s.consumer.out|;
    assert s.buf[p % s.cap] == History(s)[p] == s.accepted[p];
    ModSucc(p, s.cap);
  }

  lemma StartKeepsInv(s: State, a: Action)
    requires Inv(s) && (a.StartWrite? || a.StartRead?)
    ensures Inv(Step(s, a))
  {
    assert History(Step(s, a)) == History(s);
  }

  lemma StepKeepsInv(s: State, a: Action)
    requires Inv(s)
    ensures Inv(Step(s, a))
  {
    match a
    case StartWrite(_) => StartKeepsInv(s, a);
    case ProducerStep => ProducerStepKeepsInv(s);
    case StartRead(_) => StartKeepsInv(s, a);
    case ConsumerStep => ConsumerStepKeepsInv(s);
  }

  lemma InitInv(cap: int)
    requires cap > 0
    ensures Inv(Init(cap))
  {}

  lemma {:induction false} ExecKeepsInv(s: State, actions: seq<Action>)
    requires Inv(s)
    ensures Inv(Exec(s, actions))
    decreases |actions|
  {
    if actions == [] {
    } else {
      ExecKeepsInv(s, actions[..|actions| - 1]);
      StepKeepsInv(Exec(s, actions[..|actions| - 1]), actions[|actions| - 1]);
    }
  }

  // ---------------------------------------------------------------- main results

  /** Every interleaving: what the consumer received is a prefix of what the producer had
      accepted, and at most `cap - 1` accepted samples are outstanding. */
  lemma EveryInterleavingIsFifo(cap: int, actions: seq<Action>)
    requires cap > 0
    ensures var s := Exec(Init(cap), actions);
            s.delivered <= s.accepted && |s.accepted| - |s.delivered| <= cap - 1
  {
    InitInv(cap);
    ExecKeepsInv(Init(cap), actions);
    CapUnchanged(Init(cap), actions);
  }

  lemma {:induction false} CapUnchanged(s: State, actions: seq<Action>)
    requires Bounded(s)
    ensures Exec(s, actions).cap == s.cap
    decreases |actions|
  {
    if actions == [] {
    } else {
      CapUnchanged(s, actions[..|actions| - 1]);
    }
  }

  /** Every interleaving: the slot about to be stored holds no sample that is still unread,
      including one that a read in progress has yet to load. */
  lemma StoreNeverHitsUnreadSlot(cap: int, actions: seq<Action>, j: int)
    requires cap > 0
    requires var s := Exec(Init(cap), actions);
             && s.producer.PStoring? && s.producer.i < s.producer.count
             && |s.delivered| <= j < |s.accepted|
    ensures Exec(Init(cap), actions).producer.w != j % cap
  {
    InitInv(cap);
    ExecKeepsInv(Init(cap), actions);
    CapUnchanged(Init(cap), actions);
    var s := Exec(Init(cap), actions);
    ModDistinct(j, |s.accepted| + s.producer.i, cap);
  }

  /** Every interleaving: a write takes at least as much as fitted when it was called, a read
      hands over exactly the smaller of its buffer and the backlog it saw, and the samples of
      the read are the next ones in order. */
  lemma TransferSizes(cap: int, actions: seq<Action>)
    requires cap > 0
    ensures var s := Exec(Init(cap), actions);
            && (s.producer.PStoring? ==>
                  Min(|s.producer.data|, s.producer.room) <= s.producer.count <= |s.producer.data|)
            && (s.consumer.CLoading? ==>
                  && s.consumer.count == Min(s.consumer.want, s.consumer.backlog)
                  && |s.delivered| + |s.consumer.out| <= |s.accepted|
                  && s.consumer.out == s.accepted[|s.delivered|..|s.delivered| + |s.consumer.out|])
  {
    InitInv(cap);
    ExecKeepsInv(Init(cap), actions);
  }

  // ---------------------------------------------------------------- what a call achieves

  /** The machine states from which a write is sized: the transfer is the smaller of the data and the
      room there is now, and the call gives up exactly when that is nothing. */
  lemma WriteIsSized(s: State)
    requires Inv(s) && s.producer.PGotWrite?
    ensures var p, n := s.producer, Min(|s.producer.data|, s.cap - 1 - Unread(s));
            StepProducer(s) == s.(producer := if n == 0 then PIdle else PSized(p.data, n, p.room))
  {
    ModDifference(|s.delivered|, |s.accepted|, s.cap);
  }

  /** The same for a read: the smaller of the buffer and the samples that were published when the call
      looked at `write_idx`. */
  lemma ReadIsSized(s: State)
    requires Inv(s) && s.consumer.CGotWrite?
    ensures var c := s.consumer;
            var unread := c.seen - |s.delivered|;
            var n := Min(c.want, unread);
            StepConsumer(s) == s.(consumer := if n == 0 then CIdle else CSized(c.want, n, unread))
  {
    ModDifference(|s.delivered|, s.consumer.seen, s.cap);
  }

  /** Every interleaving, every call: what the sizing step does. */
  lemma EveryCallIsSized(cap: int, actions: seq<Action>)
    requires cap > 0
    ensures var s := Exec(Init(cap), actions);
            && (s.producer.PGotWrite? ==>
                  var n := Min(|s.producer.data|, cap - 1 - Unread(s));
                  StepProducer(s).producer == if n == 0 then PIdle else PSized(s.producer.data, n, s.producer.room))
            && (s.consumer.CGotWrite? ==>
                  var unread := s.consumer.seen - |s.delivered|;
                  var n := Min(s.consumer.want, unread);
                  StepConsumer(s).consumer == if n == 0 then CIdle else CSized(s.consumer.want, n, unread))
  {
    EveryWriteIsSized(cap, actions);
    EveryReadIsSized(cap, actions);
  }

  lemma EveryWriteIsSized(cap: int, actions: seq<Action>)
    requires cap > 0
    ensures var s := Exec(Init(cap), actions);
            s.producer.PGotWrite? ==>
              var n := Min(|s.producer.data|, cap - 1 - Unread(s));
              StepProducer(s).producer == if n == 0 then PIdle else PSized(s.producer.data, n, s.producer.room)
  {
    InitInv(cap);
    ExecKeepsInv(Init(cap), actions);
    CapUnchanged(Init(cap), actions);
    var s := Exec(Init(cap), actions);
    if s.producer.PGotWrite? {
      WriteIsSized(s);
    }
  }

  lemma EveryReadIsSized(cap: int, actions: seq<Action>)
    requires cap > 0
    ensures var s := Exec(Init(cap), actions);
            s.consumer.CGotWrite? ==>
              var unread := s.consumer.seen - |s.delivered|;
              var n := Min(s.consumer.want, unread);
              StepConsumer(s).consumer == if n == 0 then CIdle else CSized(s.consumer.want, n, unread)
  {
    InitInv(cap);
    ExecKeepsInv(Init(cap), actions);
    var s := Exec(Init(cap), actions);
    if s.consumer.CGotWrite? {
      ReadIsSized(s);
    }
  }

  /** n steps of one side, with nothing in between. */
  function Repeat(s: State, a: Action, n: nat): (s': State)
    requires Bounded(s)
    ensures Bounded(s')
    decreases n
  {
    if n == 0 then s else Repeat(Step(s, a), a, n - 1)
  }

  lemma {:induction false} RepeatIsExec(cap: int, actions: seq<Action>, a: Action, n: nat)
    requires cap > 0
    ensures Repeat(Exec(Init(cap), actions), a, n) == Exec(Init(cap), actions + seq(n, _ => a))
    decreases n
  {
    if n == 0 {
      assert actions + seq(0, _ => a) == actions;
    } else {
      assert (actions + [a])[..|actions|] == actions;
      RepeatIsExec(cap, actions + [a], a, n - 1);
      assert actions + seq(n, _ => a) == (actions + [a]) + seq(n - 1, _ => a);
    }
  }

  /** An idle side does nothing. */
  lemma {:induction false} IdleRepeats(s: State, a: Action, n: nat)
    requires Bounded(s)
    requires (a.ProducerStep? && s.producer.PIdle?) || (a.ConsumerStep? && s.consumer.CIdle?)
    ensures Repeat(s, a, n) == s
    decreases n
  {
    if n == 0 {
    } else {
      IdleRepeats(s, a, n - 1);
    }
  }

  /** The stores that are left, then the publication. */
  lemma {:induction false} StoresFinish(s: State, n: nat)
    requires Inv(s) && s.producer.PStoring? && n == s.producer.count - s.producer.i
    ensures var s' := Repeat(s, ProducerStep, n + 1);
            && s'.producer == PIdle && s'.consumer == s.consumer && s'.delivered == s.delivered
            && s'.accepted == s.accepted + s.producer.data[..s.producer.count]
    decreases n
  {
    var t := StepProducer(s);
    if n == 0 {
      IdleRepeats(t, ProducerStep, 0);
    } else {
      StoreKeepsInv(s);
      StoresFinish(t, n - 1);
    }
  }

  /** The loads that are left, then the publication. */
  lemma {:induction false} LoadsFinish(s: State, n: nat)
    requires Inv(s) && s.consumer.CLoading? && n == s.consumer.count - |s.consumer.out|
    ensures var s' := Repeat(s, ConsumerStep, n + 1);
            && s'.consumer == CIdle && s'.producer == s.producer && s'.accepted == s.accepted
            && |s.delivered| + s.consumer.count <= |s.accepted|
            && s'.delivered == s.accepted[..|s.delivered| + s.consumer.count]
    decreases n
  {
    var t := StepConsumer(s);
    if n == 0 {
      FinishKeepsInv(s);
      IdleRepeats(t, ConsumerStep, 0);
      assert s.delivered + s.consumer.out == s.accepted[..|s.delivered| + s.consumer.count];
    } else {
      LoadKeepsInv(s);
      LoadsFinish(t, n - 1);
    }
  }

  /** Three steps take a call from its start to its first transfer, or back to idle. */
  lemma WriteBegins(s: State, data: seq<Sample>)
    requires Inv(s) && s.producer.PIdle?
    ensures var n := Min(|data|, s.cap - 1 - Unread(s));
            var t := StepProducer(Step(s, StartWrite(data)));
            && Inv(t)
            && (n == 0 ==> t == s)
            && (n > 0 ==> Inv(StepProducer(t)) && StepProducer(t) ==
                          s.(producer := PStoring(data, n, s.writeIdx, 0, s.cap - 1 - Unread(s))))
  {
    var g := Step(s, StartWrite(data));
    StepKeepsInv(s, StartWrite(data));
    WriteIsSized(g);
    StepKeepsInv(g, ProducerStep);
    StepKeepsInv(StepProducer(g), ProducerStep);
  }

  lemma ReadBegins(s: State, want: nat)
    requires Inv(s) && s.consumer.CIdle?
    ensures var n := Min(want, Unread(s));
            var t := StepConsumer(Step(s, StartRead(want)));
            && Inv(t)
            && (n == 0 ==> t == s)
            && (n > 0 ==> Inv(StepConsumer(t)) && StepConsumer(t) ==
                          s.(consumer := CLoading(want, n, s.readIdx, [], Unread(s))))
  {
    var g := Step(s, StartRead(want));
    StepKeepsInv(s, StartRead(want));
    ReadIsSized(g);
    StepKeepsInv(g, ConsumerStep);
    StepKeepsInv(StepConsumer(g), ConsumerStep);
  }

  /** From every reachable state with an idle producer, whatever the consumer is in the middle of: a write
      that runs undisturbed appends exactly the samples that fit. */
  lemma UndisturbedWrite(cap: int, actions: seq<Action>, data: seq<Sample>)
    requires cap > 0 && Exec(Init(cap), actions).producer.PIdle?
    ensures var s := Exec(Init(cap), actions);
            var n := Min(|data|, cap - 1 - Unread(s));
            && 0 <= n
            && var s' := Repeat(Step(s, StartWrite(data)), ProducerStep, n + 3);
               && s'.producer == PIdle && s'.consumer == s.consumer && s'.delivered == s.delivered
               && s'.accepted == s.accepted + data[..n]
  {
    InitInv(cap);
    ExecKeepsInv(Init(cap), actions);
    CapUnchanged(Init(cap), actions);
    WriteFrom(Exec(Init(cap), actions), data);
  }

  lemma WriteFrom(s: State, data: seq<Sample>)
    requires Inv(s) && s.producer.PIdle?
    ensures var n := Min(|data|, s.cap - 1 - Unread(s));
            var s' := Repeat(Step(s, StartWrite(data)), ProducerStep, n + 3);
            && s'.producer == PIdle && s'.consumer == s.consumer && s'.delivered == s.delivered
            && s'.accepted == s.accepted + data[..n]
  {
    var n := Min(|data|, s.cap - 1 - Unread(s));
    var g := Step(s, StartWrite(data));
    WriteBegins(s, data);
    var t := StepProducer(g);
    assert Repeat(g, ProducerStep, n + 3) == Repeat(t, ProducerStep, n + 2);
    if n == 0 {
      IdleRepeats(t, ProducerStep, 2);
      assert s.accepted + data[..0] == s.accepted;
    } else {
      assert Repeat(t, ProducerStep, n + 2) == Repeat(StepProducer(t), ProducerStep, n + 1);
      StoresFinish(StepProducer(t), n);
    }
  }

  /** From every reachable state with an idle consumer, whatever the producer is in the middle of: a read
      that runs undisturbed delivers exactly the next samples, as many as fit the buffer. */
  lemma UndisturbedRead(cap: int, actions: seq<Action>, want: nat)
    requires cap > 0 && Exec(Init(cap), actions).consumer.CIdle?
    ensures var s := Exec(Init(cap), actions);
            var n := Min(want, Unread(s));
            && 0 <= n && |s.delivered| + n <= |s.accepted|
            && var s' := Repeat(Step(s, StartRead(want)), ConsumerStep, n + 3);
               && s'.consumer == CIdle && s'.producer == s.producer && s'.accepted == s.accepted
               && s'.delivered == s.accepted[..|s.delivered| + n]
  {
    InitInv(cap);
    ExecKeepsInv(Init(cap), actions);
    ReadFrom(Exec(Init(cap), actions), want);
  }

  lemma ReadFrom(s: State, want: nat)
    requires Inv(s) && s.consumer.CIdle?
    ensures var n := Min(want, Unread(s));
            var s' := Repeat(Step(s, StartRead(want)), ConsumerStep, n + 3);
            && s'.consumer == CIdle && s'.producer == s.producer && s'.accepted == s.accepted
            && |s.delivered| + n <= |s.accepted|
            && s'.delivered == s.accepted[..|s.delivered| + n]
  {
    var n := Min(want, Unread(s));
    var g := Step(s, StartRead(want));
    ReadBegins(s, want);
    var t := StepConsumer(g);
    assert Repeat(g, ConsumerStep, n + 3) == Repeat(t, ConsumerStep, n + 2);
    if n == 0 {
      IdleRepeats(t, ConsumerStep, 2);
    } else {
      assert Repeat(t, ConsumerStep, n + 2) == Repeat(StepConsumer(t), ConsumerStep, n + 1);
      LoadsFinish(StepConsumer(t), n);
    }
  }

  // ---------------------------------------------------------------- the two code halves

  lemma BeginStoring(s: State, src: seq<Sample>, count: int) returns (s': State)
    requires Inv(s) && s.producer.PIdle?
    requires 0 <= count <= |src| && count <= s.cap - 1 - Unread(s)
    ensures s' == s.(producer := PStoring(src, count, s.writeIdx, 0, count)) && Inv(s')
  {
    s' := s.(producer := PStoring(src, count, s.writeIdx, 0, count));
    assert History(s') == History(s);
  }

  lemma BeginLoading(s: State, count: int) returns (s': State)
    requires Inv(s) && s.consumer.CIdle?
    requires 0 <= count <= Unread(s)
    ensures s' == s.(consumer := CLoading(count, count, s.readIdx, [], count)) && Inv(s')
  {
    s' := s.(consumer := CLoading(count, count, s.readIdx, [], count));
  }

  lemma LoadedAreNext(s: State)
    requires Inv(s) && s.consumer.CLoading? && |s.consumer.out| == s.consumer.count
    ensures Inv(StepConsumer(s))
    ensures s.consumer.out == s.accepted[|s.delivered|..][..s.consumer.count]
  {
    FinishKeepsInv(s);
  }

  /** The ring as the program holds it. `accepted` and `delivered` are the histories of the
      step machine; `View` is the machine state between calls. */
  class RingBuffer {
    const buf: array<Sample>
    const capacity: int
    var writeIdx: int
    var readIdx: int
    ghost var accepted: seq<Sample>
    ghost var delivered: seq<Sample>

    ghost function ViewWith(p: Producer, c: Consumer): State
      reads this, buf
    {
      State(capacity, buf[..], writeIdx, readIdx, p, c, accepted, delivered)
    }

    ghost predicate Valid()
      reads this, buf
    {
      Inv(ViewWith(PIdle, CIdle))
    }

    /** Samples written and not yet read, oldest first. */
    ghost function Contents(): seq<Sample>
      requires Valid()
      reads this, buf
    {
      accepted[|delivered|..]
    }

    constructor (cap: int)
      requires cap >= 0
      ensures cap > 0 ==> Valid()
      ensures fresh(buf) && capacity == cap
      ensures accepted == [] && delivered == []
    {
      buf := new Sample[cap](_ => 0);
      capacity := cap;
      writeIdx, readIdx := 0, 0;
      accepted, delivered := [], [];
      new;
      assert buf[..] == seq(cap, _ => 0);
    }

    method AvailableToRead() returns (n: int)
      requires Valid()
      ensures n == |Contents()|
    {
      ModDifference(|delivered|, |accepted|, capacity);
      n := AvailableRead(writeIdx, readIdx, capacity);
    }

    method AvailableToWrite() returns (n: int)
      requires Valid()
      ensures n == capacity - 1 - |Contents()|
    {
      var a := AvailableToRead();
      n := capacity - 1 - a;
    }

    /** Rust `RingBuffer::write`, run with no reader in between. */
    method Write(data: seq<Sample>) returns (count: int)
      requires Valid()
      modifies this, buf
      ensures Valid() && delivered == old(delivered)
      ensures count == Min(|data|, capacity - 1 - |old(Contents())|)
      ensures accepted == old(accepted) + data[..count]
    {
      var avail := AvailableToWrite();
      count := Min(|data|, avail);
      if count == 0 {
        assert accepted + data[..0] == accepted;
        return;
      }
      RingWrite(data, count);
    }

    /** C++ `ring_write`: the caller has already sized the transfer. */
    method RingWrite(src: seq<Sample>, count: int)
      requires Valid()
      requires 0 <= count <= |src| && count <= capacity - 1 - |Contents()|
      modifies this, buf
      ensures Valid() && delivered == old(delivered)
      ensures accepted == old(accepted) + src[..count]
    {
      var w := writeIdx;
      var i := 0;
      ghost var s := BeginStoring(ViewWith(PIdle, CIdle), src, count);
      while i < count
        invariant 0 <= i <= count
        invariant unchanged(this)
        invariant Inv(s) && s == ViewWith(PStoring(src, count, w, i, count), CIdle)
      {
        StoreKeepsInv(s);
        s := StepProducer(s);
        buf[w] := src[i];
        w := w + 1;
        if w >= capacity {
          w := 0;
        }
        i := i + 1;
        assert buf[..] == s.buf;
      }
      PublishKeepsInv(s);
      writeIdx := w;
      accepted := accepted + src[..count];
      assert ViewWith(PIdle, CIdle) == StepProducer(s);
    }

    /** Rust `RingBuffer::read`, run with no writer in between. */
    method Read(out: array<Sample>) returns (count: int)
      requires Valid() && out != buf
      modifies this, out
      ensures Valid() && accepted == old(accepted)
      ensures count == Min(out.Length, |old(Contents())|)
      ensures delivered == old(delivered) + out[..count]
      ensures out[..count] == old(Contents())[..count]
      ensures out[count..] == old(out[count..])
    {
      var avail := AvailableToRead();
      count := Min(out.Length, avail);
      if count == 0 {
        assert out[..0] == [] && delivered + [] == delivered;
        return;
      }
      RingRead(out, count);
    }

    /** C++ `ring_read`: the caller has already sized the transfer. */
    method RingRead(dst: array<Sample>, count: int)
      requires Valid() && dst != buf
      requires 0 <= count <= dst.Length && count <= |Contents()|
      modifies this, dst
      ensures Valid() && accepted == old(accepted)
      ensures dst[..count] == old(Contents())[..count]
      ensures dst[count..] == old(dst[count..])
      ensures delivered == old(delivered) + dst[..count]
    {
      ghost var begun := BeginLoading(ViewWith(PIdle, CIdle), count);
      ghost var s;
      var r;
      r, s := CopyOut(dst, count, begun);
      LoadedAreNext(s);
      readIdx := r;
      delivered := delivered + dst[..count];
      assert ViewWith(PIdle, CIdle) == StepConsumer(s);
    }

    /** The copy loop of a read. */
    method CopyOut(dst: array<Sample>, count: int, ghost begun: State) returns (r: int, ghost s: State)
      requires dst != buf && 0 <= count <= dst.Length
      requires Inv(begun) && begun == ViewWith(PIdle, CLoading(count, count, readIdx, [], count))
      modifies dst
      ensures Inv(s) && s == ViewWith(PIdle, CLoading(count, count, r, dst[..count], count))
      ensures dst[count..] == old(dst[count..])
    {
      r, s := readIdx, begun;
      var i := 0;
      while i < count
        invariant 0 <= i <= count
        invariant s == begun.(consumer := CLoading(count, count, r, dst[..i], count))
        invariant Inv(s) && unchanged(buf)
        invariant dst[count..] == old(dst[count..])
      {
        LoadKeepsInv(s);
        ghost var loaded := dst[..i];
        dst[i] := buf[r];
        assert dst[..i + 1] == loaded + [s.buf[r]];
        s := StepConsumer(s);
        r := r + 1;
        if r >= capacity {
          r := 0;
        }
        i := i + 1;
      }
    }

    /** C++ `CaptureCallback::onAudioReady`: the microphone side of the capture ring. */
    method CaptureCallback(running: bool, frames: seq<Sample>) returns (taken: int)
      requires Valid()
      modifies this, buf
      ensures Valid() && delivered == old(delivered)
      ensures taken == if running then Min(|frames|, capacity - 1 - |old(Contents())|) else 0
      ensures accepted == old(accepted) + frames[..taken]
    {
      if !running {
        assert frames[..0] == [] && accepted + [] == accepted;
        return 0;
      }
      var avail := AvailableToWrite();
      taken := Min(|frames|, avail);
      if taken > 0 {
        RingWrite(frames, taken);
      } else {
        assert frames[..0] == [] && accepted + [] == accepted;
      }
    }

    /** C++ `PlayoutCallback::onAudioReady`: the speaker gets the oldest samples, then silence. */
    method PlayoutCallback(running: bool, dst: array<Sample>) returns (got: int)
      requires Valid() && dst != buf
      modifies this, dst
      ensures Valid() && accepted == old(accepted)
      ensures got == if running then Min(dst.Length, |old(Contents())|) else 0
      ensures dst[..got] == old(Contents())[..got]
      ensures delivered == old(delivered) + dst[..got]
      ensures forall k :: got <= k < dst.Length ==> dst[k] == 0
    {
      got := 0;
      if running {
        var avail := AvailableToRead();
        got := Min(dst.Length, avail);
        if got > 0 {
          RingRead(dst, got);
        }
      }
      assert got == 0 ==> dst[..got] == [] && delivered + [] == delivered;
      ghost var read := dst[..got];
      var k := got;
      while k < dst.Length
        invariant got <= k <= dst.Length
        invariant dst[..got] == read
        invariant forall m :: got <= m < k ==> dst[m] == 0
        invariant Valid() && accepted == old(accepted)
        invariant delivered == old(delivered) + read
      {
        dst[k] := 0;
        k := k + 1;
      }
    }
  }
}
