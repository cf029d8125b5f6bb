/** The direct-versus-relay connection race as a timed machine with a millisecond clock. Two
    spawned tasks make progress on every tick; the racing function selects the first to finish,
    gives the other a grace period, and reports both. The relay task sleeps twice before it
    dials: once in its spawned task, once inside the timed future. */
module Race {
  import opened Basics

  /** How long a dial takes from the moment it is started, and how it ends. */
  datatype Dial = Ready(after: nat, ok: bool) | Panics(after: nat) | Never

  datatype Path = Direct | Relay

  const DIRECT_TIMEOUT: nat := 4000
  const RELAY_TIMEOUT: nat := 5000
  const HEAD_START: nat := 500
  const GRACE: nat := 1000

  datatype DirectTask = Dialing | DirectEnded(ok: bool)
  datatype RelayTask =
    | OuterSleep
    | InnerSleep(wake: nat, timeout: nat)
    | RelayDialing(since: nat, timeout: nat)
    | RelayEnded(ok: bool)

  datatype Phase = Selecting | Graced(deadline: nat) | Finished(at: nat)

  /** The racing function's own variables. */
  datatype Control = Control(
    phase: Phase, directResult: Option<bool>, relayResult: Option<bool>, winner: Option<Path>)

  datatype World = World(direct: DirectTask, relay: RelayTask, control: Control)

  const START: World := World(Dialing, OuterSleep, Control(Selecting, None, None, None))

  /** A dial started at `since` has an outcome by now: success, error or panic. */
  function DialOutcome(d: Dial, since: nat, now: nat): Option<bool> {
    match d
    case Ready(after, ok) => if since + after <= now then Some(ok) else None
    case Panics(after) => if since + after <= now then Some(false) else None
    case Never => None
  }

  /** `timeout(4 s, direct_fut)`: the future is polled before the timer. */
  function PollDirect(t: DirectTask, d: Dial, now: nat): DirectTask {
    if t.DirectEnded? then t
    else
      match DialOutcome(d, 0, now)
      case Some(ok) => DirectEnded(ok)
      case None => if now >= DIRECT_TIMEOUT then DirectEnded(false) else Dialing
  }

  /** Sleep, then `timeout(5 s, { sleep; dial })`. */
  function PollRelay(t: RelayTask, d: Dial, now: nat): RelayTask
    decreases if t.OuterSleep? then 3 else if t.InnerSleep? then 2 else if t.RelayDialing? then 1 else 0
  {
    match t
    case OuterSleep =>
      if now >= HEAD_START then PollRelay(InnerSleep(now + HEAD_START, now + RELAY_TIMEOUT), d, now) else t
    case InnerSleep(wake, timeout) =>
      if now >= wake then PollRelay(RelayDialing(now, timeout), d, now)
      else if now >= timeout then RelayEnded(false)
      else t
    case RelayDialing(since, timeout) =>
      (match DialOutcome(d, since, now)
       case Some(ok) => RelayEnded(ok)
       case None => if now >= timeout then RelayEnded(false) else t)
    case RelayEnded(_) => t
  }

  /** The biased select: direct is looked at first. */
  function Select(c: Control, direct: DirectTask, relay: RelayTask, now: nat): Control {
    if direct.DirectEnded? then
      Control(Graced(now + GRACE), Some(direct.ok), None, Some(if direct.ok then Direct else Relay))
    else if relay.RelayEnded? then
      Control(Graced(now + GRACE), None, Some(relay.ok), Some(if relay.ok then Relay else Direct))
    else c
  }

  /** The grace period of whichever path has no result yet. */
  function Await(c: Control, direct: DirectTask, relay: RelayTask, now: nat): Control {
    if !c.phase.Graced? then c
    else if c.directResult.None? then
      if direct.DirectEnded? then c.(directResult := Some(direct.ok), phase := Finished(now))
      else if now >= c.phase.deadline then c.(directResult := Some(false), phase := Finished(now))
      else c
    else if c.relayResult.None? then
      if relay.RelayEnded? then c.(relayResult := Some(relay.ok), phase := Finished(now))
      else if now >= c.phase.deadline then c.(relayResult := Some(false), phase := Finished(now))
      else c
    else c
  }

  /** Polling the racing function once. */
  function Poll(c: Control, direct: DirectTask, relay: RelayTask, now: nat): Control {
    Await(if c.phase.Selecting? then Select(c, direct, relay, now) else c, direct, relay, now)
  }

  /** One millisecond: both spawned tasks run, then the racing function is polled. */
  function Tick(w: World, direct: Dial, relay: Dial, now: nat): World {
    var d, r := PollDirect(w.direct, direct, now), PollRelay(w.relay, relay, now);
    World(d, r, Poll(w.control, d, r, now))
  }

  /** The world after the ticks 0..now. */
  function Run(direct: Dial, relay: Dial, now: nat): World {
    Tick(if now == 0 then START else Run(direct, relay, now - 1), direct, relay, now)
  }

  /** What `race` returns: an error, or the two transports' presence and the local winner. */
  datatype RaceResult = BothFailed | RaceOk(direct: bool, relay: bool, localWinner: Path)

  function Result(c: Control): RaceResult
    requires c.directResult.Some? && c.relayResult.Some? && c.winner.Some?
  {
    if !c.directResult.value && !c.relayResult.value then BothFailed
    else RaceOk(c.directResult.value, c.relayResult.value, c.winner.value)
  }

  // ---------------------------------------------------------------- closed form

  /** When the direct task ends, and how. */
  function DirectEnd(d: Dial): (nat, bool) {
    match d
    case Ready(after, ok) => if after <= DIRECT_TIMEOUT then (after, ok) else (DIRECT_TIMEOUT, false)
    case Panics(after) => if after <= DIRECT_TIMEOUT then (after, false) else (DIRECT_TIMEOUT, false)
    case Never => (DIRECT_TIMEOUT, false)
  }

  /** When the relay task ends: two head starts, then the dial, within the 5 s that begin after
      the first. */
  function RelayEnd(d: Dial): (nat, bool) {
    var last := HEAD_START + RELAY_TIMEOUT;
    match d
    case Ready(after, ok) => if 2 * HEAD_START + after <= last then (2 * HEAD_START + after, ok) else (last, false)
    case Panics(after) => if 2 * HEAD_START + after <= last then (2 * HEAD_START + after, false) else (last, false)
    case Never => (last, false)
  }

  function RaceEnd(direct: Dial, relay: Dial): nat {
    var td, tr := DirectEnd(direct).0, RelayEnd(relay).0;
    if td <= tr then Min(tr, td + GRACE) else Min(td, tr + GRACE)
  }

  /** A path counts if it succeeds and ends no later than 1 s after the other. Ending first is a
      special case. */
  predicate DirectCounts(direct: Dial, relay: Dial) {
    DirectEnd(direct).1 && DirectEnd(direct).0 <= RelayEnd(relay).0 + GRACE
  }

  predicate RelayCounts(direct: Dial, relay: Dial) {
    RelayEnd(relay).1 && RelayEnd(relay).0 <= DirectEnd(direct).0 + GRACE
  }

  function LocalWinner(direct: Dial, relay: Dial): Path {
    var (td, okd), (tr, okr) := DirectEnd(direct), RelayEnd(relay);
    if td <= tr then (if okd then Direct else Relay) else (if okr then Relay else Direct)
  }

  function DirectAt(d: Dial, now: nat): DirectTask {
    if now >= DirectEnd(d).0 then DirectEnded(DirectEnd(d).1) else Dialing
  }

  function RelayAt(d: Dial, now: nat): RelayTask {
    if now >= RelayEnd(d).0 then RelayEnded(RelayEnd(d).1)
    else if now >= 2 * HEAD_START then RelayDialing(2 * HEAD_START, HEAD_START + RELAY_TIMEOUT)
    else if now >= HEAD_START then InnerSleep(2 * HEAD_START, HEAD_START + RELAY_TIMEOUT)
    else OuterSleep
  }

  lemma {:induction false} TasksAt(direct: Dial, relay: Dial, now: nat)
    ensures Run(direct, relay, now).direct == DirectAt(direct, now)
    ensures Run(direct, relay, now).relay == RelayAt(relay, now)
    decreases now
  {
    if now == 0 {
      FirstTick(direct, relay);
    } else {
      TasksAt(direct, relay, now - 1);
      DirectTick(direct, now);
      RelayTick(relay, now);
    }
  }

  lemma FirstTick(direct: Dial, relay: Dial)
    ensures PollDirect(Dialing, direct, 0) == DirectAt(direct, 0)
    ensures PollRelay(OuterSleep, relay, 0) == RelayAt(relay, 0)
  {}

  lemma DirectTick(d: Dial, now: nat)
    requires now > 0
    ensures PollDirect(DirectAt(d, now - 1), d, now) == DirectAt(d, now)
  {}

  lemma RelayTick(d: Dial, now: nat)
    requires now > 0
    ensures PollRelay(RelayAt(d, now - 1), d, now) == RelayAt(d, now)
  {
    if now == HEAD_START {
      assert RelayAt(d, now - 1) == OuterSleep;
    } else if now == 2 * HEAD_START {
      assert RelayAt(d, now - 1) == InnerSleep(2 * HEAD_START, HEAD_START + RELAY_TIMEOUT);
    }
  }

  /** The racing function's variables at every instant, from the two end times and outcomes. */
  function ControlAt(td: nat, okd: bool, tr: nat, okr: bool, now: nat): Control {
    var first, end := Min(td, tr), if td <= tr then Min(tr, td + GRACE) else Min(td, tr + GRACE);
    var winner := Some(if td <= tr then (if okd then Direct else Relay) else (if okr then Relay else Direct));
    if now < first then Control(Selecting, None, None, None)
    else if now >= end then
      Control(Finished(end), Some(okd && td <= tr + GRACE), Some(okr && tr <= td + GRACE), winner)
    else if td <= tr then Control(Graced(first + GRACE), Some(okd), None, winner)
    else Control(Graced(first + GRACE), None, Some(okr), winner)
  }

  lemma PollAt(td: nat, okd: bool, tr: nat, okr: bool, c: Control, d: DirectTask, r: RelayTask, now: nat)
    requires c == if now == 0 then START.control else ControlAt(td, okd, tr, okr, now - 1)
    requires d == if now >= td then DirectEnded(okd) else Dialing
    requires r.RelayEnded? <==> now >= tr
    requires now >= tr ==> r.ok == okr
    ensures Poll(c, d, r, now) == ControlAt(td, okd, tr, okr, now)
  {}

  lemma {:induction false} RunControl(direct: Dial, relay: Dial, now: nat)
    ensures var (td, okd), (tr, okr) := DirectEnd(direct), RelayEnd(relay);
            Run(direct, relay, now).control == ControlAt(td, okd, tr, okr, now)
    decreases now
  {
    if now == 0 {
    } else {
      RunControl(direct, relay, now - 1);
    }
    TasksAt(direct, relay, now);
    var (td, okd) := DirectEnd(direct);
    var (tr, okr) := RelayEnd(relay);
    var before := if now == 0 then START else Run(direct, relay, now - 1);
    var w := Run(direct, relay, now);
    PollAt(td, okd, tr, okr, before.control, w.direct, w.relay, now);
  }

  // ---------------------------------------------------------------- main results

  /** For all completion times and outcomes: the race is over within 5 s, and its result is the
      closed form. */
  lemma RaceOutcome(direct: Dial, relay: Dial, now: nat)
    requires now >= 5000
    ensures RaceEnd(direct, relay) <= 5000
    ensures var w := Run(direct, relay, now).control;
            && w.phase == Finished(RaceEnd(direct, relay))
            && w.directResult == Some(DirectCounts(direct, relay))
            && w.relayResult == Some(RelayCounts(direct, relay))
            && w.winner == Some(LocalWinner(direct, relay))
  {
    RunControl(direct, relay, now);
  }

  /** The race returns a result before RaceEnd at no instant, and never changes it afterwards. */
  lemma RaceEndsOnce(direct: Dial, relay: Dial, now: nat)
    ensures Run(direct, relay, now).control.phase.Finished? <==> now >= RaceEnd(direct, relay)
    ensures now >= RaceEnd(direct, relay) ==>
            Run(direct, relay, now).control.phase == Finished(RaceEnd(direct, relay))
  {
    RunControl(direct, relay, now);
  }

  /** Ok exactly when some path succeeds and either ends first or ends within 1 s of the other;
      and the transport named as local winner is present in every Ok result. */
  lemma OkExactlyWhenAPathCounts(direct: Dial, relay: Dial)
    ensures var w := Run(direct, relay, 5000).control;
            && w.directResult.Some? && w.relayResult.Some? && w.winner.Some?
            && (Result(w).RaceOk? <==>
                  || (DirectEnd(direct).1 && DirectEnd(direct).0 <= RelayEnd(relay).0 + GRACE)
                  || (RelayEnd(relay).1 && RelayEnd(relay).0 <= DirectEnd(direct).0 + GRACE))
            && (Result(w).RaceOk? ==>
                  match Result(w).localWinner case Direct => Result(w).direct case Relay => Result(w).relay)
            && (Result(w).RaceOk? && Result(w).direct && Result(w).relay ==>
                  (Result(w).localWinner == Direct <==> DirectEnd(direct).0 <= RelayEnd(relay).0))
  {
    RaceOutcome(direct, relay, 5000);
  }

  /** Direct fails at time t before the relay is done: the relay is used if and only if its dial
      takes at most t. Both head starts are charged, and the grace period only pays for them. */
  lemma RelayAfterDirectFailure(direct: Dial, relay: Dial)
    requires !DirectEnd(direct).1 && DirectEnd(direct).0 < RelayEnd(relay).0
    ensures var w := Run(direct, relay, 5000).control;
            && w.directResult == Some(false) && w.relayResult.Some? && w.winner == Some(Relay)
            && (Result(w).RaceOk? <==>
                  relay.Ready? && relay.ok && relay.after <= DirectEnd(direct).0)
  {
    RaceOutcome(direct, relay, 5000);
  }

  /** Either path may take 4 s when the other never answers. */
  lemma Deadlines(t: nat)
    ensures var d := Run(Ready(t, true), Never, 5000).control; d.directResult == Some(t <= 4000)
    ensures var r := Run(Never, Ready(t, true), 5000).control; r.relayResult == Some(t <= 4000)
  {
    RaceOutcome(Ready(t, true), Never, 5000);
    RaceOutcome(Never, Ready(t, true), 5000);
  }

  /** So a relay that answers in 100 ms is lost when direct is refused after 50 ms. */
  lemma FastRefusalLosesRelay()
    ensures var w := Run(Ready(50, false), Ready(100, true), 5000).control;
            w.directResult == Some(false) && w.relayResult == Some(false) && w.winner == Some(Relay)
  {
    RaceOutcome(Ready(50, false), Ready(100, true), 5000);
  }
}
