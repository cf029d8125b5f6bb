/** The sliding-window quality adapter with three-call hysteresis. */
module QualityAdapter {
  import opened Basics
  import opened CallTypes

  datatype QualityReport = QualityReport(lossPct: U8, rtt4ms: U8, jitterMs: U8, bitrateCapKbps: U8)

  const HYSTERESIS: nat := 3
  const WINDOW: nat := 10

  /** `classify`: loss_pct is in 1/255ths, rtt in units of 4 ms. */
  function Classify(r: QualityReport): QualityProfile {
    var loss := r.lossPct as real / 255.0 * 100.0;
    var rtt := r.rtt4ms * 4;
    if loss > 15.0 || rtt > 200 then CATASTROPHIC
    else if loss > 5.0 || rtt > 100 then DEGRADED
    else GOOD
  }

  /** The bands in the report's own units: loss in 1/255ths, round trip in units of 4 ms. */
  lemma Bands(r: QualityReport)
    ensures Classify(r) == CATASTROPHIC <==> r.lossPct >= 39 || r.rtt4ms >= 51
    ensures Classify(r) == GOOD <==> r.lossPct <= 12 && r.rtt4ms <= 25
    ensures Classify(r) == DEGRADED <==> !(r.lossPct >= 39 || r.rtt4ms >= 51) && !(r.lossPct <= 12 && r.rtt4ms <= 25)
  {}

  /** One `should_switch` call: what the adapter recommended and what the caller said was current. */
  datatype Call = Call(recommended: QualityProfile, current: QualityProfile)

  /** The call asked for a change to p. */
  predicate Wants(c: Call, p: QualityProfile) { c.recommended == p != c.current }

  /** The last k calls all asked for a change to p. */
  ghost predicate LastWant(calls: seq<Call>, k: nat, p: QualityProfile) {
    k <= |calls| && forall i :: |calls| - k <= i < |calls| ==> Wants(calls[i], p)
  }

  // ---------------------------------------------------------------- the hysteresis law

  /** All calls so far, latest last. */
  datatype Log = Empty | Then(before: Log, call: Call)

  /** The calls since the last switch, when a switch happens as soon as three calls since the one
      before asked for the same change. */
  ghost function Since(log: Log): seq<Call>
    decreases log, 1
  {
    match log
    case Empty => []
    case Then(before, c) => if SwitchesAt(log) then [] else Since(before) + [c]
  }

  /** The latest call brings a switch. */
  ghost predicate SwitchesAt(log: Log)
    requires log.Then?
    decreases log, 0
  {
    LastWant(Since(log.before) + [log.call], HYSTERESIS, log.call.recommended)
  }

  /** Every run, whatever the caller passes as current: a switch happens exactly when the last three
      calls all asked for it and neither of the two before the latest brought one. So two switches
      are at least three calls apart. */
  lemma SwitchesExactlyWhen(b: Log, x: Call, y: Call, z: Call)
    ensures SwitchesAt(Then(Then(Then(b, x), y), z)) <==>
            && Wants(x, z.recommended) && Wants(y, z.recommended) && Wants(z, z.recommended)
            && !SwitchesAt(Then(b, x)) && !SwitchesAt(Then(Then(b, x), y))
  {
    var one := Then(b, x);
    var two := Then(one, y);
    SinceStep(one);
    SinceStep(two);
    var all := Since(two) + [z];
    var n := |all|;
    if !SwitchesAt(one) && !SwitchesAt(two) {
      assert all == Since(b) + [x] + [y] + [z];
      assert all[n - 3] == x && all[n - 2] == y && all[n - 1] == z;
    } else {
      assert |Since(two)| <= 1;
    }
  }

  lemma SinceStep(log: Log)
    requires log.Then?
    ensures Since(log) == if SwitchesAt(log) then [] else Since(log.before) + [log.call]
  {}

  /** Fewer than three calls never bring a switch. */
  lemma NoEarlySwitch(x: Call, y: Call)
    ensures !SwitchesAt(Then(Empty, x)) && !SwitchesAt(Then(Then(Empty, x), y))
  {
    assert |Since(Then(Empty, x))| <= 1;
  }

  /** The profile in force after the latest call, if the caller adopts the answer. */
  ghost function InForce(log: Log): QualityProfile
    requires log.Then?
  {
    if SwitchesAt(log) then log.call.recommended else log.call.current
  }

  /** A caller that adopts each returned profile and changes it at no other time. */
  ghost predicate Adopting(log: Log) {
    match log
    case Empty => true
    case Then(before, c) => Adopting(before) && (before.Then? ==> c.current == InForce(before))
  }

  /** Every run of such a caller: a switch happens exactly when the profile is not in force and the
      last three calls recommended it. */
  lemma AdoptingSwitchesExactlyWhen(b: Log, x: Call, y: Call, z: Call)
    requires Adopting(Then(Then(Then(b, x), y), z))
    ensures SwitchesAt(Then(Then(Then(b, x), y), z)) <==>
            x.recommended == y.recommended == z.recommended != z.current
  {
    SwitchesExactlyWhen(b, x, y, z);
    var one := Then(b, x);
    var two := Then(one, y);
    assert z.current == InForce(two) && y.current == InForce(one);
  }

  // ---------------------------------------------------------------- the counter

  /** Calls at the end that all asked for the same change. */
  function Pressing(calls: seq<Call>): nat {
    if calls == [] then 0
    else
      var n := |calls| - 1;
      var p := calls[n].recommended;
      if !Wants(calls[n], p) then 0
      else if n > 0 && Wants(calls[n - 1], p) then 1 + Pressing(calls[..n])
      else 1
  }

  lemma {:induction false} PressingIsLastWant(calls: seq<Call>, k: nat)
    requires calls != [] && k >= 1
    ensures Pressing(calls) >= k <==> LastWant(calls, k, calls[|calls| - 1].recommended)
    decreases |calls|
  {
    var n := |calls| - 1;
    var init, p := calls[..n], calls[n].recommended;
    if n == 0 || k == 1 {
      assert LastWant(calls, k, p) <==> k == 1 && Wants(calls[n], p);
    } else {
      PressingIsLastWant(init, k - 1);
      assert LastWant(calls, k, p) <==> Wants(calls[n], p) && LastWant(init, k - 1, p);
      assert LastWant(init, k - 1, p) ==> Wants(init[n - 1], p);
    }
  }

  lemma PressingSnoc(calls: seq<Call>, c: Call)
    ensures Pressing(calls + [c]) ==
            if !Wants(c, c.recommended) then 0
            else if calls != [] && Wants(calls[|calls| - 1], c.recommended) then 1 + Pressing(calls) else 1
  {
    assert (calls + [c])[..|calls|] == calls;
  }

  /** The last WINDOW reports. */
  function LastReports(reports: seq<QualityReport>): seq<QualityReport> {
    if |reports| <= WINDOW then reports else reports[|reports| - WINDOW..]
  }

  lemma WindowSlides(reports: seq<QualityReport>, report: QualityReport)
    ensures var w := LastReports(reports);
            LastReports(reports + [report]) == (if |w| >= WINDOW then w[1..] else w) + [report]
  {
    var more := reports + [report];
    if |reports| >= WINDOW {
      assert more[|more| - WINDOW..] == reports[|reports| - WINDOW..][1..] + [report];
    }
  }

  class QualityAdapter {
    var window: seq<QualityReport>
    var consecutiveSame: nat
    var pendingProfile: Option<QualityProfile>
    /** Every report ingested and every `should_switch` call. */
    ghost var reports: seq<QualityReport>
    ghost var log: Log

    ghost predicate Valid()
      reads this
    {
      && window == LastReports(reports)
      && Counting(Since(log))
    }

    /** The counter is the number of calls at the end that asked for the pending profile, and it is
        below the threshold. */
    ghost predicate Counting(calls: seq<Call>)
      reads this
    {
      && consecutiveSame == Pressing(calls) < HYSTERESIS
      && pendingProfile == if Pressing(calls) == 0 then None else Some(calls[|calls| - 1].recommended)
    }

    constructor ()
      ensures Valid() && reports == [] && log == Empty
    {
      window, consecutiveSame, pendingProfile := [], 0, None;
      reports, log := [], Empty;
    }

    /** `ingest`: the window is always the last (at most) ten reports. */
    method Ingest(report: QualityReport)
      requires Valid()
      modifies this`window, this`reports
      ensures Valid()
      ensures reports == old(reports) + [report]
      ensures |window| == Min(|reports|, 10) && window == reports[|reports| - |window|..]
    {
      WindowSlides(reports, report);
      if |window| >= WINDOW {
        window := window[1..];
      }
      window := window + [report];
      reports := reports + [report];
    }

    function Recommended(): QualityProfile
      reads this
    {
      if window == [] then GOOD else Classify(window[|window| - 1])
    }

    /** `should_switch`: the counter and the pending profile implement the hysteresis law on the log of
        all calls, for any caller. */
    method ShouldSwitch(current: QualityProfile) returns (r: Option<QualityProfile>)
      requires Valid()
      modifies this`consecutiveSame, this`pendingProfile, this`log
      ensures Valid()
      ensures log == Then(old(log), Call(Recommended(), current))
      ensures Recommended() == if reports == [] then GOOD else Classify(reports[|reports| - 1])
      ensures r == if SwitchesAt(log) then Some(Recommended()) else None
    {
      var recommended := Recommended();
      ghost var all := Since(log) + [Call(recommended, current)];
      PressingIsLastWant(all, HYSTERESIS);
      r := Decide(current, recommended, Since(log));
      log := Then(log, Call(recommended, current));
    }

    /** The decision, with the run of equal requests as its yardstick. */
    method Decide(current: QualityProfile, recommended: QualityProfile, ghost calls: seq<Call>)
      returns (r: Option<QualityProfile>)
      requires Counting(calls)
      modifies this`consecutiveSame, this`pendingProfile
      ensures var all := calls + [Call(recommended, current)];
              && r == (if Pressing(all) >= HYSTERESIS then Some(recommended) else None)
              && Counting(if r.Some? then [] else all)
    {
      PressingSnoc(calls, Call(recommended, current));
      if recommended == current {
        consecutiveSame, pendingProfile := 0, None;
        return None;
      }
      if pendingProfile == Some(recommended) {
        consecutiveSame := consecutiveSame + 1;
      } else {
        pendingProfile := Some(recommended);
        consecutiveSame := 1;
      }
      if consecutiveSame >= HYSTERESIS {
        consecutiveSame, pendingProfile := 0, None;
        r := Some(recommended);
      } else {
        r := None;
      }
    }
  }
}
