/** Candidate updates from one agent to its peer. The channel may lose, duplicate and reorder; the
    receiving agent may apply several updates concurrently. Each apply is two steps: the atomic
    `fetch_max` on `peer_generation`, and the return of its verdict. The opposite direction is
    another instance of the same machine. */
module Candidates {
  import opened Basics
  import opened CallTypes

  /** A gathered candidate set, by identity. */
  type Payload = nat

  datatype Update = Update(generation: nat, payload: Payload)

  /** An apply between its `fetch_max` and its return. */
  datatype Applying = Applying(update: Update, accepts: bool)

  /** Program state: `generation` of the sender, `peerGeneration` of the receiver, and the applies in
      flight by thread. Histories: all gathered sets, all updates sent, all updates applied in
      `fetch_max` order, those accepted in that order, and those returned to a caller in return order. */
  datatype State = State(
    generation: nat, peerGeneration: nat, applying: map<nat, Applying>,
    gathered: seq<Payload>, sent: set<Update>,
    applied: seq<Update>, accepted: seq<Update>, returned: seq<Update>)

  /** `announce` tells `re_gather`, which sends an update, from the initial `gather`. `Deliver` of an
      update not in `sent` is not a step of the channel and does nothing. */
  datatype Action =
    | Gather(payload: Payload, announce: bool)
    | Deliver(thread: nat, update: Update)
    | Return(thread: nat)

  function Init(): State { State(0, 0, map[], [], {}, [], [], []) }

  function Step(s: State, a: Action): State {
    match a
    case Gather(payload, announce) =>
      var u := Update(s.generation, payload);
      s.(generation := (s.generation + 1) % WORD32, gathered := s.gathered + [payload],
         sent := if announce then s.sent + {u} else s.sent)
    case Deliver(thread, u) =>
      if u !in s.sent || thread in s.applying then s
      else
        var prev := s.peerGeneration;
        var accepts := !(u.generation <= prev);
        s.(peerGeneration := Max(prev, u.generation),
           applying := s.applying[thread := Applying(u, accepts)],
           applied := s.applied + [u],
           accepted := if accepts then s.accepted + [u] else s.accepted)
    case Return(thread) =>
      if thread !in s.applying then s
      else
        var ap := s.applying[thread];
        s.(applying := map t | t in s.applying && t != thread :: s.applying[t],
           returned := if ap.accepts then s.returned + [ap.update] else s.returned)
  }

  function Exec(actions: seq<Action>): State {
    if actions == [] then Init()
    else Step(Exec(actions[..|actions| - 1]), actions[|actions| - 1])
  }

  // ---------------------------------------------------------------- invariant

  /** Generations are unique as long as at most 2^32 sets have been gathered. */
  predicate Fits(s: State) { |s.gathered| <= WORD32 }

  ghost predicate Authentic(s: State) {
    && s.generation == |s.gathered| % WORD32
    && (Fits(s) ==> forall u :: u in s.sent ==> u.generation < |s.gathered| && u.payload == s.gathered[u.generation])
    && forall i :: 0 <= i < |s.applied| ==> s.applied[i] in s.sent
  }

  predicate Increasing(us: seq<Update>) {
    forall i, j :: 0 <= i < j < |us| ==> us[i].generation < us[j].generation
  }

  ghost predicate Accepting(s: State) {
    && Increasing(s.accepted)
    && (forall i :: 0 <= i < |s.accepted| ==> 0 < s.accepted[i].generation <= s.peerGeneration)
    && (forall i :: 0 <= i < |s.accepted| ==> s.accepted[i] in s.applied)
    && (forall i :: 0 <= i < |s.applied| ==> s.applied[i].generation <= s.peerGeneration)
    && (if s.accepted == [] then s.peerGeneration == 0
        else s.peerGeneration == s.accepted[|s.accepted| - 1].generation)
  }

  /** Everything returned, or accepted and still in flight, was accepted. */
  ghost predicate Returning(s: State) {
    && (forall i :: 0 <= i < |s.returned| ==> s.returned[i] in s.accepted)
    && (forall t :: t in s.applying && s.applying[t].accepts ==> s.applying[t].update in s.accepted)
    && (forall i, j :: 0 <= i < j < |s.returned| ==> s.returned[i].generation != s.returned[j].generation)
    && (forall t, i :: t in s.applying && s.applying[t].accepts && 0 <= i < |s.returned| ==>
          s.applying[t].update.generation != s.returned[i].generation)
    && (forall t, u :: t in s.applying && u in s.applying && t != u &&
                       s.applying[t].accepts && s.applying[u].accepts ==>
          s.applying[t].update.generation != s.applying[u].update.generation)
  }

  ghost predicate Inv(s: State) { Authentic(s) && Accepting(s) && Returning(s) }

  lemma GatherKeepsInv(s: State, payload: Payload, announce: bool)
    requires Inv(s)
    ensures Inv(Step(s, Gather(payload, announce)))
  {
    var s' := Step(s, Gather(payload, announce));
    assert Fits(s') ==> Fits(s) && s.generation == |s.gathered|;
  }

  lemma DeliverKeepsInv(s: State, thread: nat, u: Update)
    requires Inv(s) && u in s.sent && thread !in s.applying
    ensures Inv(Step(s, Deliver(thread, u)))
  {
    var s' := Step(s, Deliver(thread, u));
    assert forall x :: x in s.applied ==> x in s'.applied;
    assert u == s'.applied[|s.applied|];
    assert Authentic(s');
    assert Accepting(s');
    DeliverKeepsReturning(s, thread, u);
  }

  lemma DeliverKeepsReturning(s: State, thread: nat, u: Update)
    requires Inv(s) && u in s.sent && thread !in s.applying
    ensures Returning(Step(s, Deliver(thread, u)))
  {
    var s' := Step(s, Deliver(thread, u));
    assert forall x :: x in s.accepted ==> x in s'.accepted;
    if u.generation > s.peerGeneration {
      assert u == s'.accepted[|s.accepted|];
      assert forall x :: x in s.accepted ==> x.generation < u.generation;
    }
  }

  lemma ReturnKeepsInv(s: State, thread: nat)
    requires Inv(s) && thread in s.applying
    ensures Inv(Step(s, Return(thread)))
  {
    var s' := Step(s, Return(thread));
    assert Authentic(s') && Accepting(s');
    ReturnKeepsReturning(s, thread);
  }

  lemma ReturnKeepsReturning(s: State, thread: nat)
    requires Returning(s) && thread in s.applying
    ensures Returning(Step(s, Return(thread)))
  {
    var s' := Step(s, Return(thread));
    assert forall t :: t in s'.applying ==> t in s.applying && t != thread && s'.applying[t] == s.applying[t];
  }

  lemma StepKeepsInv(s: State, a: Action)
    requires Inv(s)
    ensures Inv(Step(s, a))
  {
    match a
    case Gather(payload, announce) => GatherKeepsInv(s, payload, announce);
    case Deliver(thread, u) =>
      if u in s.sent && thread !in s.applying { DeliverKeepsInv(s, thread, u); }
    case Return(thread) =>
      if thread in s.applying { ReturnKeepsInv(s, thread); }
  }

  lemma {:induction false} ExecKeepsInv(actions: seq<Action>)
    ensures Inv(Exec(actions))
    decreases |actions|
  {
    if actions == [] {
    } else {
      ExecKeepsInv(actions[..|actions| - 1]);
      StepKeepsInv(Exec(actions[..|actions| - 1]), actions[|actions| - 1]);
    }
  }

  // ---------------------------------------------------------------- main results

  /** Every run: accepted generations strictly increase and are never 0; the last accepted update is
      the highest generation applied so far, and none was accepted if and only if nothing but
      generation 0 arrived. */
  lemma AcceptedIsHighestDelivered(actions: seq<Action>)
    ensures var s := Exec(actions);
            && Increasing(s.accepted)
            && (forall i :: 0 <= i < |s.accepted| ==> s.accepted[i].generation > 0 && s.accepted[i] in s.applied)
            && (s.accepted == [] <==> forall i :: 0 <= i < |s.applied| ==> s.applied[i].generation == 0)
            && (s.accepted != [] ==>
                  forall i :: 0 <= i < |s.applied| ==>
                    s.applied[i].generation <= s.accepted[|s.accepted| - 1].generation)
  {
    ExecKeepsInv(actions);
    var s := Exec(actions);
    if s.accepted != [] {
      var last := s.accepted[|s.accepted| - 1];
      var k :| 0 <= k < |s.applied| && s.applied[k] == last;
    }
  }

  /** Every run with at most 2^32 gathers: an accepted update carries the set the sender gathered
      under that generation, and no generation is returned to a caller twice. */
  lemma ReturnedAreAuthenticAndDistinct(actions: seq<Action>, i: nat, j: nat)
    requires Fits(Exec(actions)) && i < |Exec(actions).returned| && j < |Exec(actions).returned|
    ensures var s := Exec(actions);
            var u := s.returned[i];
            && 0 < u.generation < |s.gathered| && u.payload == s.gathered[u.generation]
            && u in s.accepted
            && (s.returned[i].generation == s.returned[j].generation ==> i == j)
  {
    ExecKeepsInv(actions);
    var s := Exec(actions);
    var u := s.returned[i];
    assert u in s.accepted;
    var k :| 0 <= k < |s.accepted| && s.accepted[k] == u;
    assert s.accepted[k] in s.applied;
    var m :| 0 <= m < |s.applied| && s.applied[m] == u;
  }

  /** The verdicts are ordered by `fetch_max`; the returns need not be. Two applies in flight at once
      can return in the opposite order, so a caller that installs what it is handed last may end on
      an older set. */
  lemma ConcurrentReturnsCanSwap()
    ensures var s := Exec([Gather(10, false), Gather(11, true), Gather(12, true),
                           Deliver(1, Update(1, 11)), Deliver(2, Update(2, 12)), Return(2), Return(1)]);
            && s.accepted == [Update(1, 11), Update(2, 12)]
            && s.returned == [Update(2, 12), Update(1, 11)]
  {
    var a := [Gather(10, false), Gather(11, true), Gather(12, true),
              Deliver(1, Update(1, 11)), Deliver(2, Update(2, 12)), Return(2), Return(1)];
    Unfold(a, 1);
    Unfold(a, 2);
    Unfold(a, 3);
    Unfold(a, 4);
    Unfold(a, 5);
    Unfold(a, 6);
    Unfold(a, 7);
    assert a[..7] == a && Exec(a[..0]) == Init();
    TwoUpdatesSent();
    SwapReturns(Step(Step(Step(Init(), a[0]), a[1]), a[2]));
  }

  lemma TwoUpdatesSent()
    ensures Step(Step(Step(Init(), Gather(10, false)), Gather(11, true)), Gather(12, true)) ==
            Init().(generation := 3, gathered := [10, 11, 12], sent := {Update(1, 11), Update(2, 12)})
  {
    var s1 := Step(Init(), Gather(10, false));
    assert s1 == Init().(generation := 1, gathered := [10]);
    var s2 := Step(s1, Gather(11, true));
    assert s2 == Init().(generation := 2, gathered := [10, 11], sent := {Update(1, 11)});
  }

  lemma SwapReturns(s: State)
    requires s == Init().(generation := 3, gathered := [10, 11, 12], sent := {Update(1, 11), Update(2, 12)})
    ensures var t := Step(Step(s, Deliver(1, Update(1, 11))), Deliver(2, Update(2, 12)));
            var r := Step(Step(t, Return(2)), Return(1));
            r.accepted == [Update(1, 11), Update(2, 12)] && r.returned == [Update(2, 12), Update(1, 11)]
  {
    var s1 := Step(s, Deliver(1, Update(1, 11)));
    assert s1.applying[1] == Applying(Update(1, 11), true) && 2 !in s1.applying;
    var t := Step(s1, Deliver(2, Update(2, 12)));
    assert t.applying[1] == Applying(Update(1, 11), true) && t.applying[2] == Applying(Update(2, 12), true);
    assert t.accepted == [Update(1, 11), Update(2, 12)] && t.returned == [];
  }

  lemma Unfold(a: seq<Action>, n: nat)
    requires 0 < n <= |a|
    ensures Exec(a[..n]) == Step(Exec(a[..n - 1]), a[n - 1])
  {
    assert a[..n][..n - 1] == a[..n - 1];
  }

  /** Two applies in flight that will both hand over their set. */
  ghost predicate BothAccepting(s: State, t: nat, u: nat) {
    t != u && t in s.applying && u in s.applying && s.applying[t].accepts && s.applying[u].accepts
  }

  ghost predicate AtMostOneAccepting(s: State) {
    forall t, u :: !BothAccepting(s, t, u)
  }

  /** At no point of the run are two accepting applies in flight. Stale ones do not matter. */
  ghost predicate NeverTwoAccepting(actions: seq<Action>)
    decreases |actions|
  {
    && AtMostOneAccepting(Exec(actions))
    && (actions != [] ==> NeverTwoAccepting(actions[..|actions| - 1]))
  }

  /** Thread t holds the latest accepted update, and all earlier ones have been returned. */
  ghost predicate HoldsLatest(s: State, t: nat) {
    t in s.applying && s.applying[t].accepts && s.accepted == s.returned + [s.applying[t].update]
  }

  /** Nothing accepted is waiting to be returned, or exactly the latest is. */
  ghost predicate LatestInFlight(s: State) {
    || (s.returned == s.accepted && forall t :: t in s.applying ==> !s.applying[t].accepts)
    || (exists t :: HoldsLatest(s, t))
  }

  lemma DeliverKeepsLatest(s: State, thread: nat, u: Update)
    requires LatestInFlight(s) && AtMostOneAccepting(Step(s, Deliver(thread, u)))
    requires u in s.sent && thread !in s.applying
    ensures LatestInFlight(Step(s, Deliver(thread, u)))
  {
    var s' := Step(s, Deliver(thread, u));
    if s'.applying[thread].accepts {
      forall t | t in s.applying ensures !s.applying[t].accepts {
        assert !BothAccepting(s', t, thread);
      }
      assert HoldsLatest(s', thread);
    } else if t :| HoldsLatest(s, t) {
      assert HoldsLatest(s', t);
    }
  }

  lemma ReturnKeepsLatest(s: State, thread: nat)
    requires LatestInFlight(s) && AtMostOneAccepting(s) && thread in s.applying
    ensures LatestInFlight(Step(s, Return(thread)))
  {
    var s' := Step(s, Return(thread));
    if s.applying[thread].accepts {
      assert forall t :: t in s.applying ==> !BothAccepting(s, t, thread);
    } else if t :| HoldsLatest(s, t) {
      assert HoldsLatest(s', t);
    }
  }

  lemma StepKeepsLatest(s: State, a: Action)
    requires LatestInFlight(s) && AtMostOneAccepting(s) && AtMostOneAccepting(Step(s, a))
    ensures LatestInFlight(Step(s, a))
  {
    match a
    case Gather(_, _) =>
      if t :| HoldsLatest(s, t) {
        assert HoldsLatest(Step(s, a), t);
      }
    case Deliver(thread, u) =>
      if u in s.sent && thread !in s.applying {
        DeliverKeepsLatest(s, thread, u);
      }
    case Return(thread) =>
      if thread in s.applying {
        ReturnKeepsLatest(s, thread);
      }
  }

  lemma {:induction false} NeverTwoInv(actions: seq<Action>)
    requires NeverTwoAccepting(actions)
    ensures LatestInFlight(Exec(actions))
    decreases |actions|
  {
    if actions == [] {
    } else {
      NeverTwoInv(actions[..|actions| - 1]);
      StepKeepsLatest(Exec(actions[..|actions| - 1]), actions[|actions| - 1]);
    }
  }

  /** Then sets are handed over in the order they were accepted, each newer than the one before. */
  lemma SingleAcceptReturnsInOrder(actions: seq<Action>)
    requires NeverTwoAccepting(actions)
    ensures var s := Exec(actions); s.returned <= s.accepted && Increasing(s.returned)
  {
    NeverTwoInv(actions);
    ExecKeepsInv(actions);
  }

  lemma ExecTwo(actions: seq<Action>, a: Action, b: Action)
    ensures Exec(actions + [a, b]) == Step(Step(Exec(actions), a), b)
  {
    assert (actions + [a, b])[..|actions| + 1] == actions + [a];
    assert (actions + [a])[..|actions|] == actions;
  }

  /** Otherwise one of the two return orders hands over an older set after a newer one. */
  lemma TwoAcceptingCanSwap(actions: seq<Action>, t: nat, u: nat)
    requires BothAccepting(Exec(actions), t, u)
    ensures !Increasing(Exec(actions + [Return(t), Return(u)]).returned)
         || !Increasing(Exec(actions + [Return(u), Return(t)]).returned)
  {
    ExecKeepsInv(actions);
    var s := Exec(actions);
    var n := |s.returned|;
    ExecTwo(actions, Return(t), Return(u));
    ExecTwo(actions, Return(u), Return(t));
    var tu := Exec(actions + [Return(t), Return(u)]).returned;
    var ut := Exec(actions + [Return(u), Return(t)]).returned;
    assert tu == s.returned + [s.applying[t].update, s.applying[u].update];
    assert ut == s.returned + [s.applying[u].update, s.applying[t].update];
    assert tu[n] == ut[n + 1] && tu[n + 1] == ut[n];
  }

  /** However the applies in flight at any point of the run return, the sets come in order. */
  ghost predicate ReturnsStayInOrder(actions: seq<Action>)
    decreases |actions|
  {
    && (forall t: nat, u: nat :: Increasing(Exec(actions + [Return(t), Return(u)]).returned))
    && (actions != [] ==> ReturnsStayInOrder(actions[..|actions| - 1]))
  }

  lemma ReturnKeepsAtMostOne(s: State, t: nat)
    requires AtMostOneAccepting(s)
    ensures AtMostOneAccepting(Step(s, Return(t)))
  {
    var s' := Step(s, Return(t));
    forall x, y ensures !BothAccepting(s', x, y) {
      assert !BothAccepting(s, x, y);
    }
  }

  lemma ReturnsKeepNeverTwo(actions: seq<Action>, t: nat, u: nat)
    requires NeverTwoAccepting(actions)
    ensures NeverTwoAccepting(actions + [Return(t), Return(u)])
  {
    var one, two := actions + [Return(t)], actions + [Return(t), Return(u)];
    assert one[..|actions|] == actions && two[..|actions| + 1] == one;
    ReturnKeepsAtMostOne(Exec(actions), t);
    ReturnKeepsAtMostOne(Exec(one), u);
  }

  /** The exact condition: returns stay in order if and only if two accepting applies are never in
      flight together. */
  lemma {:induction false} InOrderExactlyWhenNeverTwo(actions: seq<Action>)
    ensures ReturnsStayInOrder(actions) <==> NeverTwoAccepting(actions)
    decreases |actions|
  {
    if actions == [] {
    } else {
      InOrderExactlyWhenNeverTwo(actions[..|actions| - 1]);
    }
    if NeverTwoAccepting(actions) {
      forall t: nat, u: nat ensures Increasing(Exec(actions + [Return(t), Return(u)]).returned) {
        ReturnsKeepNeverTwo(actions, t, u);
        SingleAcceptReturnsInOrder(actions + [Return(t), Return(u)]);
      }
    } else if !AtMostOneAccepting(Exec(actions)) {
      var t, u :| BothAccepting(Exec(actions), t, u);
      TwoAcceptingCanSwap(actions, t, u);
    }
  }
}
