/**
  The sequence of iterations, tied to the protocols of its parts: each step is
  a stretch of a hand-over run, however elections interleave with it, and over
  any number of steps a request reaches at most one start.
 */
module IterationRuns {
  import opened Common
  import opened IterationSequence
  import H = HandOver
  import R = ReloadHandOff

  // ----- what the sequence does in the hand-over protocol

  /** A step of the elections, not of the sequence. */
  predicate Outside(event: H.Event) {
    event.Acquires? || event.Loses? || event.LeaseExpires? || event.OtherReplicaAcquires? || event.OtherReplicaReleases?
  }

  /** The steps of the sequence in a run. */
  function Own(run: seq<H.Event>): seq<H.Event> {
    if run == [] then [] else (if Outside(run[0]) then [] else [run[0]]) + Own(run[1..])
  }

  /** What of the protocol's state the sequence knows. */
  datatype View = View(phase: H.Phase, current: Option<nat>, next: Option<nat>, marks: seq<(bool, nat)>)

  ghost function ViewOf(s: H.State): View {
    View(s.phase, s.current, s.next,
         seq(|s.iterations|, i requires 0 <= i < |s.iterations| => (s.iterations[i].retired, s.iterations[i].torn)))
  }

  lemma OutsideUnseen(s: H.State, event: H.Event)
    requires H.Enabled(s, event) && Outside(event)
    ensures ViewOf(H.Do(s, event)) == ViewOf(s) && H.Valid(H.Do(s, event))
  {
  }

  lemma SameLength(s: H.State, t: H.State)
    requires ViewOf(s) == ViewOf(t)
    ensures |s.iterations| == |t.iterations|
  {
    assert |ViewOf(s).marks| == |s.iterations| && |ViewOf(t).marks| == |t.iterations|;
  }

  lemma SameMarks(s: H.State, t: H.State, i: nat)
    requires ViewOf(s) == ViewOf(t) && i < |s.iterations|
    ensures |t.iterations| == |s.iterations|
    ensures t.iterations[i].retired == s.iterations[i].retired && t.iterations[i].torn == s.iterations[i].torn
  {
    assert |ViewOf(s).marks| == |s.iterations| && |ViewOf(t).marks| == |t.iterations|;
    assert ViewOf(s).marks[i] == ViewOf(t).marks[i];
  }

  /** Tearing down and retiring change the same marks, whatever the rest of the state. */
  lemma TearDownSeen(s: H.State, t: H.State, i: nat, a: bool, b: bool)
    requires ViewOf(s) == ViewOf(t) && i < |s.iterations| && i < |t.iterations|
    ensures ViewOf(H.TearDown(s, i, a)) == ViewOf(H.TearDown(t, i, b))
    ensures ViewOf(H.Retire(s, i)) == ViewOf(H.Retire(t, i))
  {
    SameLength(s, t);
    forall k | 0 <= k < |s.iterations| ensures k < |t.iterations| && s.iterations[k].retired == t.iterations[k].retired
      && s.iterations[k].torn == t.iterations[k].torn
    {
      SameMarks(s, t, k);
    }
    var torn, torn' := H.TearDown(s, i, a), H.TearDown(t, i, b);
    forall k | 0 <= k < |s.iterations| ensures ViewOf(torn).marks[k] == ViewOf(torn').marks[k] {
      assert k != i ==> torn.iterations[k] == s.iterations[k] && torn'.iterations[k] == t.iterations[k];
    }
    assert ViewOf(torn).marks == ViewOf(torn').marks;
    var retired, retired' := H.Retire(s, i), H.Retire(t, i);
    forall k | 0 <= k < |s.iterations| ensures ViewOf(retired).marks[k] == ViewOf(retired').marks[k] {
      assert k != i ==> retired.iterations[k] == s.iterations[k] && retired'.iterations[k] == t.iterations[k];
    }
    assert ViewOf(retired).marks == ViewOf(retired').marks;
  }

  lemma CloseSeen(s: H.State, t: H.State, a: bool, b: bool)
    requires ViewOf(s) == ViewOf(t) && H.Valid(s) && H.Valid(t)
    ensures ViewOf(H.Close(s, a)) == ViewOf(H.Close(t, b))
  {
    if s.current.Some? { TearDownSeen(s, t, s.current.value, a, b); }
  }

  /** A view determines whether a state is valid. */
  lemma ValidSeen(s: H.State, t: H.State)
    requires ViewOf(s) == ViewOf(t) && H.Valid(s)
    ensures H.Valid(t) && |t.iterations| == |s.iterations|
  {
    assert |ViewOf(s).marks| == |s.iterations| && |ViewOf(t).marks| == |t.iterations|;
  }

  /** A step of the sequence acts on the view alone. */
  lemma OwnSeen(s: H.State, t: H.State, event: H.Event)
    requires ViewOf(s) == ViewOf(t) && H.Enabled(s, event) && !Outside(event)
    ensures H.Enabled(t, event) && ViewOf(H.Do(s, event)) == ViewOf(H.Do(t, event))
  {
    ValidSeen(s, t);
    match event
    case StartBegins => FreshSeen(s, t);
    case HandsOver => if s.current.Some? { TearDownSeen(s, t, s.current.value, true, true); }
    case EntersElection => EnteredSeen(s, t, s.next.value);
    case StartFails(released) => FailsSeen(s, t, released);
    case StartSucceeds(clean, released) => SucceedsSeen(s, t, clean, released);
    case IterationEnds(released) => CloseSeen(s, t, released, released);
    case ShutsDown(released) => CloseSeen(s, t, released, released);
    case ReloadTaken =>
  }

  lemma FreshSeen(s: H.State, t: H.State)
    requires ViewOf(s) == ViewOf(t) && H.Enabled(s, H.StartBegins) && H.Enabled(t, H.StartBegins)
    ensures ViewOf(H.Do(s, H.StartBegins)) == ViewOf(H.Do(t, H.StartBegins))
  {
    var a, b := ViewOf(H.Do(s, H.StartBegins)), ViewOf(H.Do(t, H.StartBegins));
    assert a.marks == ViewOf(s).marks + [(false, 0)] && b.marks == ViewOf(t).marks + [(false, 0)];
    assert |ViewOf(s).marks| == |s.iterations| && |ViewOf(t).marks| == |t.iterations|;
  }

  lemma EnteredSeen(s: H.State, t: H.State, n: nat)
    requires ViewOf(s) == ViewOf(t) && H.Enabled(s, H.EntersElection) && H.Enabled(t, H.EntersElection)
    ensures ViewOf(H.Do(s, H.EntersElection)) == ViewOf(H.Do(t, H.EntersElection))
  {
    assert ViewOf(H.Do(s, H.EntersElection)).marks == ViewOf(s).marks;
    assert ViewOf(H.Do(t, H.EntersElection)).marks == ViewOf(t).marks;
  }

  lemma FailsSeen(s: H.State, t: H.State, released: bool)
    requires ViewOf(s) == ViewOf(t) && H.Enabled(s, H.StartFails(released)) && H.Enabled(t, H.StartFails(released))
    ensures ViewOf(H.Do(s, H.StartFails(released))) == ViewOf(H.Do(t, H.StartFails(released)))
  {
    TearDownSeen(s, t, s.next.value, released, released);
    var a := H.TearDown(s, s.next.value, released).(next := None, phase := H.Idle);
    var b := H.TearDown(t, t.next.value, released).(next := None, phase := H.Idle);
    assert ViewOf(a) == ViewOf(b);
    if a.current.Some? {
      SameMarks(a, b, a.current.value);
      var c := if a.elects then a.(lease := H.Release(a.lease, released)) else a;
      var d := if b.elects then b.(lease := H.Release(b.lease, released)) else b;
      assert ViewOf(c) == ViewOf(a) && ViewOf(d) == ViewOf(b);
      CloseSeen(c, d, released, released);
    }
  }

  lemma SucceedsSeen(s: H.State, t: H.State, clean: bool, released: bool)
    requires ViewOf(s) == ViewOf(t)
    requires H.Enabled(s, H.StartSucceeds(clean, released)) && H.Enabled(t, H.StartSucceeds(clean, released))
    ensures ViewOf(H.Do(s, H.StartSucceeds(clean, released))) == ViewOf(H.Do(t, H.StartSucceeds(clean, released)))
  {
    CloseSeen(s, t, released, released);
    var a, b := H.Close(s, released), H.Close(t, released);
    ValidSeen(s, t);
    if !clean { TearDownSeen(a, b, s.next.value, released, released); }
  }

  /** However elections interleave, the sequence sees the same. */
  lemma {:induction false} OwnRunSeen(s: H.State, t: H.State, run: seq<H.Event>)
    requires ViewOf(s) == ViewOf(t) && H.Run(s, run).Some?
    ensures H.Run(t, Own(run)).Some? && ViewOf(H.Run(s, run).value) == ViewOf(H.Run(t, Own(run)).value)
    decreases |run|
  {
    if run != [] {
      if Outside(run[0]) {
        OutsideUnseen(s, run[0]);
        OwnRunSeen(H.Do(s, run[0]), t, run[1..]);
        assert [] + Own(run[1..]) == Own(run[1..]);
      } else {
        OwnSeen(s, t, run[0]);
        OwnRunSeen(H.Do(s, run[0]), H.Do(t, run[0]), run[1..]);
        assert Own(run)[1..] == Own(run[1..]);
      }
    }
  }

  // ----- a step is a stretch of a hand-over run

  /** The protocol's events of one step; `closes` says that tearing the predecessor down goes well. */
  ghost predicate IsStep(own: seq<H.Event>, plan: StartPlan, closes: bool, wait: Wait) {
    if plan.FailsEarly() then exists r :: own == [H.StartBegins, H.StartFails(r)]
    else if plan.FailsLate() then
      || (exists r :: own == [H.StartBegins, H.HandsOver, H.StartFails(r)])
      || (exists r :: own == [H.StartBegins, H.HandsOver, H.EntersElection, H.StartFails(r)])
    else if !closes then
      exists r :: own == [H.StartBegins, H.HandsOver, H.EntersElection, H.StartSucceeds(false, r)]
    else if wait.Reloaded? then
      exists r :: own == [H.StartBegins, H.HandsOver, H.EntersElection, H.StartSucceeds(true, r), H.ReloadTaken]
    else
      exists r, q :: own == [H.StartBegins, H.HandsOver, H.EntersElection, H.StartSucceeds(true, r), H.IterationEnds(q)]
  }

  /**
    What a step leaves of the protocol's state: the mark of the new iteration and of
    the predecessor, and which is current.
   */
  datatype Left = Left(current: Option<nat>, made: nat, predecessor: nat)

  ghost function Leaves(before: H.State, plan: StartPlan, closes: bool, wait: Wait): Left {
    var serves := plan.Serves() && closes && wait.Reloaded?;
    Left(if plan.FailsEarly() then before.current else if serves then Some(|before.iterations|) else None,
         if serves then 0 else 1,
         if plan.FailsEarly() then 0 else 1)
  }

  /** The sequence stands between two steps, and its current iteration is untouched. */
  ghost predicate Ready(s: H.State) {
    && H.Valid(s) && s.phase.Idle?
    && (s.current.Some? ==> !s.iterations[s.current.value].retired && s.iterations[s.current.value].torn == 0)
  }

  ghost predicate LeftBy(before: H.State, after: H.State, left: Left) {
    && H.Valid(after) && after.phase.Idle? && after.current == left.current
    && |after.iterations| == |before.iterations| + 1
    && after.iterations[|before.iterations|].torn == left.made
    && (left.made == 0 ==> !after.iterations[|before.iterations|].retired)
    && (before.current.Some? ==>
          && before.current.value < |before.iterations|
          && after.iterations[before.current.value].torn == left.predecessor
          && (left.predecessor == 0 ==> !after.iterations[before.current.value].retired))
  }

  lemma OneStep(s: H.State, events: seq<H.Event>)
    requires events != [] && H.Run(s, events).Some?
    ensures H.Enabled(s, events[0]) && H.Run(s, events) == H.Run(H.Do(s, events[0]), events[1..])
  {
  }

  /** The successor has prepared and taken over. */
  ghost predicate TakenOver(s: H.State, t: H.State) {
    && H.Valid(t) && (t.phase.HandedOver? || t.phase.Contending?) && t.current == s.current
    && t.next == Some(|s.iterations|) && |t.iterations| == |s.iterations| + 1
    && t.iterations[|s.iterations|].torn == 0 && !t.iterations[|s.iterations|].retired
    && (s.current.Some? ==>
          && s.current.value < |s.iterations|
          && t.iterations[s.current.value].torn == 0 && t.iterations[s.current.value].retired)
  }

  lemma TakesOver(s: H.State, own: seq<H.Event>) returns (t: H.State)
    requires Ready(s) && |own| >= 2 && own[0] == H.StartBegins && own[1] == H.HandsOver && H.Run(s, own).Some?
    ensures TakenOver(s, t) && t.phase.HandedOver? && H.Run(s, own) == H.Run(t, own[2..])
  {
    OneStep(s, own);
    var a := H.Do(s, own[0]);
    assert own[1..][1..] == own[2..];
    OneStep(a, own[1..]);
    t := H.Do(a, own[1]);
  }

  lemma Enters(s: H.State, t: H.State, own: seq<H.Event>) returns (u: H.State)
    requires TakenOver(s, t) && own != [] && own[0] == H.EntersElection && H.Run(t, own).Some?
    ensures TakenOver(s, u) && u.phase.Contending? && H.Run(t, own) == H.Run(u, own[1..])
  {
    OneStep(t, own);
    u := H.Do(t, own[0]);
  }

  lemma TakenOverFails(s: H.State, t: H.State, r: bool)
    requires TakenOver(s, t)
    ensures LeftBy(s, H.Do(t, H.StartFails(r)), Left(None, 1, 1))
  {
  }

  lemma TakenOverUnclean(s: H.State, t: H.State, r: bool)
    requires TakenOver(s, t) && t.phase.Contending?
    ensures LeftBy(s, H.Do(t, H.StartSucceeds(false, r)), Left(None, 1, 1))
  {
  }

  /** The successor serves, and the predecessor is gone. */
  ghost predicate Served(s: H.State, d: H.State) {
    && H.Valid(d) && d.phase.Serving? && d.current == Some(|s.iterations|) && |d.iterations| == |s.iterations| + 1
    && d.iterations[|s.iterations|].torn == 0 && !d.iterations[|s.iterations|].retired
    && (s.current.Some? ==> s.current.value < |s.iterations| && d.iterations[s.current.value].torn == 1)
  }

  lemma TakenOverServes(s: H.State, t: H.State, r: bool)
    requires TakenOver(s, t) && t.phase.Contending?
    ensures Served(s, H.Do(t, H.StartSucceeds(true, r)))
  {
  }

  lemma ServedEnds(s: H.State, d: H.State, last: H.Event)
    requires Served(s, d) && (last.ReloadTaken? || last.IterationEnds?)
    ensures H.Enabled(d, last)
    ensures LeftBy(s, H.Do(d, last), if last.ReloadTaken? then Left(Some(|s.iterations|), 0, 1) else Left(None, 1, 1))
  {
  }

  lemma FailsEarlyLeaves(s: H.State, own: seq<H.Event>, r: bool)
    requires Ready(s) && own == [H.StartBegins, H.StartFails(r)] && H.Run(s, own).Some?
    ensures LeftBy(s, H.Run(s, own).value, Left(s.current, 1, 0))
  {
    OneStep(s, own);
    OneStep(H.Do(s, own[0]), own[1..]);
  }

  lemma FailsLateLeaves(s: H.State, own: seq<H.Event>, r: bool)
    requires Ready(s) && H.Run(s, own).Some?
    requires || own == [H.StartBegins, H.HandsOver, H.StartFails(r)]
             || own == [H.StartBegins, H.HandsOver, H.EntersElection, H.StartFails(r)]
    ensures LeftBy(s, H.Run(s, own).value, Left(None, 1, 1))
  {
    var t := TakesOver(s, own);
    var rest := own[2..];
    if |own| == 4 {
      t := Enters(s, t, own[2..]);
      rest := own[2..][1..];
    }
    assert rest == [H.StartFails(r)] && rest[1..] == [];
    OneStep(t, rest);
    TakenOverFails(s, t, r);
  }

  lemma SucceedsLeaves(s: H.State, own: seq<H.Event>, clean: bool, r: bool, rest: seq<H.Event>) returns (u: H.State)
    requires Ready(s) && H.Run(s, own).Some?
    requires own == [H.StartBegins, H.HandsOver, H.EntersElection, H.StartSucceeds(clean, r)] + rest
    ensures TakenOver(s, u) && u.phase.Contending? && H.Enabled(u, H.StartSucceeds(clean, r))
    ensures H.Run(s, own) == H.Run(H.Do(u, H.StartSucceeds(clean, r)), rest)
  {
    var t := TakesOver(s, own);
    u := Enters(s, t, own[2..]);
    var left := own[2..][1..];
    assert left[0] == H.StartSucceeds(clean, r) && left[1..] == rest;
    OneStep(u, left);
  }

  lemma UncleanLeaves(s: H.State, own: seq<H.Event>, r: bool)
    requires Ready(s) && H.Run(s, own).Some?
    requires own == [H.StartBegins, H.HandsOver, H.EntersElection, H.StartSucceeds(false, r)]
    ensures LeftBy(s, H.Run(s, own).value, Left(None, 1, 1))
  {
    assert own == own + [];
    var u := SucceedsLeaves(s, own, false, r, []);
    TakenOverUnclean(s, u, r);
  }

  lemma ServesLeaves(s: H.State, own: seq<H.Event>, r: bool, last: H.Event)
    requires Ready(s) && H.Run(s, own).Some? && (last.ReloadTaken? || last.IterationEnds?)
    requires own == [H.StartBegins, H.HandsOver, H.EntersElection, H.StartSucceeds(true, r)] + [last]
    ensures LeftBy(s, H.Run(s, own).value,
                   if last.ReloadTaken? then Left(Some(|s.iterations|), 0, 1) else Left(None, 1, 1))
  {
    var u := SucceedsLeaves(s, own, true, r, [last]);
    TakenOverServes(s, u, r);
    var d := H.Do(u, H.StartSucceeds(true, r));
    ServedEnds(s, d, last);
    assert [last][1..] == [];
    OneStep(d, [last]);
  }

  /** Without elections in between. */
  lemma OwnLeaves(s: H.State, own: seq<H.Event>, plan: StartPlan, closes: bool, wait: Wait)
    requires Ready(s) && H.Run(s, own).Some? && IsStep(own, plan, closes, wait)
    ensures LeftBy(s, H.Run(s, own).value, Leaves(s, plan, closes, wait))
  {
    if plan.FailsEarly() {
      var r :| own == [H.StartBegins, H.StartFails(r)];
      FailsEarlyLeaves(s, own, r);
    } else if plan.FailsLate() {
      if r :| own == [H.StartBegins, H.HandsOver, H.StartFails(r)] {
        FailsLateLeaves(s, own, r);
      } else {
        var r :| own == [H.StartBegins, H.HandsOver, H.EntersElection, H.StartFails(r)];
        FailsLateLeaves(s, own, r);
      }
    } else if !closes {
      var r :| own == [H.StartBegins, H.HandsOver, H.EntersElection, H.StartSucceeds(false, r)];
      UncleanLeaves(s, own, r);
    } else if wait.Reloaded? {
      var r :| own == [H.StartBegins, H.HandsOver, H.EntersElection, H.StartSucceeds(true, r), H.ReloadTaken];
      assert own == [H.StartBegins, H.HandsOver, H.EntersElection, H.StartSucceeds(true, r)] + [H.ReloadTaken];
      ServesLeaves(s, own, r, H.ReloadTaken);
    } else {
      var r, q :| own == [H.StartBegins, H.HandsOver, H.EntersElection, H.StartSucceeds(true, r), H.IterationEnds(q)];
      assert own == [H.StartBegins, H.HandsOver, H.EntersElection, H.StartSucceeds(true, r)] + [H.IterationEnds(q)];
      ServesLeaves(s, own, r, H.IterationEnds(q));
    }
  }

  lemma LeftSeen(before: H.State, s: H.State, t: H.State, left: Left)
    requires ViewOf(s) == ViewOf(t) && LeftBy(before, s, left)
    ensures LeftBy(before, t, left)
  {
    ValidSeen(s, t);
    SameMarks(s, t, |before.iterations|);
    if before.current.Some? { SameMarks(s, t, before.current.value); }
  }

  /** However elections interleave with a step, the protocol ends where the step does. */
  lemma StepLeaves(s: H.State, run: seq<H.Event>, plan: StartPlan, closes: bool, wait: Wait)
    requires Ready(s) && H.Run(s, run).Some? && IsStep(Own(run), plan, closes, wait)
    ensures LeftBy(s, H.Run(s, run).value, Leaves(s, plan, closes, wait))
  {
    OwnRunSeen(s, s, run);
    OwnLeaves(s, Own(run), plan, closes, wait);
    LeftSeen(s, H.Run(s, Own(run)).value, H.Run(s, run).value, Leaves(s, plan, closes, wait));
  }

  /** The sequence and the protocol agree on the current iteration and on what has been done to it. */
  ghost predicate Tied(sequence: Sequence, protocol: H.State)
    reads sequence, sequence.current
  {
    && sequence.Valid() && Ready(protocol)
    && (sequence.current == null <==> protocol.current.None?)
  }

  /**
    A step of the sequence, along any run of the hand-over protocol in which the
    sequence's own events are that step's: both end with the same current
    iteration, and agree on how often the new one and the predecessor were torn
    down.
   */
  method StepAlong(sequence: Sequence, elects: bool, plan: StartPlan, cleanClose: bool, wait: Wait, cleanLast: bool,
                   ghost protocol: H.State, ghost run: seq<H.Event>)
    returns (problems: seq<Problem>, ghost made: LiveIteration, ghost after: H.State)
    requires Tied(sequence, protocol) && H.Run(protocol, run).Some?
    requires IsStep(Own(run), plan, sequence.current == null || cleanClose, wait)
    modifies sequence, if sequence.current == null then {} else {sequence.current}
    ensures after == H.Run(protocol, run).value && Tied(sequence, after)
    ensures |after.iterations| == |protocol.iterations| + 1
    ensures after.iterations[|protocol.iterations|].torn == made.teardowns
    ensures sequence.current == made <==> after.current == Some(|protocol.iterations|)
    ensures old(sequence.current) != null ==>
      && protocol.current.value < |after.iterations|
      && after.iterations[protocol.current.value].torn == old(sequence.current).teardowns
      && (sequence.current == old(sequence.current) <==> after.current == protocol.current)
  {
    ghost var predecessor, closes := sequence.current, sequence.current == null || cleanClose;
    StepLeaves(protocol, run, plan, closes, wait);
    problems, made := sequence.Step(elects, plan, cleanClose, wait, cleanLast);
    after := H.Run(protocol, run).value;
  }

  /** The events of a step, if every write succeeds. */
  function Usual(plan: StartPlan, closes: bool, wait: Wait): seq<H.Event> {
    if plan.FailsEarly() then [H.StartBegins, H.StartFails(true)]
    else if plan.FailsLate() then [H.StartBegins, H.HandsOver, H.StartFails(true)]
    else if !closes then [H.StartBegins, H.HandsOver, H.EntersElection, H.StartSucceeds(false, true)]
    else [H.StartBegins, H.HandsOver, H.EntersElection, H.StartSucceeds(true, true)]
         + [if wait.Reloaded? then H.ReloadTaken else H.IterationEnds(true)]
  }

  lemma UsualIsStep(plan: StartPlan, closes: bool, wait: Wait)
    ensures IsStep(Usual(plan, closes, wait), plan, closes, wait)
      && Own(Usual(plan, closes, wait)) == Usual(plan, closes, wait)
  {
    AllOwn(Usual(plan, closes, wait));
  }

  lemma Then(s: H.State, event: H.Event, rest: seq<H.Event>)
    requires H.Enabled(s, event) && H.Run(H.Do(s, event), rest).Some?
    ensures H.Run(s, [event] + rest).Some?
  {
    assert ([event] + rest)[1..] == rest;
  }

  lemma TakenOverRuns(s: H.State, t: H.State, plan: StartPlan, closes: bool, wait: Wait)
    requires TakenOver(s, t) && t.phase.HandedOver? && !plan.FailsEarly()
    ensures H.Run(t, Usual(plan, closes, wait)[2..]).Some?
  {
    var usual := Usual(plan, closes, wait);
    if plan.FailsLate() {
      Then(t, H.StartFails(true), []);
      assert usual[2..] == [H.StartFails(true)] + [];
    } else {
      var u := H.Do(t, H.EntersElection);
      var d := H.Do(u, H.StartSucceeds(closes, true));
      var last := usual[4..];
      if closes {
        TakenOverServes(s, u, true);
        ServedEnds(s, d, last[0]);
        Then(d, last[0], []);
        assert last == [last[0]] + [];
      } else {
        assert last == [];
      }
      Then(u, H.StartSucceeds(closes, true), last);
      Then(t, H.EntersElection, [H.StartSucceeds(closes, true)] + last);
      assert usual[2..] == [H.EntersElection] + ([H.StartSucceeds(closes, true)] + last);
    }
  }

  /** Every step has such a run. */
  lemma StepHasRun(s: H.State, plan: StartPlan, closes: bool, wait: Wait)
    requires Ready(s)
    ensures exists run :: H.Run(s, run).Some? && IsStep(Own(run), plan, closes, wait)
  {
    var usual, a := Usual(plan, closes, wait), H.Do(s, H.StartBegins);
    UsualIsStep(plan, closes, wait);
    if plan.FailsEarly() {
      Then(a, H.StartFails(true), []);
      assert usual == [H.StartBegins] + ([H.StartFails(true)] + []);
      Then(s, H.StartBegins, [H.StartFails(true)] + []);
    } else {
      TakenOverRuns(s, H.Do(a, H.HandsOver), plan, closes, wait);
      assert usual == [H.StartBegins] + ([H.HandsOver] + usual[2..]);
      Then(a, H.HandsOver, usual[2..]);
      Then(s, H.StartBegins, [H.HandsOver] + usual[2..]);
    }
  }

  lemma {:induction false} AllOwn(run: seq<H.Event>)
    requires forall i :: 0 <= i < |run| ==> !Outside(run[i])
    ensures Own(run) == run
  {
    if run != [] { AllOwn(run[1..]); }
  }

  // ----- a request reaches at most one start

  /** One step: how reloads and startup interleaved, where a failed start failed, and how the teardowns went. */
  datatype Input = Input(trace: seq<R.Event>, elects: bool, late: bool, clean: bool, cleanClose: bool, cleanLast: bool)

  ghost predicate Complete(trace: seq<R.Event>) {
    R.Run(R.INITIAL, trace).Some? && R.Run(R.INITIAL, trace).value.startup.Over?
  }

  function OutcomeOf(trace: seq<R.Event>): R.Outcome
    requires Complete(trace)
  {
    R.Run(R.INITIAL, trace).value.startup.outcome
  }

  /** The request an outcome names. */
  function Named(outcome: R.Outcome): Option<Reload> {
    match outcome
    case Interrupted(r) => Some(r)
    case HandedOn(r) => Some(r)
    case _ => None
  }

  /** The start that comes to this outcome. */
  function PlanOf(input: Input): StartPlan
    requires Complete(input.trace)
  {
    match OutcomeOf(input.trace)
    case Interrupted(r) => StartPlan([input.late], [false], Some(r), true)
    case StartFailed => StartPlan([input.late], [false], None, input.clean)
    case _ => StartPlan([], [], None, true)
  }

  function WaitOf(input: Input): Wait
    requires Complete(input.trace)
  {
    if OutcomeOf(input.trace).HandedOn? then Reloaded(OutcomeOf(input.trace).reload) else Ended(Some(ContextProblem))
  }

  /** Each request is delivered to one iteration. */
  ghost predicate DeliveredOnce(inputs: seq<Input>) {
    forall i, j, r :: 0 <= i < j < |inputs| && R.Delivered(r) in inputs[i].trace ==> R.Delivered(r) !in inputs[j].trace
  }

  /** What is recorded or being recorded was delivered. */
  ghost predicate FromDeliveries(s: R.State, trace: seq<R.Event>) {
    && (forall r :: r in s.recorded ==> R.Delivered(r) in trace)
    && (s.observer.Received? ==> R.Delivered(s.observer.request) in trace)
  }

  lemma {:induction false} RecordedWasDelivered(trace: seq<R.Event>)
    requires R.Run(R.INITIAL, trace).Some?
    ensures FromDeliveries(R.Run(R.INITIAL, trace).value, trace)
  {
    if trace != [] {
      var n := |trace| - 1;
      R.RunInit(R.INITIAL, trace);
      RecordedWasDelivered(trace[..n]);
      assert trace == trace[..n] + [trace[n]];
    }
  }

  lemma NamedWasDelivered(trace: seq<R.Event>, r: Reload)
    requires Complete(trace) && Named(OutcomeOf(trace)) == Some(r)
    ensures R.Delivered(r) in trace
  {
    R.OutcomeIsNewest(trace);
    RecordedWasDelivered(trace);
    var t := R.Run(R.INITIAL, trace).value;
    if t.serving { assert t.seen[|t.seen| - 1] in t.recorded; }
  }

  lemma NamedOnce(inputs: seq<Input>, i: nat, j: nat)
    requires i < j < |inputs| && DeliveredOnce(inputs) && Complete(inputs[i].trace) && Complete(inputs[j].trace)
    ensures Named(OutcomeOf(inputs[i].trace)).Some? ==>
      Named(OutcomeOf(inputs[i].trace)) != Named(OutcomeOf(inputs[j].trace))
  {
    var a, b := Named(OutcomeOf(inputs[i].trace)), Named(OutcomeOf(inputs[j].trace));
    if a.Some? { NamedWasDelivered(inputs[i].trace, a.value); }
    if b.Some? { NamedWasDelivered(inputs[j].trace, b.value); }
  }

  /**
    What a step leaves for the next start: the request that cut this one short,
    or the one it handed on once it served, unless its predecessor could not be
    torn down cleanly.
   */
  ghost predicate LeftFor(given: Option<Reload>, input: Input, had: bool) {
    && Complete(input.trace)
    && given == match OutcomeOf(input.trace)
                case Interrupted(r) => Some(r)
                case HandedOn(r) => if had && !input.cleanClose then None else Some(r)
                case _ => None
  }

  /** Whether there is a current iteration after a step, given whether there was one before. */
  ghost function HasCurrent(input: Input, had: bool): bool
    requires Complete(input.trace)
  {
    match OutcomeOf(input.trace)
    case HandedOn(_) => !had || input.cleanClose
    case EndedWithout => false
    case _ => had && !input.late
  }

  lemma HandedIsNamed(input: Input, had: bool)
    requires Complete(input.trace)
    ensures LeftFor(HandedOn(PlanOf(input), if had then Unclean(input.cleanClose) else [], WaitOf(input)), input, had)
  {
  }

  /** One step, told from its outcome alone. */
  method RunStep(sequence: Sequence, input: Input)
    requires sequence.Valid() && Complete(input.trace)
    modifies sequence, if sequence.current == null then {} else {sequence.current}
    ensures sequence.Valid() && LeftFor(sequence.startup, input, old(sequence.current) != null)
    ensures sequence.current != null <==> HasCurrent(input, old(sequence.current) != null)
    ensures sequence.current == old(sequence.current) || sequence.current == null || fresh(sequence.current)
    ensures sequence.consumed == old(sequence.consumed) + AsList(old(sequence.startup))
  {
    HandedIsNamed(input, sequence.current != null);
    ghost var plan := PlanOf(input);
    ghost var failed := OutcomeOf(input.trace).Interrupted? || OutcomeOf(input.trace).StartFailed?;
    assert plan.FailsEarly() <==> failed && !input.late by {
      if plan.early != [] { assert plan.early[0] == input.late && plan.late[0] == false; }
    }
    assert plan.Serves() <==> !failed by {
      if plan.early != [] { assert plan.early[0] == input.late && plan.late[0] == false; }
    }
    var _, _ := sequence.Step(input.elects, PlanOf(input), input.cleanClose, WaitOf(input), input.cleanLast);
  }

  /**
    Over any number of steps, with any outcome of each, a start is given exactly
    what the step before left, and no request is given to two starts. `had` says
    before which steps there was a current iteration.
   */
  method RunSteps(sequence: Sequence, inputs: seq<Input>)
    returns (ghost given: seq<Option<Reload>>, ghost had: seq<bool>)
    requires sequence.Valid() && sequence.startup == None
    requires (forall i :: 0 <= i < |inputs| ==> Complete(inputs[i].trace)) && DeliveredOnce(inputs)
    modifies sequence, if sequence.current == null then {} else {sequence.current}
    ensures sequence.Valid() && |given| == |had| == |inputs|
    ensures inputs != [] ==> given[0] == None && had[0] == (old(sequence.current) != null)
    ensures forall i :: 0 < i < |given| ==> LeftFor(given[i], inputs[i - 1], had[i - 1])
    ensures forall i :: 0 < i < |had| ==> had[i] == HasCurrent(inputs[i - 1], had[i - 1])
    ensures forall i, j :: 0 <= i < j < |given| && given[i].Some? ==> given[i] != given[j]
  {
    given, had := [], [];
    for n := 0 to |inputs|
      invariant sequence.Valid() && |given| == |had| == n
      invariant sequence.current == old(sequence.current) || sequence.current == null || fresh(sequence.current)
      invariant forall i :: 0 < i < n ==> LeftFor(given[i], inputs[i - 1], had[i - 1])
      invariant forall i :: 0 < i < n ==> had[i] == HasCurrent(inputs[i - 1], had[i - 1])
      invariant n > 0 ==> given[0] == None && had[0] == (old(sequence.current) != null)
      invariant if n == 0 then sequence.startup == None else LeftFor(sequence.startup, inputs[n - 1], had[n - 1])
      invariant (sequence.current != null)
        == if n == 0 then old(sequence.current) != null else HasCurrent(inputs[n - 1], had[n - 1])
    {
      given, had := given + [sequence.startup], had + [sequence.current != null];
      RunStep(sequence, inputs[n]);
    }
    GivenOnce(inputs, given, had);
  }

  lemma GivenOnce(inputs: seq<Input>, given: seq<Option<Reload>>, had: seq<bool>)
    requires |given| == |had| == |inputs| && (given != [] ==> given[0] == None) && DeliveredOnce(inputs)
    requires forall i :: 0 < i < |given| ==> LeftFor(given[i], inputs[i - 1], had[i - 1])
    ensures forall i, j :: 0 <= i < j < |given| && given[i].Some? ==> given[i] != given[j]
  {
    forall i, j | 0 <= i < j < |given| && given[i].Some? ensures given[i] != given[j] {
      assert LeftFor(given[i], inputs[i - 1], had[i - 1]) && LeftFor(given[j], inputs[j - 1], had[j - 1]);
      NamedOnce(inputs, i - 1, j - 1);
    }
  }
}
