/**
  The hand-over of leadership along a sequence of iterations on one replica:
  the successor prepares while its predecessor serves, retires the
  predecessor's term with the Lease kept, enters election, and only then is the
  predecessor torn down. Election events interleave with every step.
 */
module HandOver {
  import opened Common

  datatype Iteration = Iteration(
    entered: bool,    // started its election loop, or its components without election
    electing: bool,   // the loop runs
    term: bool,       // the leader-only components run
    keep: bool,       // the loop was told to keep the Lease when it stops
    latched: bool,    // no term starts again
    retired: bool,
    torn: nat)        // completed teardowns

  const FRESH := Iteration(false, false, false, false, false, false, 0)

  /** `Kept` names this replica for a successor to resume; `Abandoned` does so only until it expires. */
  datatype Lease = Vacant | Elsewhere | Held(owner: nat) | Kept(owner: nat) | Abandoned

  datatype Phase = Idle | Preparing | HandedOver | Contending | Serving | Exited

  datatype State = State(
    elects: bool,     // leader election is enabled
    phase: Phase,
    iterations: seq<Iteration>,
    current: Option<nat>,
    next: Option<nat>,
    lease: Lease)

  function Initial(elects: bool): State { State(elects, Idle, [], None, None, Vacant) }

  datatype Event =
    // steps of the sequence; `released` and `clean` are the results of API writes and of teardowns
    | StartBegins | HandsOver | EntersElection
    | StartFails(released: bool)
    | StartSucceeds(clean: bool, released: bool)
    | ReloadTaken | IterationEnds(released: bool) | ShutsDown(released: bool)
    // steps of the elections
    | Acquires(i: nat) | Loses(i: nat) | LeaseExpires | OtherReplicaAcquires | OtherReplicaReleases

  predicate Valid(s: State) {
    && (s.current.Some? ==> s.current.value < |s.iterations|)
    && (s.next.Some? ==> s.next.value < |s.iterations|)
    && (s.next.Some? <==> s.phase.Preparing? || s.phase.HandedOver? || s.phase.Contending?)
    && (s.phase.Serving? ==> s.current.Some?) && (s.phase.Exited? ==> s.current.None?)
    && (s.current.Some? && s.next.Some? ==> s.current.value != s.next.value)
  }

  /** Ends an iteration's term for its successor: the loop stops, the Lease stays. */
  function Retire(s: State, i: nat): State
    requires i < |s.iterations|
  {
    var it := s.iterations[i].(retired := true, keep := true, electing := false, term := false, latched := true);
    s.(iterations := s.iterations[i := it],
       lease := if s.lease == Held(i) then Kept(i) else s.lease)
  }

  function Release(lease: Lease, released: bool): Lease {
    if lease.Held? || lease.Kept? || lease.Abandoned? then (if released then Vacant else Abandoned) else lease
  }

  /** Stops everything an iteration still runs; a loop that may not keep the Lease vacates it. */
  function TearDown(s: State, i: nat, released: bool): State
    requires i < |s.iterations|
  {
    var it := s.iterations[i];
    s.(iterations := s.iterations[i := it.(electing := false, term := false, latched := true, torn := it.torn + 1)],
       lease := if s.elects && it.entered && it.electing && !it.keep then Release(s.lease, released) else s.lease)
  }

  /** Tears the current iteration down, if there is one. */
  function Close(s: State, released: bool): State
    requires Valid(s)
  {
    if s.current.None? then s else TearDown(s, s.current.value, released).(current := None)
  }

  predicate Enabled(s: State, event: Event) {
    Valid(s) &&
    match event
    case StartBegins => s.phase.Idle?
    case HandsOver => s.phase.Preparing?
    case EntersElection => s.phase.HandedOver?
    case StartFails(_) => s.next.Some?
    case StartSucceeds(_, _) => s.phase.Contending?
    case ReloadTaken => s.phase.Serving?
    case IterationEnds(_) => s.phase.Serving?
    case ShutsDown(_) => s.phase.Idle?
    case Acquires(i) =>
      && s.elects && i < |s.iterations| && s.iterations[i].electing
      && !s.iterations[i].term && !s.iterations[i].latched && !s.lease.Elsewhere?
    case Loses(i) => s.elects && i < |s.iterations| && s.iterations[i].term && s.lease == Held(i)
    case LeaseExpires => s.lease.Kept? || s.lease.Abandoned?
    case OtherReplicaAcquires => s.lease.Vacant?
    case OtherReplicaReleases => s.lease.Elsewhere?
  }

  function Do(s: State, event: Event): State
    requires Enabled(s, event)
  {
    match event
    case StartBegins => s.(phase := Preparing, next := Some(|s.iterations|), iterations := s.iterations + [FRESH])
    case HandsOver => (if s.current.Some? then Retire(s, s.current.value) else s).(phase := HandedOver)
    case EntersElection =>
      var n := s.next.value;
      var it := s.iterations[n].(entered := true, electing := s.elects, term := !s.elects);
      s.(phase := Contending, iterations := s.iterations[n := it])
    case StartFails(released) =>
      var t := TearDown(s, s.next.value, released).(next := None, phase := Idle);
      if t.current.Some? && t.iterations[t.current.value].retired then
        // The retry starts without a predecessor, so the kept Lease is vacated first.
        Close(if t.elects then t.(lease := Release(t.lease, released)) else t, released)
      else t
    case StartSucceeds(clean, released) =>
      var t := Close(s, released);
      if clean then t.(current := s.next, next := None, phase := Serving)
      else TearDown(t, s.next.value, released).(next := None, phase := Idle)
    case ReloadTaken => s.(phase := Idle)
    case IterationEnds(released) => Close(s, released).(phase := Idle)
    case ShutsDown(released) => Close(s, released).(phase := Exited)
    case Acquires(i) => s.(lease := Held(i), iterations := s.iterations[i := s.iterations[i].(term := true)])
    case Loses(i) => s.(lease := Vacant, iterations := s.iterations[i := s.iterations[i].(term := false)])
    case LeaseExpires => s.(lease := Vacant)
    case OtherReplicaAcquires => s.(lease := Elsewhere)
    case OtherReplicaReleases => s.(lease := Vacant)
  }

  function Run(s: State, events: seq<Event>): Option<State>
    decreases |events|
  {
    if events == [] then Some(s)
    else if Enabled(s, events[0]) then Run(Do(s, events[0]), events[1..])
    else None
  }

  // ----- invariants

  ghost predicate IsLive(s: State, i: nat) { s.current == Some(i) || s.next == Some(i) }

  /** Every iteration that is not live any more was torn down exactly once. */
  ghost predicate TornOnce(s: State) {
    forall i: nat :: i < |s.iterations| ==> s.iterations[i].torn == if IsLive(s, i) then 0 else 1
  }

  ghost predicate HandingOver(s: State) { s.phase.HandedOver? || s.phase.Contending? }

  ghost predicate CurrentRole(s: State)
    requires Valid(s)
  {
    s.current.Some? ==>
      var it := s.iterations[s.current.value];
      && it.entered
      && (if HandingOver(s) then it.retired && it.keep && it.latched && !it.electing && !it.term
          else !it.retired && !it.keep && !it.latched && it.electing == s.elects)
  }

  ghost predicate NextRole(s: State)
    requires Valid(s)
  {
    s.next.Some? ==>
      var it := s.iterations[s.next.value];
      && !it.retired && !it.keep && !it.latched
      && (if s.phase.Contending? then it.entered && it.electing == s.elects else it == FRESH)
  }

  /** What is not live runs nothing; a term runs only for a live iteration that holds the Lease. */
  ghost predicate TermsOwned(s: State) {
    && (forall i: nat :: i < |s.iterations| && !IsLive(s, i) ==>
        !s.iterations[i].electing && !s.iterations[i].term && s.iterations[i].latched)
    && (forall i: nat :: i < |s.iterations| && s.iterations[i].term && s.elects ==> s.lease == Held(i))
  }

  /** Someone on this replica will resume or vacate a Lease that names it. */
  ghost predicate HasHeir(s: State)
    requires Valid(s)
  {
    || (s.phase.HandedOver? && s.current.Some?)
    || (s.next.Some? && s.iterations[s.next.value].electing)
    || (s.current.Some? && s.iterations[s.current.value].electing)
  }

  ghost predicate LeaseRole(s: State)
    requires Valid(s)
  {
    && (!s.elects ==> s.lease.Vacant? || s.lease.Elsewhere?)
    && (s.lease.Held? ==> s.lease.owner < |s.iterations| && s.iterations[s.lease.owner].electing)
    && (s.lease.Held? || s.lease.Kept? ==> HasHeir(s))
  }

  ghost predicate Inv(s: State) {
    Valid(s) && TornOnce(s) && CurrentRole(s) && NextRole(s) && TermsOwned(s) && LeaseRole(s)
  }

  lemma EarlyFailureKeepsInv(s: State, released: bool)
    requires Inv(s) && Enabled(s, StartFails(released)) && (s.current.None? || s.phase.Preparing?)
    ensures Inv(Do(s, StartFails(released)))
  {
  }

  lemma LateFailureKeepsInv(s: State, released: bool)
    requires Inv(s) && Enabled(s, StartFails(released)) && s.current.Some? && HandingOver(s)
    ensures Inv(Do(s, StartFails(released)))
  {
  }

  lemma CleanSuccessKeepsInv(s: State, released: bool)
    requires Inv(s) && Enabled(s, StartSucceeds(true, released))
    ensures Inv(Do(s, StartSucceeds(true, released)))
  {
  }

  lemma UncleanSuccessKeepsInv(s: State, released: bool)
    requires Inv(s) && Enabled(s, StartSucceeds(false, released))
    ensures Inv(Do(s, StartSucceeds(false, released)))
  {
  }

  lemma BeginKeepsInv(s: State)
    requires Inv(s) && Enabled(s, StartBegins)
    ensures Inv(Do(s, StartBegins))
  {
  }

  lemma HandOverKeepsInv(s: State, event: Event)
    requires Inv(s) && Enabled(s, event) && (event.HandsOver? || event.EntersElection?)
    ensures Inv(Do(s, event))
  {
  }

  lemma EndKeepsInv(s: State, event: Event)
    requires Inv(s) && Enabled(s, event) && (event.ReloadTaken? || event.IterationEnds? || event.ShutsDown?)
    ensures Inv(Do(s, event))
  {
  }

  lemma ElectionKeepsInv(s: State, event: Event)
    requires Inv(s) && Enabled(s, event) && (event.Acquires? || event.Loses?)
    ensures Inv(Do(s, event))
  {
  }

  lemma LeaseKeepsInv(s: State, event: Event)
    requires Inv(s) && Enabled(s, event)
    requires event.LeaseExpires? || event.OtherReplicaAcquires? || event.OtherReplicaReleases?
    ensures Inv(Do(s, event))
  {
  }

  lemma StepKeepsInv(s: State, event: Event)
    requires Inv(s) && Enabled(s, event)
    ensures Inv(Do(s, event))
  {
    match event
    case StartFails(released) =>
      if s.current.None? || s.phase.Preparing? {
        EarlyFailureKeepsInv(s, released);
      } else {
        LateFailureKeepsInv(s, released);
      }
    case StartSucceeds(clean, released) =>
      if clean { CleanSuccessKeepsInv(s, released); } else { UncleanSuccessKeepsInv(s, released); }
    case StartBegins => BeginKeepsInv(s);
    case HandsOver | EntersElection => HandOverKeepsInv(s, event);
    case ReloadTaken | IterationEnds(_) | ShutsDown(_) => EndKeepsInv(s, event);
    case Acquires(_) | Loses(_) => ElectionKeepsInv(s, event);
    case _ => LeaseKeepsInv(s, event);
  }

  lemma {:induction false} RunKeepsInv(s: State, events: seq<Event>)
    requires Inv(s) && Run(s, events).Some?
    ensures Inv(Run(s, events).value)
    decreases |events|
  {
    if events != [] {
      StepKeepsInv(s, events[0]);
      RunKeepsInv(Do(s, events[0]), events[1..]);
    }
  }

  // ----- what every run of the sequence promises

  /** Each iteration ever started is torn down exactly once, or still live and not torn down at all. */
  lemma EachIterationTornDownOnce(elects: bool, events: seq<Event>, i: nat)
    requires Run(Initial(elects), events).Some? && i < |Run(Initial(elects), events).value.iterations|
    ensures var s := Run(Initial(elects), events).value;
      && s.iterations[i].torn <= 1
      && (s.iterations[i].torn == 0 <==> IsLive(s, i))
      && (s.phase.Exited? || (s.phase.Idle? && s.current.None?) ==> s.iterations[i].torn == 1)
  {
    RunKeepsInv(Initial(elects), events);
  }

  /** Between the steps of the sequence the current iteration still has its leadership. */
  lemma CurrentIsNeverRetired(elects: bool, events: seq<Event>)
    requires Run(Initial(elects), events).Some?
    requires var s := Run(Initial(elects), events).value; s.current.Some? && (s.phase.Idle? || s.phase.Serving?)
    ensures var s := Run(Initial(elects), events).value;
      && s.current.value < |s.iterations|
      && var it := s.iterations[s.current.value];
         !it.retired && !it.latched && it.electing == elects
  {
    RunKeepsInv(Initial(elects), events);
    RunKeepsElects(Initial(elects), events);
  }

  lemma {:induction false} RunKeepsElects(s: State, events: seq<Event>)
    requires Run(s, events).Some?
    ensures Run(s, events).value.elects == s.elects
    decreases |events|
  {
    if events != [] {
      RunKeepsElects(Do(s, events[0]), events[1..]);
    }
  }

  /** At most one iteration's term is open, with and without leader election. */
  lemma AtMostOneOpenTerm(elects: bool, events: seq<Event>, i: nat, j: nat)
    requires Run(Initial(elects), events).Some?
    requires var s := Run(Initial(elects), events).value;
      i < |s.iterations| && j < |s.iterations| && s.iterations[i].term && s.iterations[j].term
    ensures i == j
  {
    RunKeepsInv(Initial(elects), events);
  }

  /** A Lease naming this replica always has a live iteration to resume or vacate it; without one it is not kept. */
  lemma LeaseHasHeir(elects: bool, events: seq<Event>)
    requires Run(Initial(elects), events).Some?
    ensures var s := Run(Initial(elects), events).value;
      && Valid(s)
      && (s.lease.Held? || s.lease.Kept? ==> HasHeir(s))
      && (s.current.None? && s.next.None? ==> !s.lease.Held? && !s.lease.Kept?)
  {
    RunKeepsInv(Initial(elects), events);
  }

  ghost predicate NamesThisReplica(lease: Lease) { lease.Held? || lease.Kept? || lease.Abandoned? }

  /**
    The steps that give the Lease up: the end of an iteration that contends for
    it, and the end of a start that was to resume it. A successor that comes up
    gives nothing up.
   */
  ghost predicate GivesUp(s: State, event: Event) {
    s.elects &&
    match event
    case StartFails(_) => s.phase.Contending? || (s.phase.HandedOver? && s.current.Some?)
    case StartSucceeds(clean, _) => !clean
    case IterationEnds(_) => true
    case ShutsDown(_) => s.current.Some?
    case _ => false
  }

  ghost function Written(event: Event): bool {
    match event
    case StartFails(released) => released
    case StartSucceeds(_, released) => released
    case IterationEnds(released) => released
    case ShutsDown(released) => released
    case _ => false
  }

  /** What a step makes of the Lease. */
  ghost function LeaseAfter(s: State, event: Event): Lease {
    if GivesUp(s, event) then
      (if !NamesThisReplica(s.lease) then s.lease else if Written(event) then Vacant else Abandoned)
    else match event
      case HandsOver => if s.current.Some? && s.lease == Held(s.current.value) then Kept(s.current.value) else s.lease
      case Acquires(i) => Held(i)
      case Loses(_) => Vacant
      case LeaseExpires => Vacant
      case OtherReplicaReleases => Vacant
      case OtherReplicaAcquires => Elsewhere
      case _ => s.lease
  }

  lemma LeaseStep(s: State, event: Event)
    requires Inv(s) && Enabled(s, event)
    ensures Do(s, event).lease == LeaseAfter(s, event)
  {
    match event
    case StartFails(released) => FailedStartLease(s, released);
    case _ =>
  }

  lemma FailedStartLease(s: State, released: bool)
    requires Inv(s) && Enabled(s, StartFails(released))
    ensures Do(s, StartFails(released)).lease == LeaseAfter(s, StartFails(released))
  {
  }

  /** In every reachable state each step moves the Lease exactly so; a hand-over that succeeds leaves no vacancy. */
  lemma LeaseMovesExactly(elects: bool, events: seq<Event>, event: Event)
    requires Run(Initial(elects), events).Some? && Enabled(Run(Initial(elects), events).value, event)
    ensures var s := Run(Initial(elects), events).value; Do(s, event).lease == LeaseAfter(s, event)
  {
    RunKeepsInv(Initial(elects), events);
    LeaseStep(Run(Initial(elects), events).value, event);
  }

  /** Who contends for the Lease: the successor once it entered, and a current iteration that was not handed over. */
  ghost predicate Contends(s: State, i: nat) {
    && s.elects && i < |s.iterations|
    && ((s.phase.Contending? && s.next == Some(i)) || (!HandingOver(s) && s.current == Some(i)))
  }

  lemma ContendersCanAcquire(elects: bool, events: seq<Event>, i: nat)
    requires Run(Initial(elects), events).Some?
    ensures var s := Run(Initial(elects), events).value;
      Enabled(s, Acquires(i)) <==> Contends(s, i) && !s.iterations[i].term && !s.lease.Elsewhere?
  {
    RunKeepsInv(Initial(elects), events);
  }

  /**
    A kept Lease is resumed by a live successor, or vacated (or left to expire
    when the write fails); nothing else happens to it.
   */
  lemma KeptLeaseIsResumedOrReleased(elects: bool, events: seq<Event>, event: Event)
    requires Run(Initial(elects), events).Some? && Run(Initial(elects), events).value.lease.Kept?
    requires Enabled(Run(Initial(elects), events).value, event)
    ensures var s := Run(Initial(elects), events).value;
      var t := Do(s, event);
      || t.lease == s.lease
      || (t.lease.Held? && event == Acquires(t.lease.owner) && IsLive(s, t.lease.owner)
          && !s.iterations[t.lease.owner].retired)
      || ((t.lease.Vacant? || t.lease.Abandoned?)
          && (event.StartFails? || event.StartSucceeds? || event.IterationEnds? || event.ShutsDown?
              || event.LeaseExpires?))
  {
    RunKeepsInv(Initial(elects), events);
  }

  lemma {:induction false} LatchHolds(s: State, events: seq<Event>, i: nat)
    requires Inv(s) && Run(s, events).Some? && i < |s.iterations| && s.iterations[i].latched && !s.iterations[i].term
    ensures var t := Run(s, events).value; i < |t.iterations| && t.iterations[i].latched && !t.iterations[i].term
    decreases |events|
  {
    if events != [] {
      StepKeepsInv(s, events[0]);
      LatchStep(s, events[0], i);
      LatchHolds(Do(s, events[0]), events[1..], i);
    }
  }

  lemma LatchStep(s: State, event: Event, i: nat)
    requires Inv(s) && Enabled(s, event) && i < |s.iterations| && s.iterations[i].latched && !s.iterations[i].term
    ensures var t := Do(s, event); i < |t.iterations| && t.iterations[i].latched && !t.iterations[i].term
  {
  }

  /** No term starts on an iteration after it was retired or torn down. */
  lemma NoTermAfterLatch(elects: bool, before: seq<Event>, after: seq<Event>, i: nat)
    requires Run(Initial(elects), before).Some?
    requires var s := Run(Initial(elects), before).value; i < |s.iterations| && s.iterations[i].latched
    requires Run(Run(Initial(elects), before).value, after).Some?
    ensures var t := Run(Run(Initial(elects), before).value, after).value;
      i < |t.iterations| && !t.iterations[i].term
  {
    var s := Run(Initial(elects), before).value;
    RunKeepsInv(Initial(elects), before);
    LatchHolds(s, after, i);
  }
}
