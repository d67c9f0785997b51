/**
  How a configuration reload reaches the next iteration. The observer of an
  iteration races with its startup: before the iteration serves, a reload cuts
  the startup short; afterwards it is what the serving iteration hands on.
  Every shared read and write is one atomic step.
 */
module ReloadHandOff {
  import opened Common

  /** Each request is one of its own. Without a snapshot it is not recorded, but still ends a startup. */
  datatype Request = Request(id: nat, usable: bool)

  datatype Cause = Alive | Cancelled | ComponentFailed

  /** The observer: waiting, recording, signalling, and deciding whether to cancel. */
  datatype Observer = Watching | Received(request: Request) | Recorded | Signalled | Gone

  /** How a startup failed: by the iteration's cancellation, or otherwise. */
  datatype Failure = ByCancellation | Otherwise

  datatype Startup =
    | Loading
    | FoundAlive                      // the closing context check passed
    | Awaiting                        // serving, waiting for a reload
    | Failing(failure: Failure)
    | TearingDown(failure: Failure, latest: Option<Request>)
    | Over(outcome: Outcome)

  datatype Outcome =
    | Interrupted(reload: Request)    // restart at once from this reload
    | StartFailed                     // restart from live state
    | HandedOn(reload: Request)       // start the successor from this reload
    | EndedWithout                    // the iteration ended, nothing recorded

  datatype State = State(
    startup: Startup,
    observer: Observer,
    context: Cause,
    reload: Option<Request>,
    serving: bool,
    ready: bool,
    recorded: seq<Request>,           // everything ever recorded, oldest first
    seen: seq<Request>,               // what was recorded when the outcome was decided
    cleanTeardown: bool)

  const INITIAL := State(Loading, Watching, Alive, None, false, false, [], [], true)

  datatype Event =
    | Delivered(request: Request) | Records | Signals | Decides | ObserverLeaves
    | ProcessStops | ComponentFails | StartupFails(failure: Failure) | ChecksContext | MarksServing
    | ReadsLatest | TearsDown(clean: bool)
    | TakesReload | SeesContextDone

  predicate Enabled(s: State, event: Event) {
    match event
    case Delivered(request) => s.observer.Watching? && request !in s.recorded
    case Records => s.observer.Received?
    case Signals => s.observer.Recorded?
    case Decides => s.observer.Signalled?
    case ObserverLeaves => s.observer.Watching? && !s.context.Alive?
    case ProcessStops => true
    case ComponentFails => true
    // A step of the startup fails on its own, or because its context ended.
    case StartupFails(failure) => s.startup.Loading? && (failure.ByCancellation? ==> !s.context.Alive?)
    case ChecksContext => s.startup.Loading?
    case MarksServing => s.startup.FoundAlive?
    case ReadsLatest => s.startup.Failing?
    case TearsDown(_) => s.startup.TearingDown?
    case TakesReload => s.startup.Awaiting? && s.ready
    case SeesContextDone => s.startup.Awaiting? && !s.context.Alive?
  }

  function Cancel(context: Cause, cause: Cause): Cause { if context.Alive? then cause else context }

  /** A startup counts as interrupted if a reload was recorded and nothing but the cancellation went wrong. */
  function FailedOutcome(s: State, failure: Failure, latest: Option<Request>, clean: bool): Outcome {
    if latest.Some? && failure.ByCancellation? && s.context.Cancelled? && clean then Interrupted(latest.value)
    else StartFailed
  }

  function Do(s: State, event: Event): State
    requires Enabled(s, event)
  {
    match event
    case Delivered(request) => s.(observer := Received(request))
    case Records =>
      if s.observer.request.usable then
        s.(observer := Recorded, reload := Some(s.observer.request), recorded := s.recorded + [s.observer.request])
      else s.(observer := Signalled)
    case Signals => s.(observer := Signalled, ready := true)
    case Decides =>
      if s.serving then s.(observer := Watching) else s.(observer := Gone, context := Cancel(s.context, Cancelled))
    case ObserverLeaves => s.(observer := Gone)
    case ProcessStops => s.(context := Cancel(s.context, Cancelled))
    case ComponentFails => s.(context := Cancel(s.context, ComponentFailed))
    case StartupFails(failure) => s.(startup := Failing(failure))
    case ChecksContext =>
      s.(startup := match s.context
                    case Alive => FoundAlive
                    case Cancelled => Failing(ByCancellation)
                    case ComponentFailed => Failing(Otherwise))
    case MarksServing => s.(startup := Awaiting, serving := true)
    case ReadsLatest => s.(startup := TearingDown(s.startup.failure, s.reload), seen := s.recorded)
    case TearsDown(clean) =>
      s.(startup := Over(FailedOutcome(s, s.startup.failure, s.startup.latest, clean)), cleanTeardown := clean,
         context := Cancel(s.context, Cancelled))
    case TakesReload =>
      s.(startup := Over(if s.reload.Some? then HandedOn(s.reload.value) else EndedWithout), seen := s.recorded)
    case SeesContextDone =>
      s.(startup := Over(if s.reload.Some? then HandedOn(s.reload.value) else EndedWithout), seen := s.recorded)
  }

  function Run(s: State, events: seq<Event>): Option<State>
    decreases |events|
  {
    if events == [] then Some(s)
    else if Enabled(s, events[0]) then Run(Do(s, events[0]), events[1..])
    else None
  }

  // ----- invariants of every interleaving

  ghost function Newest(requests: seq<Request>): Option<Request> {
    if requests == [] then None else Some(requests[|requests| - 1])
  }

  ghost predicate Distinct(requests: seq<Request>) {
    forall i, j :: 0 <= i < j < |requests| ==> requests[i] != requests[j]
  }

  ghost predicate Inv(s: State) {
    && Distinct(s.recorded) && s.seen <= s.recorded && (s.observer.Received? ==> s.observer.request !in s.recorded)
    && s.reload == Newest(s.recorded)
    && (s.ready || s.observer.Recorded? ==> s.recorded != [])
    && (s.recorded != [] && !s.observer.Recorded? ==> s.ready)
    && (s.serving <==>
        || s.startup.Awaiting?
        || (s.startup.Over? && (s.startup.outcome.HandedOn? || s.startup.outcome.EndedWithout?)))
    && (s.startup.TearingDown? ==> s.startup.latest == Newest(s.seen))
    // Before the iteration serves, the first reload recorded is also the last.
    && (!s.serving && s.recorded != [] ==>
        |s.recorded| == 1 && (s.observer.Recorded? || s.observer.Signalled? || s.observer.Gone?))
    && (s.observer.Gone? ==> !s.context.Alive?)
  }

  /** The outcome accounts for the newest reload recorded when it was decided. */
  ghost predicate Accounted(s: State) {
    s.startup.Over? ==>
      match s.startup.outcome
      case Interrupted(r) => Newest(s.seen) == Some(r) && |s.seen| == 1 && !s.serving && s.cleanTeardown
      case HandedOn(r) => Newest(s.seen) == Some(r) && s.serving
      case EndedWithout => s.seen == [] && s.serving
      case StartFailed => !s.serving
  }

  predicate OfObserver(event: Event) {
    event.Delivered? || event.Records? || event.Signals? || event.Decides? || event.ObserverLeaves?
  }

  lemma ObserverKeepsHistory(s: State, event: Event)
    requires Inv(s) && Enabled(s, event) && OfObserver(event)
    ensures Inv(Do(s, event))
  {
  }

  lemma StartupKeepsHistory(s: State, event: Event)
    requires Inv(s) && Enabled(s, event) && !OfObserver(event)
    ensures Inv(Do(s, event))
  {
  }

  lemma StepKeepsHistory(s: State, event: Event)
    requires Inv(s) && Enabled(s, event)
    ensures Inv(Do(s, event))
  {
    if OfObserver(event) { ObserverKeepsHistory(s, event); } else { StartupKeepsHistory(s, event); }
  }

  lemma StepKeepsAccounts(s: State, event: Event)
    requires Inv(s) && Accounted(s) && Enabled(s, event) && (s.startup.TearingDown? ==> |s.seen| <= 1)
    ensures Accounted(Do(s, event))
    ensures Do(s, event).startup.TearingDown? ==> |Do(s, event).seen| <= 1
  {
  }

  lemma {:induction false} RunKeepsInv(s: State, events: seq<Event>)
    requires Inv(s) && Accounted(s) && Run(s, events).Some? && (s.startup.TearingDown? ==> |s.seen| <= 1)
    ensures Inv(Run(s, events).value) && Accounted(Run(s, events).value)
    decreases |events|
  {
    if events != [] {
      StepKeepsHistory(s, events[0]);
      StepKeepsAccounts(s, events[0]);
      RunKeepsInv(Do(s, events[0]), events[1..]);
    }
  }

  /** What a serving iteration that saw these requests comes to. */
  ghost function Handed(requests: seq<Request>): Outcome {
    if requests == [] then EndedWithout else HandedOn(requests[|requests| - 1])
  }

  lemma HandedDiffers(seen: seq<Request>, recorded: seq<Request>)
    requires Distinct(recorded) && seen <= recorded
    ensures Handed(seen) == Handed(recorded) <==> seen == recorded
  {
    if |seen| < |recorded| && seen != [] {
      assert recorded[|seen| - 1] != recorded[|recorded| - 1];
    }
  }

  /**
    Whatever the interleaving: an iteration that served hands on the newest of
    all requests it ever recorded (and ends without one if there is none) if and
    only if none was recorded after it decided. A startup that was interrupted
    restarts from the only request recorded; any other failed startup names none.
   */
  lemma OutcomeIsNewest(events: seq<Event>)
    requires Run(INITIAL, events).Some? && Run(INITIAL, events).value.startup.Over?
    ensures var t := Run(INITIAL, events).value;
      if t.serving then
        && t.seen <= t.recorded && t.startup.outcome == Handed(t.seen)
        && (t.startup.outcome == Handed(t.recorded) <==> t.recorded == t.seen)
      else
        t.startup.outcome.StartFailed? || (t.startup.outcome.Interrupted? && t.recorded == [t.startup.outcome.reload])
  {
    RunKeepsInv(INITIAL, events);
    var t := Run(INITIAL, events).value;
    HandedDiffers(t.seen, t.recorded);
  }

  /** One that arrives once the iteration has handed on: it is recorded, and goes nowhere. */
  lemma LateRequestIsDropped(r: Request, q: Request)
    requires r.usable && q.usable && r != q
    ensures var events := [ChecksContext, MarksServing] + [Delivered(r), Records] + [Signals, Decides]
                          + [TakesReload, Delivered(q)] + [Records];
      && Run(INITIAL, events).Some?
      && var t := Run(INITIAL, events).value;
         t.startup == Over(HandedOn(r)) && t.recorded == [r, q] && t.reload == Some(q)
  {
    var serving := INITIAL.(startup := Awaiting, serving := true);
    var recorded := serving.(observer := Recorded, reload := Some(r), recorded := [r]);
    var signalled := recorded.(observer := Watching, ready := true);
    var handed := signalled.(startup := Over(HandedOn(r)), seen := [r], observer := Received(q));
    TwoSteps(INITIAL, ChecksContext, MarksServing);
    assert [] + [r] == [r];
    TwoMore(INITIAL, [ChecksContext, MarksServing], serving, Delivered(r), Records);
    TwoMore(INITIAL, [ChecksContext, MarksServing] + [Delivered(r), Records], recorded, Signals, Decides);
    var three := [ChecksContext, MarksServing] + [Delivered(r), Records] + [Signals, Decides];
    TwoMore(INITIAL, three, signalled, TakesReload, Delivered(q));
    RunConcat(INITIAL, three + [TakesReload, Delivered(q)], [Records]);
    assert [r] + [q] == [r, q];
  }

  lemma TwoSteps(s: State, a: Event, b: Event)
    requires Enabled(s, a) && Enabled(Do(s, a), b)
    ensures Run(s, [a, b]) == Some(Do(Do(s, a), b))
  {
    assert [a, b][1..] == [b] && [b][1..] == [];
    assert Run(Do(s, a), [b]) == Some(Do(Do(s, a), b));
  }

  lemma TwoMore(s: State, before: seq<Event>, t: State, a: Event, b: Event)
    requires Run(s, before) == Some(t) && Enabled(t, a) && Enabled(Do(t, a), b)
    ensures Run(s, before + [a, b]) == Some(Do(Do(t, a), b))
  {
    RunConcat(s, before, [a, b]);
    TwoSteps(t, a, b);
  }

  lemma {:induction false} RunConcat(s: State, a: seq<Event>, b: seq<Event>)
    requires Run(s, a).Some?
    ensures Run(s, a + b) == Run(Run(s, a).value, b)
    decreases |a|
  {
    if a == [] {
      assert a + b == b;
    } else {
      assert (a + b)[0] == a[0] && (a + b)[1..] == a[1..] + b;
      RunConcat(Do(s, a[0]), a[1..], b);
    }
  }

  // ----- when a reload interrupts a startup

  lemma {:induction false} RunInit(s: State, events: seq<Event>)
    requires events != [] && Run(s, events).Some?
    ensures var init, last := events[..|events| - 1], events[|events| - 1];
      && Run(s, init).Some? && Enabled(Run(s, init).value, last)
      && Run(s, events) == Some(Do(Run(s, init).value, last))
    decreases |events|
  {
    if |events| > 1 {
      RunInit(Do(s, events[0]), events[1..]);
      assert events[..|events| - 1][1..] == events[1..][..|events| - 2];
    } else {
      assert events[1..] == [];
    }
  }

  /** The context's cause after this step, if it was still alive. */
  function EndOf(event: Event): Cause {
    match event
    case ProcessStops => Cancelled
    case Decides => Cancelled
    case ComponentFails => ComponentFailed
    case _ => Alive
  }

  function CauseOf(events: seq<Event>): Cause {
    if events == [] then Alive
    else
      var n := |events| - 1;
      if CauseOf(events[..n]).Alive? then EndOf(events[n]) else CauseOf(events[..n])
  }

  /** The first step that ends the context of a startup cancels it. */
  ghost predicate CancelledFirst(events: seq<Event>) {
    exists k :: 0 <= k < |events| && EndOf(events[k]).Cancelled? && forall i :: 0 <= i < k ==> EndOf(events[i]).Alive?
  }

  lemma {:induction false} CauseOfFirst(events: seq<Event>)
    ensures CauseOf(events).Alive? <==> forall i :: 0 <= i < |events| ==> EndOf(events[i]).Alive?
    ensures CauseOf(events).Cancelled? <==> CancelledFirst(events)
  {
    if events != [] {
      var n := |events| - 1;
      var init := events[..n];
      CauseOfFirst(init);
      assert forall i :: 0 <= i < n ==> init[i] == events[i];
      if CancelledFirst(init) {
        var k :| 0 <= k < n && EndOf(init[k]).Cancelled? && forall i :: 0 <= i < k ==> EndOf(init[i]).Alive?;
        assert EndOf(events[k]).Cancelled?;
      }
      if CancelledFirst(events) {
        var k :| 0 <= k <= n && EndOf(events[k]).Cancelled? && forall i :: 0 <= i < k ==> EndOf(events[i]).Alive?;
        assert k < n ==> EndOf(init[k]).Cancelled?;
      }
    }
  }

  predicate UsableDelivery(event: Event) { event.Delivered? && event.request.usable }

  /** A usable request is delivered and recorded before position `k`. */
  ghost predicate RecordedBefore(events: seq<Event>, k: int) {
    exists i, j :: 0 <= i < j < k <= |events| && UsableDelivery(events[i]) && events[j].Records?
  }

  /** It is recorded by the time the failing startup reads the latest one. */
  ghost predicate RecordedInTime(events: seq<Event>) {
    exists k :: 0 <= k < |events| && events[k].ReadsLatest? && RecordedBefore(events, k)
  }

  ghost predicate Delivery(events: seq<Event>) { exists i :: 0 <= i < |events| && UsableDelivery(events[i]) }

  ghost predicate Starting(s: State) {
    s.startup.Loading? || s.startup.FoundAlive? || s.startup.Failing? || s.startup.TearingDown?
  }

  ghost function FailureOf(startup: Startup): Option<Failure> {
    if startup.Failing? || startup.TearingDown? then Some(startup.failure) else None
  }

  /** What the observer has, told from the steps so far. */
  ghost predicate ObserverKnows(s: State, events: seq<Event>) {
    && (s.observer.Received? && s.observer.request.usable ==> Delivery(events))
    && (Delivery(events) ==> (s.observer.Received? && s.observer.request.usable) || s.recorded != [])
    && (s.recorded != [] <==> RecordedBefore(events, |events|))
  }

  ghost predicate StartupKnows(s: State, events: seq<Event>) {
    && s.context == CauseOf(events)
    && (FailureOf(s.startup) == Some(Otherwise) ==> StartupFails(Otherwise) in events || s.context.ComponentFailed?)
    && (FailureOf(s.startup) != Some(Otherwise) ==> StartupFails(Otherwise) !in events)
    && (if s.startup.TearingDown? then s.seen != [] <==> RecordedInTime(events)
        else forall i :: 0 <= i < |events| ==> !events[i].ReadsLatest?)
  }

  lemma RecordedGrows(events: seq<Event>, e: Event)
    ensures RecordedBefore(events + [e], |events| + 1) <==>
      RecordedBefore(events, |events|) || (e.Records? && Delivery(events))
    ensures Delivery(events + [e]) <==> Delivery(events) || UsableDelivery(e)
  {
    var more, n := events + [e], |events|;
    assert more[n] == e && forall i :: 0 <= i < n ==> more[i] == events[i];
    if RecordedBefore(more, n + 1) {
      var i, j :| 0 <= i < j < n + 1 && UsableDelivery(more[i]) && more[j].Records?;
      assert UsableDelivery(events[i]);
      assert j < n ==> events[j].Records?;
    }
    if RecordedBefore(events, n) {
      var i, j :| 0 <= i < j < n && UsableDelivery(events[i]) && events[j].Records?;
      assert UsableDelivery(more[i]) && more[j].Records?;
    }
    if Delivery(events) {
      var i :| 0 <= i < n && UsableDelivery(events[i]);
      assert UsableDelivery(more[i]);
      assert e.Records? ==> more[n].Records?;
    }
    if UsableDelivery(e) { assert UsableDelivery(more[n]); }
  }

  lemma InTimeGrows(events: seq<Event>, e: Event)
    ensures RecordedInTime(events + [e])
      <==> RecordedInTime(events) || (e.ReadsLatest? && RecordedBefore(events, |events|))
  {
    var more, n := events + [e], |events|;
    assert more[n] == e && forall i :: 0 <= i < n ==> more[i] == events[i];
    forall k | 0 <= k <= n ensures RecordedBefore(more, k) <==> RecordedBefore(events, k) {
      SamePrefix(events, more, k);
    }
    if RecordedInTime(more) {
      var k :| 0 <= k <= n && more[k].ReadsLatest? && RecordedBefore(more, k);
      assert k < n ==> events[k].ReadsLatest? && RecordedBefore(events, k);
    }
    if RecordedInTime(events) {
      var k :| 0 <= k < n && events[k].ReadsLatest? && RecordedBefore(events, k);
      assert more[k].ReadsLatest? && RecordedBefore(more, k);
    }
    if e.ReadsLatest? { assert more[n].ReadsLatest?; }
  }

  lemma SamePrefix(a: seq<Event>, b: seq<Event>, k: nat)
    requires k <= |a| && k <= |b| && forall i :: 0 <= i < k ==> a[i] == b[i]
    ensures RecordedBefore(a, k) <==> RecordedBefore(b, k)
  {
    if RecordedBefore(a, k) {
      var i, j :| 0 <= i < j < k && UsableDelivery(a[i]) && a[j].Records?;
      assert UsableDelivery(b[i]) && b[j].Records?;
    }
    if RecordedBefore(b, k) {
      var i, j :| 0 <= i < j < k && UsableDelivery(b[i]) && b[j].Records?;
      assert UsableDelivery(a[i]) && a[j].Records?;
    }
  }

  lemma ObserverStep(s: State, events: seq<Event>, e: Event)
    requires Inv(s) && Starting(s) && ObserverKnows(s, events) && Enabled(s, e)
    ensures ObserverKnows(Do(s, e), events + [e])
  {
    RecordedGrows(events, e);
  }

  lemma StartupStep(s: State, events: seq<Event>, e: Event)
    requires Inv(s) && Starting(s) && StartupKnows(s, events) && ObserverKnows(s, events)
    requires Enabled(s, e) && Starting(Do(s, e))
    ensures StartupKnows(Do(s, e), events + [e])
  {
    var more := events + [e];
    assert more[..|events|] == events;
    InTimeGrows(events, e);
    assert forall x :: x in more <==> x in events || x == e;
  }

  lemma {:induction false} HistoryKnown(events: seq<Event>)
    requires Run(INITIAL, events).Some? && Starting(Run(INITIAL, events).value)
    ensures var s := Run(INITIAL, events).value; ObserverKnows(s, events) && StartupKnows(s, events)
  {
    if events != [] {
      var n := |events| - 1;
      RunInit(INITIAL, events);
      RunKeepsInv(INITIAL, events[..n]);
      HistoryKnown(events[..n]);
      var s := Run(INITIAL, events[..n]).value;
      assert events[..n] + [events[n]] == events;
      ObserverStep(s, events[..n], events[n]);
      StartupStep(s, events[..n], events[n]);
    }
  }

  /**
    Told from the steps that led to it: a failed startup restarts from a reload
    if and only if the first step that ended its context was a cancellation, no
    stage failed on its own account, a usable request was delivered and recorded
    before the failing startup read the latest one, and the teardown was clean.
    Otherwise the next start loads live state.
   */
  lemma InterruptionExact(events: seq<Event>, clean: bool)
    requires Run(INITIAL, events).Some? && Run(INITIAL, events).value.startup.TearingDown?
    ensures Do(Run(INITIAL, events).value, TearsDown(clean)).startup.outcome.Interrupted? <==>
      CancelledFirst(events) && StartupFails(Otherwise) !in events && RecordedInTime(events) && clean
  {
    RunKeepsInv(INITIAL, events);
    HistoryKnown(events);
    CauseOfFirst(events);
  }

  /** A reload recorded while the iteration serves always wakes the waiting iteration. */
  lemma ServedReloadIsTaken(events: seq<Event>)
    requires Run(INITIAL, events).Some?
    requires var s := Run(INITIAL, events).value; s.startup.Awaiting? && s.recorded != [] && !s.observer.Recorded?
    ensures var s := Run(INITIAL, events).value;
      Enabled(s, TakesReload) && Do(s, TakesReload).startup == Over(HandedOn(s.recorded[|s.recorded| - 1]))
  {
    RunKeepsInv(INITIAL, events);
  }

  /** A failure by cancellation, and an end without a reload, come from a context that has ended. */
  ghost predicate Caused(s: State) {
    && (s.startup.Failing? && s.startup.failure.ByCancellation? ==> !s.context.Alive?)
    && (s.startup.TearingDown? && s.startup.failure.ByCancellation? ==> !s.context.Alive?)
    && (s.startup == Over(EndedWithout) ==> !s.context.Alive?)
  }

  lemma {:induction false} RunIsCaused(s: State, events: seq<Event>)
    requires Inv(s) && Caused(s) && Run(s, events).Some?
    ensures Caused(Run(s, events).value)
    decreases |events|
  {
    if events != [] {
      StepKeepsHistory(s, events[0]);
      RunIsCaused(Do(s, events[0]), events[1..]);
    }
  }

  /**
    While its context is alive an iteration has its observer, fails only on its
    own account, and does not end its service without a reload to hand on.
   */
  lemma LiveContextKeepsServing(events: seq<Event>)
    requires Run(INITIAL, events).Some? && Run(INITIAL, events).value.context.Alive?
    ensures var t := Run(INITIAL, events).value;
      && !t.observer.Gone? && t.startup != Over(EndedWithout)
      && (t.startup.Failing? || t.startup.TearingDown? ==> t.startup.failure.Otherwise?)
  {
    RunKeepsInv(INITIAL, events);
    RunIsCaused(INITIAL, events);
  }

  /**
    The race the serving mark is there for: the observer cancelled a startup
    that got to serve all the same. Its reload is handed on, not lost.
   */
  lemma LateCancelStillHandsOn(events: seq<Event>)
    requires Run(INITIAL, events).Some?
    requires var s := Run(INITIAL, events).value; s.startup.Awaiting? && !s.context.Alive? && s.recorded != []
    ensures var s := Run(INITIAL, events).value;
      Do(s, SeesContextDone).startup == Over(HandedOn(s.recorded[|s.recorded| - 1]))
  {
    RunKeepsInv(INITIAL, events);
  }
}
