/**
  One iteration's leadership at the granularity of its atomic steps. Three
  parties interleave: the election loop (acquire, lose, stop the term, start
  over), the callback that starts the term's components under a mutex, and the
  hand-over or teardown that ends the iteration's leadership for good.
 */
module LeaderTerms {
  import opened Common

  /** The election loop; `Waiting` holds the components it took and stops. */
  datatype Election = Acquiring | Leading | Clearing | Taking | Waiting(taken: Option<nat>) | Ended

  /** The start callback; it holds the mutex while `Checked` or `Started`. */
  datatype Starter = NoStarter | AtLock | Checked | Started(ok: bool)

  /** Retirement, then the latching cancel; teardown is the cancel alone. */
  datatype Closing =
    | Open
    | RetireMark | RetireCancel | RetireAwait | StopClear | StopTake | StopWait(stopping: Option<nat>)
    | CancelLatch | CancelClear | CancelTake | CancelStop(cancelling: Option<nat>)
    | Closed

  datatype State = State(
    elects: bool,
    election: Election,
    electionCancelled: bool,
    starter: Starter,
    closing: Closing,
    components: Option<nat>,
    stopped: bool,
    retiring: bool,
    leading: bool,
    running: set<nat>,   // component runs started and not yet stopped
    lingering: Option<nat>,   // a component run that was cancelled, without waiting for its end
    runs: nat,           // component runs ever started
    retired: bool)       // a retirement ran to its end

  /**
    With leader election, no term yet. Without, the components were started, with or
    without success, and there is no loop.
   */
  function Initial(elects: bool, ok: bool): State {
    if elects then State(elects, Acquiring, false, NoStarter, Open, None, false, false, false, {}, None, 0, false)
    else State(elects, Ended, true, NoStarter, Open, Some(0), false, false, ok, {0}, None, 1, false)
  }

  datatype Event =
    | Acquired | AttemptEnded | ElectionClears | ElectionTakes | ElectionStops
    | StarterLocks | StarterStarts(ok: bool) | StarterPublishes
    | RetireBegins | RetireMarks | RetireCancels | RetireAwaits | StopClears | StopTakes | StopWaits
    | TeardownBegins | CancelLatches | CancelClears | CancelTakes | CancelStops | CancelledEnd

  predicate MutexFree(s: State) { !s.starter.Checked? && !s.starter.Started? }

  /** When an atomic step can be taken. */
  predicate Enabled(s: State, event: Event) {
    match event
    case Acquired => s.election.Acquiring? && !s.electionCancelled
    // The term is lost, or the attempt is cancelled: with the loop, or to stand down.
    case AttemptEnded => s.election.Leading? || s.election.Acquiring?
    case ElectionClears => s.election.Clearing?
    case ElectionTakes => s.election.Taking? && MutexFree(s)
    case ElectionStops => s.election.Waiting?
    case StarterLocks => s.starter.AtLock?
    case StarterStarts(_) => s.starter.Checked?
    case StarterPublishes => s.starter.Started?
    case RetireBegins => s.closing.Open?
    case RetireMarks => s.closing.RetireMark? && MutexFree(s)
    case RetireCancels => s.closing.RetireCancel?
    case RetireAwaits => s.closing.RetireAwait? && s.election.Ended?
    case StopClears => s.closing.StopClear?
    case StopTakes => s.closing.StopTake? && MutexFree(s)
    case StopWaits => s.closing.StopWait?
    case TeardownBegins => s.closing.Open? || s.closing.Closed?
    case CancelLatches => s.closing.CancelLatch? && MutexFree(s)
    case CancelClears => s.closing.CancelClear?
    case CancelTakes => s.closing.CancelTake? && MutexFree(s)
    case CancelStops => s.closing.CancelStop?
    case CancelledEnd => s.lingering.Some?
  }

  function Without(running: set<nat>, run: Option<nat>): set<nat> {
    match run
    case Some(r) => running - {r}
    case None => running
  }

  function Do(s: State, event: Event): State
    requires Enabled(s, event)
  {
    match event
    case Acquired => s.(election := Leading, starter := AtLock)
    // The attempt's context ends first; a starter still waiting for the mutex then starts nothing.
    case AttemptEnded => s.(election := Clearing, starter := if s.starter.AtLock? then NoStarter else s.starter)
    case ElectionClears => s.(election := Taking, leading := false)
    case ElectionTakes => s.(election := Waiting(s.components), components := None)
    case ElectionStops =>
      s.(running := Without(s.running, s.election.taken), election := if s.electionCancelled then Ended else Acquiring)
    case StarterLocks => s.(starter := if s.stopped then NoStarter else Checked)
    case StarterStarts(ok) =>
      s.(starter := Started(ok), components := Some(s.runs), running := s.running + {s.runs}, runs := s.runs + 1)
    case StarterPublishes => s.(starter := NoStarter, leading := s.starter.ok)
    case RetireBegins => s.(closing := RetireMark, leading := false)
    case RetireMarks => s.(closing := RetireCancel, retiring := true)
    case RetireCancels => s.(closing := RetireAwait, electionCancelled := true)
    case RetireAwaits => s.(closing := StopClear)
    case StopClears => s.(closing := StopTake, leading := false)
    case StopTakes => s.(closing := StopWait(s.components), components := None)
    case StopWaits => s.(running := Without(s.running, s.closing.stopping), closing := CancelLatch, retired := true)
    case TeardownBegins => s.(closing := CancelLatch, electionCancelled := true)
    case CancelLatches => s.(closing := CancelClear, stopped := true)
    case CancelClears => s.(closing := CancelTake, leading := false)
    case CancelTakes => s.(closing := CancelStop(s.components), components := None)
    case CancelStops =>
      s.(lingering := if s.closing.cancelling.Some? then s.closing.cancelling else s.lingering, closing := Closed)
    case CancelledEnd => s.(running := Without(s.running, s.lingering), lingering := None)
  }

  /** The state after a sequence of steps, each enabled in its turn. */
  function Run(s: State, events: seq<Event>): Option<State>
    decreases |events|
  {
    if events == [] then Some(s)
    else if Enabled(s, events[0]) then Run(Do(s, events[0]), events[1..])
    else None
  }

  // ----- what every interleaving keeps

  ghost function Owned(run: Option<nat>): set<nat> {
    match run
    case Some(r) => {r}
    case None => {}
  }

  /** Components the election loop took and has not stopped yet. */
  ghost function TakenByElection(s: State): Option<nat> { if s.election.Waiting? then s.election.taken else None }

  /** Components the hand-over or teardown took and has not stopped yet. */
  ghost function TakenByClosing(s: State): Option<nat> {
    if s.closing.StopWait? then s.closing.stopping
    else if s.closing.CancelStop? then s.closing.cancelling
    else None
  }

  ghost predicate PhasesAgree(s: State) {
    && (s.starter.AtLock? ==> s.election.Leading?)
    && (!MutexFree(s) ==> (s.election.Leading? || s.election.Clearing? || s.election.Taking?) && !s.stopped)
    && (s.components.Some? && s.elects ==> s.election.Leading? || s.election.Clearing? || s.election.Taking?)
    && (!s.elects ==> s.election.Ended? && s.starter.NoStarter?)
    && (s.starter.AtLock? || s.starter.Checked? ==> s.components.None? && TakenByClosing(s).None?)
    && (s.closing.StopClear? || s.closing.StopTake? || s.closing.StopWait? ==> s.election.Ended?)
    && (s.election.Ended? ==> s.electionCancelled)
    && (s.retired ==> s.election.Ended?)
    && (s.closing.Open? || s.closing.RetireMark? || s.closing.RetireCancel? || s.electionCancelled)
  }

  /** Every running component run has exactly one owner, and there is at most one. */
  ghost predicate OneOwner(s: State) {
    && s.running == Owned(s.components) + Owned(TakenByElection(s)) + Owned(TakenByClosing(s)) + Owned(s.lingering)
    && (s.components.Some? ==> TakenByElection(s).None? && TakenByClosing(s).None? && s.lingering.None?)
    && (TakenByElection(s).Some? ==> TakenByClosing(s).None? && s.lingering.None?)
    && (TakenByClosing(s).Some? ==> s.lingering.None?)
    && (forall r :: r in s.running ==> r < s.runs)
  }

  /** Once the cancel cleared the flag, the flag and the components stay cleared. */
  ghost predicate Latched(s: State) {
    && (s.closing.CancelClear? || s.closing.CancelTake? || s.closing.CancelStop? || s.closing.Closed? ==> s.stopped)
    && (s.closing.CancelTake? || s.closing.CancelStop? || s.closing.Closed? ==> !s.leading)
    && (s.closing.CancelStop? || s.closing.Closed? ==> s.components.None?)
    && (s.lingering.Some? ==> s.stopped && s.components.None?)
    && (s.closing.StopWait? ==> s.components.None?)
    && (s.lingering.Some? ==>
        || s.closing.Closed? || s.closing.CancelLatch? || s.closing.CancelClear?
        || s.closing.CancelTake? || s.closing.CancelStop?)
    && (s.retired ==> s.components.None? && s.lingering.None? && TakenByClosing(s).None?)
  }

  ghost predicate Inv(s: State) { PhasesAgree(s) && OneOwner(s) && Latched(s) }

  lemma ElectionKeepsInv(s: State, event: Event)
    requires Inv(s) && Enabled(s, event)
    requires event.Acquired? || event.AttemptEnded? || event.ElectionClears? || event.ElectionTakes?
      || event.ElectionStops?
    ensures Inv(Do(s, event))
  {
  }

  lemma StarterKeepsInv(s: State, event: Event)
    requires Inv(s) && Enabled(s, event)
    requires event.StarterLocks? || event.StarterStarts? || event.StarterPublishes?
    ensures Inv(Do(s, event))
  {
  }

  lemma RetireKeepsInv(s: State, event: Event)
    requires Inv(s) && Enabled(s, event)
    requires event.RetireBegins? || event.RetireMarks? || event.RetireCancels? || event.RetireAwaits?
    ensures Inv(Do(s, event))
  {
  }

  lemma StopKeepsInv(s: State, event: Event)
    requires Inv(s) && Enabled(s, event) && (event.StopClears? || event.StopTakes? || event.StopWaits?)
    ensures Inv(Do(s, event))
  {
  }

  lemma CancelKeepsInv(s: State, event: Event)
    requires Inv(s) && Enabled(s, event)
    requires event.TeardownBegins? || event.CancelLatches? || event.CancelClears? || event.CancelTakes?
      || event.CancelStops? || event.CancelledEnd?
    ensures Inv(Do(s, event))
  {
  }

  lemma StepKeepsInv(s: State, event: Event)
    requires Inv(s) && Enabled(s, event)
    ensures Inv(Do(s, event))
  {
    match event
    case Acquired | AttemptEnded | ElectionClears | ElectionTakes | ElectionStops => ElectionKeepsInv(s, event);
    case StarterLocks | StarterStarts(_) | StarterPublishes => StarterKeepsInv(s, event);
    case RetireBegins | RetireMarks | RetireCancels | RetireAwaits => RetireKeepsInv(s, event);
    case StopClears | StopTakes | StopWaits => StopKeepsInv(s, event);
    case _ => CancelKeepsInv(s, event);
  }

  lemma {:induction false} RunKeepsInv(s: State, events: seq<Event>)
    requires Inv(s) && Run(s, events).Some?
    ensures Inv(Run(s, events).value)
    decreases |events|
  {
    if events != [] {
      StepKeepsInv(s, events[0]);
      RunKeepsInv(Do(s, events[0]), events[1..]);
    }
  }

  /** Under every interleaving, with and without election, at most one set of leader-only components runs. */
  lemma AtMostOneTerm(elects: bool, ok: bool, events: seq<Event>)
    requires Run(Initial(elects, ok), events).Some?
    ensures var t := Run(Initial(elects, ok), events).value; forall r, q :: r in t.running && q in t.running ==> r == q
  {
    RunKeepsInv(Initial(elects, ok), events);
  }

  // ----- no interleaving is stuck

  /** A step towards the end of a retirement or teardown: whoever holds the mutex first, then the loop, then itself. */
  function Helpful(s: State): Event {
    if s.starter.Checked? then StarterStarts(true)
    else if s.starter.Started? then StarterPublishes
    else match s.closing
      case RetireMark => RetireMarks
      case RetireCancel => RetireCancels
      case RetireAwait =>
        (match s.election
         case Acquiring | Leading => AttemptEnded
         case Clearing => ElectionClears
         case Taking => ElectionTakes
         case Waiting(_) => ElectionStops
         case Ended => RetireAwaits)
      case StopClear => StopClears
      case StopTake => StopTakes
      case StopWait(_) => StopWaits
      case CancelLatch => CancelLatches
      case CancelClear => CancelClears
      case CancelTake => CancelTakes
      case CancelStop(_) => CancelStops
      case Open | Closed => TeardownBegins
  }

  ghost function ClosingLeft(closing: Closing): nat {
    match closing
    case Open => 12
    case RetireMark => 11
    case RetireCancel => 10
    case RetireAwait => 9
    case StopClear => 8
    case StopTake => 7
    case StopWait(_) => 6
    case CancelLatch => 5
    case CancelClear => 4
    case CancelTake => 3
    case CancelStop(_) => 2
    case Closed => 0
  }

  ghost function ElectionLeft(election: Election): nat {
    match election
    case Acquiring => 5
    case Leading => 5
    case Clearing => 4
    case Taking => 3
    case Waiting(_) => 2
    case Ended => 0
  }

  ghost function StarterLeft(starter: Starter): nat {
    if starter.Checked? then 2 else if starter.Started? then 1 else 0
  }

  /** How many steps are left at most. */
  ghost function Left(s: State): nat {
    100 * ClosingLeft(s.closing) + 10 * ElectionLeft(s.election) + StarterLeft(s.starter)
  }

  ghost predicate Helps(s: State) { Enabled(s, Helpful(s)) && Left(Do(s, Helpful(s))) < Left(s) }

  lemma StarterHelps(s: State)
    requires !MutexFree(s)
    ensures Helps(s)
  {
  }

  lemma ElectionHelps(s: State)
    requires Inv(s) && MutexFree(s) && s.closing.RetireAwait?
    ensures Helps(s)
  {
  }

  lemma RetireHelps(s: State)
    requires MutexFree(s) && (s.closing.Open? || s.closing.RetireMark? || s.closing.RetireCancel?)
    ensures Helps(s)
  {
  }

  lemma StopHelps(s: State)
    requires MutexFree(s) && (s.closing.StopClear? || s.closing.StopTake? || s.closing.StopWait?)
    ensures Helps(s)
  {
  }

  lemma CancelHelps(s: State)
    requires MutexFree(s)
    requires s.closing.CancelLatch? || s.closing.CancelClear? || s.closing.CancelTake? || s.closing.CancelStop?
    ensures Helps(s)
  {
  }

  lemma HelpfulHelps(s: State)
    requires Inv(s) && !s.closing.Closed?
    ensures Helps(s)
  {
    if !MutexFree(s) {
      StarterHelps(s);
    } else if s.closing.RetireAwait? {
      ElectionHelps(s);
    } else if s.closing.Open? || s.closing.RetireMark? || s.closing.RetireCancel? {
      RetireHelps(s);
    } else if s.closing.StopClear? || s.closing.StopTake? || s.closing.StopWait? {
      StopHelps(s);
    } else {
      CancelHelps(s);
    }
  }

  /**
    Whatever happened, the iteration's leadership can be ended: steps that are
    possible lead to a finished teardown, with the latch set, the flag down and
    no components.
   */
  lemma {:induction false} ClosingCanFinish(s: State) returns (events: seq<Event>)
    requires Inv(s)
    ensures Run(s, events).Some?
    ensures var t := Run(s, events).value; t.closing.Closed? && t.stopped && !t.leading && t.components.None?
    decreases Left(s)
  {
    if s.closing.Closed? {
      events := [];
    } else {
      HelpfulHelps(s);
      StepKeepsInv(s, Helpful(s));
      var rest := ClosingCanFinish(Do(s, Helpful(s)));
      events := [Helpful(s)] + rest;
      assert events[1..] == rest;
    }
  }

  lemma TeardownCanFinish(elects: bool, ok: bool, before: seq<Event>) returns (after: seq<Event>)
    requires Run(Initial(elects, ok), before).Some?
    ensures var s := Run(Initial(elects, ok), before).value;
      && Run(s, after).Some?
      && var t := Run(s, after).value; t.closing.Closed? && t.stopped && !t.leading && t.components.None?
  {
    RunKeepsInv(Initial(elects, ok), before);
    after := ClosingCanFinish(Run(Initial(elects, ok), before).value);
  }

  // ----- no term starts after the cancel

  /** What can still change once the latch is set: things end, nothing begins. */
  ghost predicate OnlyEnds(s: State, t: State) {
    && t.stopped && t.runs == s.runs && t.running <= s.running
    && (t.leading ==> s.leading) && (t.components.Some? ==> t.components == s.components)
  }

  lemma LatchedStep(s: State, event: Event)
    requires Inv(s) && s.stopped && Enabled(s, event)
    ensures OnlyEnds(s, Do(s, event))
  {
  }

  lemma {:induction false} LatchedRun(s: State, events: seq<Event>)
    requires Inv(s) && s.stopped && Run(s, events).Some?
    ensures OnlyEnds(s, Run(s, events).value)
    decreases |events|
  {
    if events != [] {
      StepKeepsInv(s, events[0]);
      LatchedStep(s, events[0]);
      LatchedRun(Do(s, events[0]), events[1..]);
    }
  }

  /**
    Once a cancel has set the latch, whatever steps follow: no component run
    starts, the flag does not come up, and no components appear. After the
    cancel ran to its end the flag is down and there are no components, for good.
   */
  lemma NoTermAfterCancel(elects: bool, ok: bool, before: seq<Event>, after: seq<Event>)
    requires Run(Initial(elects, ok), before).Some? && Run(Initial(elects, ok), before).value.stopped
    requires Run(Run(Initial(elects, ok), before).value, after).Some?
    ensures var s := Run(Initial(elects, ok), before).value;
      var t := Run(s, after).value;
      OnlyEnds(s, t) && (s.closing.Closed? ==> !t.leading && t.components.None?)
  {
    RunKeepsInv(Initial(elects, ok), before);
    LatchedRun(Run(Initial(elects, ok), before).value, after);
  }

  /** After a retirement the term is not only cancelled but gone: the successor may start its own. */
  lemma RetirementEndsTheTerm(elects: bool, ok: bool, before: seq<Event>, after: seq<Event>)
    requires Run(Initial(elects, ok), before).Some?
    requires var s := Run(Initial(elects, ok), before).value; s.retired && s.closing.Closed? && Run(s, after).Some?
    ensures Run(Run(Initial(elects, ok), before).value, after).value.running == {}
  {
    RunKeepsInv(Initial(elects, ok), before);
    LatchedRun(Run(Initial(elects, ok), before).value, after);
  }

  // ----- the leading flag between terms

  predicate Clears(event: Event) {
    event.ElectionClears? || event.RetireBegins? || event.StopClears? || event.CancelClears?
  }

  /** No new attempt begins or ends. */
  ghost predicate SameStop(events: seq<Event>) {
    forall i :: 0 <= i < |events| ==> !events[i].Acquired? && !events[i].AttemptEnded?
  }

  /** A start that holds the mutex succeeds and publishes at step `k`. */
  ghost predicate PublishesAt(starter: Starter, events: seq<Event>, k: int) {
    && 0 <= k < |events| && events[k].StarterPublishes?
    && (starter == Started(true) || (starter.Checked? && StarterStarts(true) in events[..k]))
  }

  ghost predicate NoClearFrom(events: seq<Event>, k: int) {
    0 <= k && forall i :: k <= i < |events| ==> !Clears(events[i])
  }

  /** A start that was in progress succeeds, and nothing clears the flag after it published. */
  ghost predicate StartSurvives(starter: Starter, events: seq<Event>) {
    exists k :: PublishesAt(starter, events, k) && NoClearFrom(events, k + 1)
  }

  ghost predicate FlagUntouched(events: seq<Event>) {
    forall i :: 0 <= i < |events| ==> !Clears(events[i]) && !events[i].StarterPublishes?
  }

  /** Between attempts: only the start in progress goes on. */
  ghost predicate Quiet(s: State) { Inv(s) && !s.election.Leading? && !s.election.Clearing? }

  /** What a step between attempts does to the start and to the flag. */
  lemma QuietStep(s: State, event: Event)
    requires Quiet(s) && Enabled(s, event) && !event.Acquired? && !event.AttemptEnded?
    ensures var t := Do(s, event);
      && Quiet(t)
      && (event.StarterStarts? ==> s.starter.Checked? && t.starter == Started(event.ok))
      && (event.StarterPublishes? ==> s.starter.Started? && t.starter.NoStarter? && t.leading == s.starter.ok)
      && (!event.StarterStarts? && !event.StarterPublishes? ==> t.starter == s.starter)
      && (!event.StarterPublishes? ==> t.leading == (s.leading && !Clears(event)))
  {
    StepKeepsInv(s, event);
  }

  /** A start is made and published at most once. */
  lemma {:induction false} OneStart(s: State, events: seq<Event>)
    requires Quiet(s) && SameStop(events) && Run(s, events).Some?
    ensures !s.starter.Checked? ==> forall e :: e in events ==> !e.StarterStarts?
    ensures s.starter.NoStarter? ==> forall e :: e in events ==> !e.StarterPublishes?
    decreases |events|
  {
    if events != [] {
      QuietStep(s, events[0]);
      OneStart(Do(s, events[0]), events[1..]);
      assert events == [events[0]] + events[1..];
    }
  }

  lemma UntouchedStep(events: seq<Event>)
    requires events != []
    ensures FlagUntouched(events) <==> !Clears(events[0]) && !events[0].StarterPublishes? && FlagUntouched(events[1..])
  {
    assert forall i :: 0 < i < |events| ==> events[i] == events[1..][i - 1];
  }

  /** A step that neither starts nor publishes only shifts the rest. */
  lemma SurvivesLater(a: Starter, b: Starter, events: seq<Event>)
    requires events != [] && !events[0].StarterPublishes?
    requires if events[0].StarterStarts? then
      a.Checked? && b == Started(events[0].ok) && (forall e :: e in events[1..] ==> !e.StarterStarts?)
             else a == b
    ensures StartSurvives(a, events) <==> StartSurvives(b, events[1..])
  {
    var rest := events[1..];
    forall k | 0 <= k < |rest| ensures PublishesAt(a, events, k + 1) <==> PublishesAt(b, rest, k) {
      assert events[..k + 1] == [events[0]] + rest[..k];
      assert forall e :: e in rest[..k] ==> e in rest;
    }
    if StartSurvives(a, events) {
      var k :| PublishesAt(a, events, k) && NoClearFrom(events, k + 1);
      assert PublishesAt(b, rest, k - 1) && NoClearFrom(rest, k);
    }
    if StartSurvives(b, rest) {
      var k :| PublishesAt(b, rest, k) && NoClearFrom(rest, k + 1);
      assert forall i :: k + 2 <= i < |events| ==> events[i] == rest[i - 1];
      assert PublishesAt(a, events, k + 1) && NoClearFrom(events, k + 2);
    }
  }

  lemma SurvivesNow(a: Starter, events: seq<Event>)
    requires events != [] && events[0].StarterPublishes? && a.Started?
    requires forall e :: e in events[1..] ==> !e.StarterPublishes?
    ensures StartSurvives(a, events) <==> a.ok && FlagUntouched(events[1..])
    ensures !StartSurvives(NoStarter, events[1..])
  {
    var rest := events[1..];
    assert forall i :: 0 <= i < |rest| ==> rest[i] == events[i + 1] && rest[i] in rest;
    assert forall i :: 0 < i < |events| ==> events[i] == rest[i - 1];
    assert PublishesAt(a, events, 0) <==> a.ok;
    assert NoClearFrom(events, 1) <==> FlagUntouched(rest);
  }

  lemma {:induction false} FlagFate(s: State, events: seq<Event>)
    requires Quiet(s) && SameStop(events) && Run(s, events).Some?
    ensures Run(s, events).value.leading <==> StartSurvives(s.starter, events) || (s.leading && FlagUntouched(events))
    decreases |events|
  {
    if events != [] {
      var t, rest := Do(s, events[0]), events[1..];
      QuietStep(s, events[0]);
      OneStart(t, rest);
      FlagFate(t, rest);
      UntouchedStep(events);
      if events[0].StarterPublishes? {
        SurvivesNow(s.starter, events);
      } else {
        SurvivesLater(s.starter, t.starter, events);
      }
    }
  }

  /**
    From the moment a stop clears the flag until the next attempt, whatever else
    goes on: the flag is up if and only if a start that was holding the mutex
    has succeeded and nothing cleared the flag after it.
   */
  lemma FlagAfterStopExact(elects: bool, ok: bool, before: seq<Event>, stop: seq<Event>)
    requires Run(Initial(elects, ok), before).Some? && Run(Initial(elects, ok), before).value.election.Clearing?
    requires SameStop(stop) && Run(Do(Run(Initial(elects, ok), before).value, ElectionClears), stop).Some?
    ensures var s := Do(Run(Initial(elects, ok), before).value, ElectionClears);
      Run(s, stop).value.leading <==> StartSurvives(s.starter, stop)
  {
    RunKeepsInv(Initial(elects, ok), before);
    StepKeepsInv(Run(Initial(elects, ok), before).value, ElectionClears);
    FlagFate(Do(Run(Initial(elects, ok), before).value, ElectionClears), stop);
  }

  lemma {:induction false} RunConcat(s: State, a: seq<Event>, b: seq<Event>)
    requires Run(s, a).Some?
    ensures Run(s, a + b) == Run(Run(s, a).value, b)
    decreases |a|
  {
    if a == [] {
      assert a + b == b;
    } else {
      assert (a + b)[0] == a[0] && (a + b)[1..] == a[1..] + b;
      RunConcat(Do(s, a[0]), a[1..], b);
    }
  }

  lemma TwoSteps(s: State, a: Event, b: Event, t: State)
    requires Enabled(s, a) && Enabled(Do(s, a), b) && Do(Do(s, a), b) == t
    ensures Run(s, [a, b]) == Some(t)
  {
    assert [a, b][1..] == [b] && [b][1..] == [];
    assert Run(Do(s, a), [b]) == Some(t);
  }

  /** Such an interleaving exists: the flag stays up after the term is gone. */
  lemma FlagCanOutliveItsTerm(ok: bool)
    ensures var events := [Acquired, StarterLocks] + ([AttemptEnded, ElectionClears]
                          + ([StarterStarts(true), StarterPublishes] + [ElectionTakes, ElectionStops]));
      && Run(Initial(true, ok), events).Some?
      && var t := Run(Initial(true, ok), events).value;
         t.leading && t.components.None? && t.running == {} && t.election.Acquiring? && t.starter.NoStarter?
  {
    var start := Initial(true, ok);
    var checked := start.(election := Leading, starter := Checked);
    var cleared := checked.(election := Taking);
    var published := cleared.(starter := NoStarter, leading := true, components := Some(0), running := {0}, runs := 1);
    var gone := published.(election := Acquiring, components := None, running := {});
    var last := [ElectionTakes, ElectionStops];
    assert {} + {0} == {0 as nat} && {0 as nat} - {0} == {};
    TwoSteps(start, Acquired, StarterLocks, checked);
    TwoSteps(checked, AttemptEnded, ElectionClears, cleared);
    TwoSteps(cleared, StarterStarts(true), StarterPublishes, published);
    TwoSteps(published, ElectionTakes, ElectionStops, gone);
    RunConcat(cleared, [StarterStarts(true), StarterPublishes], last);
    RunConcat(checked, [AttemptEnded, ElectionClears], [StarterStarts(true), StarterPublishes] + last);
    RunConcat(start, [Acquired, StarterLocks],
              [AttemptEnded, ElectionClears] + ([StarterStarts(true), StarterPublishes] + last));
  }
}
