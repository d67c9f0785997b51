/**
  The leader-term file authority, as values, on top of the published store; and
  the two-cell specification it refines: one outstanding render that waits for
  a verdict, and the last confirmed one.
 */
module CurrentFilesModel {
  import opened Common
  import P = PublishedAuxModel
  import PublishedAuxSafety

  type FileSet = map<string, string>

  /** An authenticated artifact snapshot; `projection` is what it deploys as current files. */
  datatype Artifact = Artifact(id: nat, authentic: bool, projection: Result<FileSet, string>)

  /** A render's output snapshot. */
  datatype Output = Output(id: nat, authentic: bool, artifact: Result<Artifact, string>, planID: Result<string, string>)

  /** Compares the roots of two output snapshots, or fails. */
  type SameRoot = (Output, Output) -> Result<bool, string>

  predicate Same(sameRoot: SameRoot, a: Output, b: Output) { sameRoot(a, b) == Ok(true) }

  const GENERATIONS: nat := 0x1_0000_0000_0000_0000
  const PUBLISHED_GENERATION: nat := GENERATIONS - 1

  datatype Baseline = Baseline(files: FileSet, snapshot: Option<Artifact>, output: Option<Output>)

  datatype Authority = Authority(
    generation: nat,
    active: bool,
    accepted: Option<Baseline>,
    confirmed: Option<Baseline>,
    pendingPlanID: string)

  function InitialAuthority(): Authority { Authority(0, false, None, None, "") }

  datatype Call =
    | BeginTerm
    | EndTerm(generation: nat)
    | Accept(generation: nat, planID: string, files: FileSet)
    | AcceptSnapshot(generation: nat, planID: string, snapshot: Option<Artifact>)
    | AcceptOutput(generation: nat, output: Output)
    | Confirm(generation: nat, planID: string)
    | ConfirmOutput(generation: nat, output: Output)
    | Rollback(generation: nat, planID: string)
    | RollbackOutput(generation: nat, output: Output)

  predicate InTerm(a: Authority, generation: nat) { a.active && a.generation == generation }

  predicate PlanJudges(a: Authority, generation: nat, planID: string) {
    && InTerm(a, generation) && !(a.accepted.Some? && a.accepted.value.output.Some?)
    && planID != "" && planID == a.pendingPlanID
  }

  predicate OutputJudges(sameRoot: SameRoot, a: Authority, generation: nat, output: Output) {
    && output.authentic && InTerm(a, generation)
    && a.accepted.Some? && a.accepted.value.output.Some?
    && Same(sameRoot, a.accepted.value.output.value, output)
  }

  function Settle(a: Authority, keep: bool): Authority {
    if keep then a.(confirmed := a.accepted, pendingPlanID := "")
    else a.(accepted := a.confirmed, pendingPlanID := "")
  }

  /** A snapshot the authority takes: authenticated and projectable. */
  predicate Usable(snapshot: Option<Artifact>) {
    snapshot.Some? && snapshot.value.authentic && snapshot.value.projection.Ok?
  }

  predicate UsableOutput(output: Output) {
    output.authentic && output.artifact.Ok? && output.planID.Ok? && output.artifact.value.projection.Ok?
  }

  function Apply(sameRoot: SameRoot, a: Authority, call: Call): Authority {
    match call
    case BeginTerm => Authority((a.generation + 1) % GENERATIONS, true, None, None, "")
    case EndTerm(generation) => if InTerm(a, generation) then Authority(a.generation, false, None, None, "") else a
    case Accept(generation, planID, files) =>
      if InTerm(a, generation) then a.(accepted := Some(Baseline(files, None, None)), pendingPlanID := planID) else a
    case AcceptSnapshot(generation, planID, snapshot) =>
      if Usable(snapshot) && InTerm(a, generation) then
        a.(accepted := Some(Baseline(snapshot.value.projection.value, snapshot, None)), pendingPlanID := planID)
      else a
    case AcceptOutput(generation, output) =>
      if UsableOutput(output) && InTerm(a, generation) then
        var artifact := output.artifact.value;
        a.(accepted := Some(Baseline(artifact.projection.value, Some(artifact), Some(output))),
           pendingPlanID := output.planID.value)
      else a
    case Confirm(generation, planID) => if PlanJudges(a, generation, planID) then Settle(a, true) else a
    case ConfirmOutput(generation, output) =>
      if OutputJudges(sameRoot, a, generation, output) then Settle(a, true) else a
    case Rollback(generation, planID) => if PlanJudges(a, generation, planID) then Settle(a, false) else a
    case RollbackOutput(generation, output) =>
      if OutputJudges(sameRoot, a, generation, output) then Settle(a, false) else a
  }

  function ApplyAll(sameRoot: SameRoot, a: Authority, calls: seq<Call>): Authority {
    if calls == [] then a
    else Apply(sameRoot, ApplyAll(sameRoot, a, calls[..|calls| - 1]), calls[|calls| - 1])
  }

  // ----- the two-cell specification

  /** A render by the files it leaves and the name its verdict will use. */
  datatype Render = Render(baseline: Baseline, planID: string)

  /** `term` is the open term's generation; the cells belong to it. */
  datatype Cells = Cells(term: Option<nat>, outstanding: Option<Render>, confirmed: Option<Render>)

  datatype Verdict = ByPlan(planID: string) | ByOutput(output: Output)

  /** Whether a verdict names this render: an output by its root, others by a non-empty plan ID. */
  ghost predicate Names(sameRoot: SameRoot, verdict: Verdict, render: Render) {
    match verdict
    case ByPlan(planID) => render.baseline.output.None? && planID != "" && render.planID == planID
    case ByOutput(output) =>
      output.authentic && render.baseline.output.Some? && sameRoot(render.baseline.output.value, output) == Ok(true)
  }

  /** What the next render may take as deployed. */
  ghost function Working(c: Cells): Option<Render> {
    if c.outstanding.Some? then c.outstanding else c.confirmed
  }

  ghost function Produced(call: Call): Option<Render> {
    match call
    case Accept(_, planID, files) => Some(Render(Baseline(files, None, None), planID))
    case AcceptSnapshot(_, planID, snapshot) =>
      if snapshot.Some? && snapshot.value.authentic && snapshot.value.projection.Ok? then
        Some(Render(Baseline(snapshot.value.projection.value, snapshot, None), planID))
      else None
    case AcceptOutput(_, output) =>
      if output.authentic && output.planID.Ok? && output.artifact.Ok? && output.artifact.value.projection.Ok? then
        Some(Render(Baseline(output.artifact.value.projection.value, Some(output.artifact.value), Some(output)),
                    output.planID.value))
      else None
    case _ => None
  }

  ghost function VerdictOf(call: Call): Option<(Verdict, bool)> {
    match call
    case Confirm(_, planID) => Some((ByPlan(planID), true))
    case ConfirmOutput(_, output) => Some((ByOutput(output), true))
    case Rollback(_, planID) => Some((ByPlan(planID), false))
    case RollbackOutput(_, output) => Some((ByOutput(output), false))
    case _ => None
  }

  /** The specification: new renders replace the outstanding one, a verdict naming it settles it. */
  ghost function Specify(sameRoot: SameRoot, c: Cells, call: Call, nextGeneration: nat): Cells {
    if call.BeginTerm? then Cells(Some(nextGeneration), None, None)
    else if c.term != Some(call.generation) then c
    else if call.EndTerm? then Cells(None, None, None)
    else if Produced(call).Some? then c.(outstanding := Produced(call))
    else match VerdictOf(call)
      case Some((verdict, passed)) =>
        if c.outstanding.Some? && Names(sameRoot, verdict, c.outstanding.value) then
          Cells(c.term, None, if passed then c.outstanding else c.confirmed)
        else c
      case None => c
  }

  ghost function SpecifyAll(sameRoot: SameRoot, calls: seq<Call>): (Cells, nat) {
    if calls == [] then (Cells(None, None, None), 0)
    else
      var n := |calls| - 1;
      var (c, generation) := SpecifyAll(sameRoot, calls[..n]);
      var next := (generation + 1) % GENERATIONS;
      (Specify(sameRoot, c, calls[n], next), if calls[n].BeginTerm? then next else generation)
  }

  ghost function BaselineOf(render: Option<Render>): Option<Baseline> {
    match render
    case Some(r) => Some(r.baseline)
    case None => None
  }

  ghost predicate Refines(a: Authority, c: Cells) {
    && (if a.active then c.term == Some(a.generation) else c == Cells(None, None, None))
    && a.accepted == BaselineOf(Working(c)) && a.confirmed == BaselineOf(c.confirmed)
    && a.pendingPlanID == (if c.outstanding.Some? then c.outstanding.value.planID else "")
  }

  /** Every run of calls, plan and output variants freely mixed, refines the two cells. */
  lemma {:induction false} RunRefinesTwoCells(sameRoot: SameRoot, calls: seq<Call>)
    ensures var a := ApplyAll(sameRoot, InitialAuthority(), calls);
      && Refines(a, SpecifyAll(sameRoot, calls).0)
      && a.generation == SpecifyAll(sameRoot, calls).1
  {
    if calls != [] {
      var n := |calls| - 1;
      RunRefinesTwoCells(sameRoot, calls[..n]);
      ApplyRefines(sameRoot, ApplyAll(sameRoot, InitialAuthority(), calls[..n]), SpecifyAll(sameRoot, calls[..n]).0,
                   calls[n]);
    }
  }

  /** One call keeps the refinement. */
  lemma ApplyRefines(sameRoot: SameRoot, a: Authority, c: Cells, call: Call)
    requires Refines(a, c)
    ensures Refines(Apply(sameRoot, a, call), Specify(sameRoot, c, call, (a.generation + 1) % GENERATIONS))
  {
  }

  // ----- what the refinement says to a caller

  ghost predicate IsVerdictOn(sameRoot: SameRoot, c: Cells, call: Call) {
    && VerdictOf(call).Some? && c.term == Some(call.generation)
    && c.outstanding.Some? && Names(sameRoot, VerdictOf(call).value.0, c.outstanding.value)
  }

  /** A verdict on a superseded render, on a settled one or from another term changes nothing. */
  lemma StrayVerdictChangesNothing(sameRoot: SameRoot, calls: seq<Call>, verdict: Call)
    requires VerdictOf(verdict).Some? && !IsVerdictOn(sameRoot, SpecifyAll(sameRoot, calls).0, verdict)
    ensures var a := ApplyAll(sameRoot, InitialAuthority(), calls);
      Apply(sameRoot, a, verdict) == a
  {
    RunRefinesTwoCells(sameRoot, calls);
  }

  /** The calls after position k neither change the term nor pass a render. */
  ghost predicate NothingConfirmedSince(sameRoot: SameRoot, calls: seq<Call>, k: nat) {
    k <= |calls| && forall j :: k <= j < |calls| ==> KeepsConfirmed(sameRoot, calls[..j], calls[j])
  }

  ghost predicate KeepsConfirmed(sameRoot: SameRoot, before: seq<Call>, call: Call) {
    var spec := SpecifyAll(sameRoot, before).0;
    && !call.BeginTerm? && (call.EndTerm? ==> spec.term != Some(call.generation))
    && (IsVerdictOn(sameRoot, spec, call) ==> !VerdictOf(call).value.1)
  }

  lemma NothingConfirmedEarlier(sameRoot: SameRoot, calls: seq<Call>, k: nat)
    requires NothingConfirmedSince(sameRoot, calls, k) && k < |calls|
    ensures NothingConfirmedSince(sameRoot, calls[..|calls| - 1], k)
  {
    var n := |calls| - 1;
    forall j | k <= j < n ensures KeepsConfirmed(sameRoot, calls[..n][..j], calls[..n][j]) {
      assert calls[..n][..j] == calls[..j] && calls[..n][j] == calls[j];
    }
  }

  lemma {:induction false} ConfirmedStands(sameRoot: SameRoot, calls: seq<Call>, k: nat)
    requires NothingConfirmedSince(sameRoot, calls, k)
    ensures SpecifyAll(sameRoot, calls).0.confirmed == SpecifyAll(sameRoot, calls[..k]).0.confirmed
    decreases |calls|
  {
    var n := |calls| - 1;
    if k == |calls| {
      assert calls[..k] == calls;
    } else {
      NothingConfirmedEarlier(sameRoot, calls, k);
      ConfirmedStands(sameRoot, calls[..n], k);
      assert calls[..n][..k] == calls[..k];
    }
  }

  /**
    A rollback of the outstanding render restores the baseline that was passed
    at call k, if nothing was confirmed since in that term.
   */
  lemma RollbackRestoresLastConfirmed(sameRoot: SameRoot, calls: seq<Call>, k: nat, rollback: Call)
    requires k < |calls| && IsVerdictOn(sameRoot, SpecifyAll(sameRoot, calls[..k]).0, calls[k])
      && VerdictOf(calls[k]).value.1
    requires NothingConfirmedSince(sameRoot, calls, k + 1)
    requires IsVerdictOn(sameRoot, SpecifyAll(sameRoot, calls).0, rollback) && !VerdictOf(rollback).value.1
    ensures Apply(sameRoot, ApplyAll(sameRoot, InitialAuthority(), calls), rollback).accepted
         == ApplyAll(sameRoot, InitialAuthority(), calls[..k]).accepted
  {
    RunRefinesTwoCells(sameRoot, calls[..k]);
    RunRefinesTwoCells(sameRoot, calls);
    ConfirmedStands(sameRoot, calls, k + 1);
    assert calls[..k + 1][..k] == calls[..k];
  }

  /** With nothing confirmed since the term began, it leaves no baseline: the published set is read again. */
  lemma RollbackWithoutConfirmationClears(sameRoot: SameRoot, calls: seq<Call>, k: nat, rollback: Call)
    requires k < |calls| && calls[k].BeginTerm? && NothingConfirmedSince(sameRoot, calls, k + 1)
    requires IsVerdictOn(sameRoot, SpecifyAll(sameRoot, calls).0, rollback) && !VerdictOf(rollback).value.1
    ensures Apply(sameRoot, ApplyAll(sameRoot, InitialAuthority(), calls), rollback).accepted == None
  {
    RunRefinesTwoCells(sameRoot, calls);
    ConfirmedStands(sameRoot, calls, k + 1);
    assert calls[..k + 1][..k] == calls[..k];
  }

  // ----- authority and published store together

  datatype World = World(authority: Authority, published: Option<P.State>)

  datatype Action = Called(call: Call) | Observed(event: P.Event)

  /** The store sees its own watch events, and term changes only through the authority. */
  ghost function Act(digest: P.Digest, sameRoot: SameRoot, w: World, action: Action): World {
    match action
    case Observed(event) =>
      if w.published.None? || event.TermBegun? || event.TermEnded? then w
      else w.(published := Some(P.Step(digest, w.published.value, event)))
    case Called(call) =>
      var next := w.(authority := Apply(sameRoot, w.authority, call));
      if w.published.Some? && call.BeginTerm? then
        next.(published := Some(P.Step(digest, w.published.value, P.TermBegun)))
      else if w.published.Some? && call.EndTerm? && InTerm(w.authority, call.generation) then
        next.(published := Some(P.Step(digest, w.published.value, P.TermEnded)))
      else next
  }

  ghost function ActAll(digest: P.Digest, sameRoot: SameRoot, w: World, actions: seq<Action>): World {
    if actions == [] then w
    else Act(digest, sameRoot, ActAll(digest, sameRoot, w, actions[..|actions| - 1]), actions[|actions| - 1])
  }

  /** In every reachable state the store takes this replica for the leader exactly while a term is active. */
  lemma {:induction false} ActiveMeansLeader(digest: P.Digest, sameRoot: SameRoot, namespace: string,
                                             actions: seq<Action>)
    ensures var w := ActAll(digest, sameRoot, World(InitialAuthority(), Some(P.Initial(namespace))), actions);
      w.published.Some? && w.published.value.leader == w.authority.active
  {
    if actions != [] {
      var n := |actions| - 1;
      ActiveMeansLeader(digest, sameRoot, namespace, actions[..n]);
      var start := World(InitialAuthority(), Some(P.Initial(namespace)));
      ActKeepsLeader(digest, sameRoot, ActAll(digest, sameRoot, start, actions[..n]), actions[n]);
    }
  }

  lemma ActKeepsLeader(digest: P.Digest, sameRoot: SameRoot, w: World, action: Action)
    requires w.published.Some? && w.published.value.leader == w.authority.active
    ensures var t := Act(digest, sameRoot, w, action);
      t.published.Some? && t.published.value.leader == t.authority.active
  {
    match action
    case Observed(event) => PublishedAuxSafety.StepLeads(digest, w.published.value, event);
    case Called(call) =>
      PublishedAuxSafety.StepLeads(digest, w.published.value, P.TermBegun);
      PublishedAuxSafety.StepLeads(digest, w.published.value, P.TermEnded);
  }

  // ----- reading

  /** What the authority contributes to a read of this generation. */
  function Captured(a: Authority, generation: nat): Option<FileSet> {
    if InTerm(a, generation) && a.accepted.Some? then Some(a.accepted.value.files) else None
  }

  /** The second half of a read: what was captured, if the store is available, else the published set. */
  function Read(captured: Option<FileSet>, published: Option<P.State>): Result<FileSet, P.AuxError> {
    if captured.Some? then
      if published.Some? && published.value.unavailable.Some? then Err(published.value.unavailable.value)
      else Ok(captured.value)
    else if published.None? then Ok(map[])
    else P.Get(published.value)
  }

  /** The files a render of this generation reads as deployed. */
  function Snapshot(w: World, generation: nat): Result<FileSet, P.AuxError> {
    Read(Captured(w.authority, generation), w.published)
  }

  // ----- what the cells say about a read

  /**
    The specification of a read: nothing while the store refuses; else the
    files of the open term's outstanding or last confirmed render, if the
    reader is of that term; else the published set.
   */
  ghost function CellsRead(c: Cells, generation: nat, published: Option<P.State>): Result<FileSet, P.AuxError> {
    if published.Some? && published.value.unavailable.Some? then Err(published.value.unavailable.value)
    else if c.term == Some(generation) && Working(c).Some? then Ok(Working(c).value.baseline.files)
    else if published.Some? then Ok(published.value.current)
    else Ok(map[])
  }

  ghost function CallsOf(actions: seq<Action>): seq<Call> {
    if actions == [] then []
    else
      var n := |actions| - 1;
      CallsOf(actions[..n]) + (if actions[n].Called? then [actions[n].call] else [])
  }

  lemma {:induction false} ActAllCalls(digest: P.Digest, sameRoot: SameRoot, w: World, actions: seq<Action>)
    requires w.authority == InitialAuthority()
    ensures ActAll(digest, sameRoot, w, actions).authority == ApplyAll(sameRoot, InitialAuthority(), CallsOf(actions))
  {
    if actions != [] {
      var n := |actions| - 1;
      ActAllCalls(digest, sameRoot, w, actions[..n]);
      var calls := CallsOf(actions[..n]);
      if actions[n].Called? {
        assert (calls + [actions[n].call])[..|calls|] == calls;
      } else {
        assert calls + [] == calls;
      }
    }
  }

  /** Whatever a caller did, a read says what the two cells and the store say. */
  lemma ReadIsOfCells(sameRoot: SameRoot, calls: seq<Call>, published: Option<P.State>, generation: nat)
    ensures Snapshot(World(ApplyAll(sameRoot, InitialAuthority(), calls), published), generation)
      == CellsRead(SpecifyAll(sameRoot, calls).0, generation, published)
  {
    RunRefinesTwoCells(sameRoot, calls);
  }

  /** The same over every run of calls and store events, for every generation. */
  lemma RunReadsCells(digest: P.Digest, sameRoot: SameRoot, start: Option<P.State>, actions: seq<Action>,
                      generation: nat)
    ensures var w := ActAll(digest, sameRoot, World(InitialAuthority(), start), actions);
      Snapshot(w, generation) == CellsRead(SpecifyAll(sameRoot, CallsOf(actions)).0, generation, w.published)
  {
    var w := ActAll(digest, sameRoot, World(InitialAuthority(), start), actions);
    ActAllCalls(digest, sameRoot, World(InitialAuthority(), start), actions);
    ReadIsOfCells(sameRoot, CallsOf(actions), w.published, generation);
    assert w == World(w.authority, w.published);
  }

  /** The store next to the authority is one that its own events lead to. */
  lemma {:induction false} StoreIsReached(digest: P.Digest, sameRoot: SameRoot, namespace: string,
                                          actions: seq<Action>) returns (events: seq<P.Event>)
    ensures ActAll(digest, sameRoot, World(InitialAuthority(), Some(P.Initial(namespace))), actions).published
      == Some(PublishedAuxSafety.Reached(digest, namespace, events))
  {
    events := [];
    if actions != [] {
      var n := |actions| - 1;
      var start := World(InitialAuthority(), Some(P.Initial(namespace)));
      var w := ActAll(digest, sameRoot, start, actions[..n]);
      events := StoreIsReached(digest, sameRoot, namespace, actions[..n]);
      var event := StoreEvent(w.authority, actions[n]);
      ActIsEvent(digest, sameRoot, w, actions[n]);
      if event.Some? {
        assert (events + [event.value])[..|events|] == events;
        events := events + [event.value];
      }
    }
  }

  lemma ActIsEvent(digest: P.Digest, sameRoot: SameRoot, w: World, action: Action)
    requires w.published.Some?
    ensures Act(digest, sameRoot, w, action).published
      == match StoreEvent(w.authority, action)
         case Some(event) => Some(P.Step(digest, w.published.value, event))
         case None => w.published
  {
  }

  /** The store's part in an action. */
  function StoreEvent(a: Authority, action: Action): Option<P.Event> {
    match action
    case Observed(event) => if event.TermBegun? || event.TermEnded? then None else Some(event)
    case Called(BeginTerm) => Some(P.TermBegun)
    case Called(EndTerm(generation)) => if InTerm(a, generation) then Some(P.TermEnded) else None
    case Called(_) => None
  }

  /** The calls from position k on leave the term open and its working render in place. */
  ghost predicate NothingAcceptedSince(sameRoot: SameRoot, calls: seq<Call>, k: nat) {
    k <= |calls| && forall j :: k <= j < |calls| ==> KeepsWorking(sameRoot, calls[..j], calls[j])
  }

  ghost predicate KeepsWorking(sameRoot: SameRoot, before: seq<Call>, call: Call) {
    var spec := SpecifyAll(sameRoot, before).0;
    && !call.BeginTerm?
    && (spec.term == Some(call.generation) ==> !call.EndTerm? && Produced(call).None?)
    && (IsVerdictOn(sameRoot, spec, call) ==> VerdictOf(call).value.1)
  }

  lemma NothingAcceptedEarlier(sameRoot: SameRoot, calls: seq<Call>, k: nat)
    requires NothingAcceptedSince(sameRoot, calls, k) && k < |calls|
    ensures NothingAcceptedSince(sameRoot, calls[..|calls| - 1], k)
  {
    var n := |calls| - 1;
    forall j | k <= j < n ensures KeepsWorking(sameRoot, calls[..n][..j], calls[..n][j]) {
      assert calls[..n][..j] == calls[..j] && calls[..n][j] == calls[j];
    }
  }

  lemma {:induction false} WorkingStands(sameRoot: SameRoot, calls: seq<Call>, k: nat)
    requires NothingAcceptedSince(sameRoot, calls, k)
    ensures var now, then_ := SpecifyAll(sameRoot, calls).0, SpecifyAll(sameRoot, calls[..k]).0;
      now.term == then_.term && Working(now) == Working(then_)
    decreases |calls|
  {
    var n := |calls| - 1;
    if k == |calls| {
      assert calls[..k] == calls;
    } else {
      NothingAcceptedEarlier(sameRoot, calls, k);
      WorkingStands(sameRoot, calls[..n], k);
      assert calls[..n][..k] == calls[..k];
    }
  }

  /** A render reads the files accepted last in its term, confirmed or not, while nothing took their place. */
  lemma RenderReadsLastAccepted(sameRoot: SameRoot, calls: seq<Call>, k: nat, published: Option<P.State>)
    requires k < |calls| && Produced(calls[k]).Some?
    requires SpecifyAll(sameRoot, calls[..k]).0.term == Some(calls[k].generation)
    requires NothingAcceptedSince(sameRoot, calls, k + 1)
    requires published.Some? ==> published.value.unavailable.None?
    ensures Snapshot(World(ApplyAll(sameRoot, InitialAuthority(), calls), published), calls[k].generation)
      == Ok(Produced(calls[k]).value.baseline.files)
  {
    WorkingStands(sameRoot, calls, k + 1);
    assert calls[..k + 1][..k] == calls[..k];
    ReadIsOfCells(sameRoot, calls, published, calls[k].generation);
  }

  /**
    After a rollback of the outstanding render, one of the same term reads the
    files that were confirmed last, at call k, ...
   */
  lemma RolledBackReadsConfirmed(sameRoot: SameRoot, calls: seq<Call>, k: nat, rollback: Call,
                                 published: Option<P.State>)
    requires k < |calls| && IsVerdictOn(sameRoot, SpecifyAll(sameRoot, calls[..k]).0, calls[k])
      && VerdictOf(calls[k]).value.1
    requires NothingConfirmedSince(sameRoot, calls, k + 1)
    requires IsVerdictOn(sameRoot, SpecifyAll(sameRoot, calls).0, rollback) && !VerdictOf(rollback).value.1
    requires published.Some? ==> published.value.unavailable.None?
    ensures Snapshot(World(ApplyAll(sameRoot, InitialAuthority(), calls + [rollback]), published), rollback.generation)
      == Ok(SpecifyAll(sameRoot, calls[..k]).0.outstanding.value.baseline.files)
  {
    ConfirmedStands(sameRoot, calls, k + 1);
    assert calls[..k + 1][..k] == calls[..k];
    assert (calls + [rollback])[..|calls|] == calls;
    ReadIsOfCells(sameRoot, calls + [rollback], published, rollback.generation);
  }

  /** ... or the published set, if none was since the term began. */
  lemma RolledBackReadsPublished(sameRoot: SameRoot, calls: seq<Call>, k: nat, rollback: Call,
                                 published: Option<P.State>)
    requires k < |calls| && calls[k].BeginTerm? && NothingConfirmedSince(sameRoot, calls, k + 1)
    requires IsVerdictOn(sameRoot, SpecifyAll(sameRoot, calls).0, rollback) && !VerdictOf(rollback).value.1
    ensures Snapshot(World(ApplyAll(sameRoot, InitialAuthority(), calls + [rollback]), published), rollback.generation)
      == if published.Some? then P.Get(published.value) else Ok(map[])
  {
    ConfirmedStands(sameRoot, calls, k + 1);
    assert calls[..k + 1][..k] == calls[..k];
    assert (calls + [rollback])[..|calls|] == calls;
    ReadIsOfCells(sameRoot, calls + [rollback], published, rollback.generation);
  }

  // ----- the generation that stands for no term

  function Begun(calls: seq<Call>): nat {
    if calls == [] then 0 else Begun(calls[..|calls| - 1]) + (if calls[|calls| - 1].BeginTerm? then 1 else 0)
  }

  lemma {:induction false} GenerationCountsTerms(sameRoot: SameRoot, calls: seq<Call>)
    ensures ApplyAll(sameRoot, InitialAuthority(), calls).generation == Begun(calls) % GENERATIONS
  {
    if calls != [] {
      var n := |calls| - 1;
      GenerationCountsTerms(sameRoot, calls[..n]);
      OneMoreTerm(Begun(calls[..n]));
    }
  }

  lemma OneMoreTerm(begun: nat)
    ensures (begun % GENERATIONS + 1) % GENERATIONS == (begun + 1) % GENERATIONS
  {
    var q, r := begun / GENERATIONS, begun % GENERATIONS;
    assert begun + 1 == q * GENERATIONS + (r + 1);
    if r + 1 < GENERATIONS {
      Remainder(q, r + 1);
    } else {
      Remainder(q + 1, 0);
    }
  }

  lemma Remainder(q: nat, r: nat)
    requires r < GENERATIONS
    ensures (q * GENERATIONS + r) % GENERATIONS == r
  {
    var n := q * GENERATIONS + r;
    assert GENERATIONS * (q - n / GENERATIONS) == n % GENERATIONS - r;
  }

  /**
    The published generation reads the published set, unless exactly that many
    terms were begun, the last is still active and has accepted files.
   */
  lemma PublishedGenerationExact(sameRoot: SameRoot, calls: seq<Call>, published: Option<P.State>)
    ensures var a := ApplyAll(sameRoot, InitialAuthority(), calls);
      && (Captured(a, PUBLISHED_GENERATION).Some? <==>
            Begun(calls) % GENERATIONS == PUBLISHED_GENERATION && a.active && a.accepted.Some?)
      && (Begun(calls) < PUBLISHED_GENERATION ==>
          Snapshot(World(a, published), PUBLISHED_GENERATION) == Read(None, published))
  {
    GenerationCountsTerms(sameRoot, calls);
  }
}
