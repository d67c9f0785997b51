/** What every run of the published auxiliary store keeps. */
module PublishedAuxSafety {
  import opened Common
  import opened PublishedAuxModel

  // ----- the invariant of every reachable state

  /** While readable, `current` is what the newest commit resolves to, if it resolves at all. */
  ghost predicate Settled(digest: Digest, s: State) {
    s.unavailable.None? ==>
      match s.commit
      case None => s.current == map[] && !s.legacy
      case Some(_) => ResolvePending(digest, s).Err? || ResolvePending(digest, s) == Ok(s.current)
  }

  /** A store that accepted a set ID is unreadable while the newest commit lacks one. */
  ghost predicate Latched(s: State) {
    && (s.contentAccepted ==> s.modernAccepted)
    && (s.modernAccepted && LacksSetID(s.commit) ==> s.unavailable.Some?)
  }

  ghost predicate Inv(digest: Digest, s: State) { Settled(digest, s) && Latched(s) }

  /** The latches and the availability after `s` accepted its newest commit. */
  ghost predicate Accepts(s: State, t: State)
    requires s.commit.Some?
  {
    var setID := s.commit.value.setID;
    && t.unavailable.None? && t.legacy == (setID == "")
    && (setID == "" ==> s.unavailable.None?)
    && t.modernAccepted == (s.modernAccepted || setID != "")
    && t.contentAccepted == (s.contentAccepted || UsesContentIdentity(setID))
  }

  /** What advancing may do: nothing but record an error, read as empty, or accept a resolution. */
  ghost predicate Advanced(s: State, t: State, resolved: Result<FileSet, AuxError>) {
    || (t == s.(lastErr := t.lastErr) && (t.unavailable.Some? || (s.commit.Some? && resolved.Err?)))
    || (s.commit.None? && s.unavailable.None?
        && t == s.(current := map[], ready := true, legacy := false, lastErr := None))
    || (s.commit.Some? && resolved == Ok(t.current) && Accepts(s, t))
  }

  lemma AdvanceWithOutcome(s: State, resolved: Result<FileSet, AuxError>)
    ensures var t := AdvanceWith(s, resolved);
      && t.namespace == s.namespace && t.commit == s.commit && t.store == s.store && t.leader == s.leader
      && Advanced(s, t, resolved)
  {
    if s.commit.Some? && !(s.commit.value.setID == "" && s.unavailable.Some?) && resolved.Ok? {
      AcceptSetAccepts(s, resolved.value);
    } else {
      NothingAccepted(s, resolved);
    }
  }

  lemma NothingAccepted(s: State, resolved: Result<FileSet, AuxError>)
    requires s.commit.None? || (s.commit.value.setID == "" && s.unavailable.Some?) || resolved.Err?
    ensures var t := AdvanceWith(s, resolved);
      && t.namespace == s.namespace && t.commit == s.commit && t.store == s.store && t.leader == s.leader
      && Advanced(s, t, resolved)
  {
    var t := AdvanceWith(s, resolved);
    if s.commit.Some? || s.unavailable.Some? {
      assert t == s.(lastErr := t.lastErr);
    }
  }

  lemma AcceptSetAccepts(s: State, next: FileSet)
    requires s.commit.Some? && (s.commit.value.setID == "" ==> s.unavailable.None?)
    ensures var t := AcceptSet(s, next);
      && t.namespace == s.namespace && t.commit == s.commit && t.store == s.store && t.leader == s.leader
      && t.current == next && Accepts(s, t)
  {
  }

  lemma AdvanceOutcome(digest: Digest, s: State)
    ensures var t := Advance(digest, s);
      && t.namespace == s.namespace && t.commit == s.commit && t.store == s.store && t.leader == s.leader
      && (s.commit.Some? ==> ResolvePending(digest, t) == ResolvePending(digest, s))
      && Advanced(s, t, if s.commit.Some? then ResolvePending(digest, s) else Ok(map[]))
  {
    AdvanceWithOutcome(s, if s.commit.Some? then ResolvePending(digest, s) else Ok(map[]));
  }

  lemma AdvanceKeepsInv(digest: Digest, s: State)
    requires Latched(s)
    ensures Inv(digest, Advance(digest, s))
  {
    AdvanceOutcome(digest, s);
  }

  lemma StepKeepsInv(digest: Digest, s: State, event: Event)
    requires Inv(digest, s)
    ensures Inv(digest, Step(digest, s, event))
  {
    match event
    case ChildrenRefreshed(kind, files) => AdvanceKeepsInv(digest, s.(store := s.store[kind := files]));
    case Committed(commit) =>
      if !(s.modernAccepted && LacksSetID(commit)) {
        AdvanceKeepsInv(digest, s.(commit := commit));
      }
    case TermBegun =>
      if !s.modernAccepted {
        AdvanceKeepsInv(digest, s.(leader := true, unavailable := None));
      }
    case _ =>
  }

  /** The latches only ever close, and `current` moves only by reading empty or by a resolution. */
  ghost predicate Moves(digest: Digest, s: State, t: State) {
    && t.namespace == s.namespace
    && (s.modernAccepted ==> t.modernAccepted) && (s.contentAccepted ==> t.contentAccepted)
    && (|| (t.current == s.current && t.modernAccepted == s.modernAccepted)
        || (t.commit.None? && t.unavailable.None? && t.current == map[])
        || (t.commit.Some? && t.unavailable.None? && ResolvePending(digest, t) == Ok(t.current)))
  }

  lemma AdvanceMoves(digest: Digest, s: State, p: State)
    requires p.namespace == s.namespace && p.current == s.current
    requires p.modernAccepted == s.modernAccepted && p.contentAccepted == s.contentAccepted
    ensures Moves(digest, s, Advance(digest, p))
  {
    AdvanceOutcome(digest, p);
  }

  lemma StepMoves(digest: Digest, s: State, event: Event)
    ensures Moves(digest, s, Step(digest, s, event))
  {
    match event
    case ChildrenRefreshed(kind, files) => RefreshMoves(digest, s, kind, files);
    case Committed(commit) => CommitMoves(digest, s, commit);
    case TermBegun => TermMoves(digest, s);
    case _ =>
  }

  lemma RefreshMoves(digest: Digest, s: State, kind: Kind, files: map<string, File>)
    ensures Moves(digest, s, OnChildren(digest, s, kind, files))
  {
    AdvanceMoves(digest, s, s.(store := s.store[kind := files]));
  }

  lemma CommitMoves(digest: Digest, s: State, commit: Option<Commit>)
    ensures Moves(digest, s, OnCommit(digest, s, commit))
  {
    AdvanceMoves(digest, s, s.(commit := commit));
  }

  lemma TermMoves(digest: Digest, s: State)
    ensures Moves(digest, s, OnTermBegun(digest, s))
  {
    AdvanceMoves(digest, s, s.(leader := true, unavailable := None));
  }

  ghost function Reached(digest: Digest, namespace: string, events: seq<Event>): State {
    Run(digest, Initial(namespace), events)
  }

  lemma {:induction false} ReachedInv(digest: Digest, namespace: string, events: seq<Event>)
    ensures Inv(digest, Reached(digest, namespace, events))
  {
    if events != [] {
      ReachedInv(digest, namespace, events[..|events| - 1]);
      StepKeepsInv(digest, Reached(digest, namespace, events[..|events| - 1]), events[|events| - 1]);
    }
  }

  // ----- a follower never swaps one set-ID-less set for another

  /** Events a follower meets while only old-version leaders publish. */
  predicate LegacyTraffic(event: Event) {
    match event
    case Committed(commit) => LacksSetID(commit)
    case TermBegun => false
    case _ => true
  }

  /** Either unreadable, or still on the same accepted set-ID-less set. */
  ghost predicate Holds(digest: Digest, s: State, files: FileSet) {
    && !s.leader && LacksSetID(s.commit) && s.current == files
    && (s.unavailable.Some? || (s.legacy && Settled(digest, s)))
  }

  lemma UnchangedReferencesFrame(digest: Digest, s: State, kind: Kind, files: map<string, File>)
    requires s.commit.Some? && !ReferencesChanged(s, kind, files)
    ensures Resolve(digest, s.namespace, s.store[kind := files], s.commit.value)
         == Resolve(digest, s.namespace, s.store, s.commit.value)
  {
    var commit, after := s.commit.value, s.store[kind := files];
    forall slot | slot in Slots(commit)
      ensures Find(s.store, slot.kind, slot.ref.name) == Find(after, slot.kind, slot.ref.name)
    {
      SlotsMembers(commit, slot);
    }
    ResolveSlotsFrame(digest, s.namespace, s.store, after, commit.setID, Slots(commit));
  }

  lemma StepHolds(digest: Digest, s: State, event: Event, files: FileSet)
    requires Holds(digest, s, files) && LegacyTraffic(event)
    ensures Holds(digest, Step(digest, s, event), files)
    ensures s.unavailable.Some? ==> Step(digest, s, event).unavailable.Some?
  {
    match event
    case ChildrenRefreshed(kind, refreshed) => RefreshHolds(digest, s, kind, refreshed, files);
    case Committed(commit) => CommitHolds(digest, s, commit, files);
    case _ =>
  }

  lemma RefreshHolds(digest: Digest, s: State, kind: Kind, refreshed: map<string, File>, files: FileSet)
    requires Holds(digest, s, files)
    ensures var t := Step(digest, s, ChildrenRefreshed(kind, refreshed));
      Holds(digest, t, files) && (s.unavailable.Some? ==> t.unavailable.Some?)
  {
    if s.unavailable.None? && !ReferencesChanged(s, kind, refreshed) {
      UnchangedReferencesFrame(digest, s, kind, refreshed);
    }
  }

  lemma CommitHolds(digest: Digest, s: State, commit: Option<Commit>, files: FileSet)
    requires Holds(digest, s, files) && LacksSetID(commit)
    ensures var t := Step(digest, s, Committed(commit));
      Holds(digest, t, files) && (s.unavailable.Some? ==> t.unavailable.Some?)
  {
    if s.unavailable.None? && CommitsAgree(s.commit, commit) {
      ResolveAgrees(digest, s.namespace, s.store, s.commit.value, commit.value);
    }
  }

  lemma {:induction false} RunHolds(digest: Digest, s: State, events: seq<Event>, files: FileSet)
    requires Holds(digest, s, files) && forall event :: event in events ==> LegacyTraffic(event)
    ensures Holds(digest, Run(digest, s, events), files)
    ensures s.unavailable.Some? ==> Run(digest, s, events).unavailable.Some?
  {
    if events != [] {
      var n := |events| - 1;
      RunHolds(digest, s, events[..n], files);
      StepHolds(digest, Run(digest, s, events[..n]), events[n], files);
    }
  }

  /**
    However a follower got to a set-ID-less set, and whatever children,
    commits without set ID and read errors follow: it reads that same set, or
    nothing. Once unreadable it stays so.
   */
  lemma FollowerKeepsLegacySet(digest: Digest, namespace: string, before: seq<Event>, during: seq<Event>)
    requires var s := Reached(digest, namespace, before); s.legacy && !s.leader && LacksSetID(s.commit)
    requires forall event :: event in during ==> LegacyTraffic(event)
    ensures var s := Reached(digest, namespace, before);
      var t := Run(digest, s, during);
      && (Get(t).Ok? ==> Get(t).value == s.current)
      && (Get(s).Err? ==> Get(t).Err?)
  {
    var s := Reached(digest, namespace, before);
    ReachedInv(digest, namespace, before);
    RunHolds(digest, s, during, s.current);
  }

  /** A new leader term reads whatever is visible, unless a set ID was ever accepted. */
  lemma LeaderTermLiftsLegacyLatch(digest: Digest, namespace: string, events: seq<Event>)
    requires !Reached(digest, namespace, events).modernAccepted
    ensures var s := Reached(digest, namespace, events);
      var t := Step(digest, s, TermBegun);
      Get(t) == Ok(match s.commit
                   case None => map[]
                   case Some(_) => if ResolvePending(digest, s).Ok? then ResolvePending(digest, s).value else s.current)
  {
    ReachedInv(digest, namespace, events);
    TermBegunReads(digest, Reached(digest, namespace, events));
  }

  lemma TermBegunReads(digest: Digest, s: State)
    requires Inv(digest, s) && !s.modernAccepted
    ensures Get(Step(digest, s, TermBegun))
      == Ok(match s.commit
            case None => map[]
            case Some(_) => if ResolvePending(digest, s).Ok? then ResolvePending(digest, s).value else s.current)
  {
  }

  // ----- when the store becomes unreadable, and readable again

  ghost predicate NamesASet(commit: Option<Commit>) { commit.Some? && commit.value.setID != "" }

  ghost predicate NamesContent(commit: Option<Commit>) { commit.Some? && CONTENT_SET_PREFIX <= commit.value.setID }

  /** A file the commit refers to is not what it was. */
  ghost predicate Disturbs(s: State, kind: Kind, files: map<string, File>) {
    && s.commit.Some?
    && exists slot :: slot in Slots(s.commit.value) && slot.kind == kind
         && Find(s.store, kind, slot.ref.name) != Find(map[kind := files], kind, slot.ref.name)
  }

  ghost predicate Differ(a: Option<Commit>, b: Option<Commit>) {
    if a.Some? && b.Some? then
      a.value.setID != b.value.setID || exists field: Field :: a.value.Refs(field) != b.value.Refs(field)
    else a.Some? || b.Some?
  }

  /**
    Why a readable store refuses to be read after an event: a follower on a
    set-ID-less set sees something else, or a step back behind a set ID or a
    content identity.
   */
  ghost function Refusal(s: State, event: Event): Option<AuxError> {
    var follows := s.legacy && !s.leader;
    match event
    case ChildrenRefreshed(kind, files) =>
      if follows && !NamesASet(s.commit) && Disturbs(s, kind, files) then Some(LegacyChanged) else None
    case Committed(commit) =>
      if s.contentAccepted && !NamesContent(commit) then Some(ContentIdentityLost)
      else if s.modernAccepted && !NamesASet(commit) then Some(SetIDLost)
      else if follows && !NamesASet(commit) && Differ(s.commit, commit) then Some(LegacyChanged)
      else None
    case ReadError(_) => if follows then Some(LegacyChanged) else None
    case _ => None
  }

  lemma DisturbsExact(s: State, kind: Kind, files: map<string, File>)
    ensures Disturbs(s, kind, files) <==> ReferencesChanged(s, kind, files)
  {
    if Disturbs(s, kind, files) {
      var slot :| slot in Slots(s.commit.value) && slot.kind == kind
        && Find(s.store, kind, slot.ref.name) != Find(map[kind := files], kind, slot.ref.name);
      SlotsMembers(s.commit.value, slot);
      assert slot.field in FieldsOf(kind);
    }
    if ReferencesChanged(s, kind, files) { ChangedDisturbs(s, kind, files); }
  }

  lemma ChangedDisturbs(s: State, kind: Kind, files: map<string, File>)
    requires ReferencesChanged(s, kind, files)
    ensures Disturbs(s, kind, files)
  {
    var field, ref :| field in FieldsOf(kind) && ref in s.commit.value.Refs(field)
      && Find(s.store, kind, ref.name) != (if ref.name in files then Some(files[ref.name]) else None);
    var slot := Slot(kind, field, ref);
    SlotsMembers(s.commit.value, slot);
    assert slot.ref.name == ref.name;
  }

  lemma AdvanceStaysReadable(digest: Digest, s: State)
    requires s.unavailable.None?
    ensures Advance(digest, s).unavailable.None?
  {
    AdvanceOutcome(digest, s);
  }

  lemma CommitRefused(digest: Digest, s: State, commit: Option<Commit>)
    requires s.unavailable.None?
    ensures Step(digest, s, Committed(commit)).unavailable == Refusal(s, Committed(commit))
  {
    AdvanceStaysReadable(digest, s.(commit := commit));
  }

  lemma RefreshRefused(digest: Digest, s: State, kind: Kind, files: map<string, File>)
    requires s.unavailable.None?
    ensures Step(digest, s, ChildrenRefreshed(kind, files)).unavailable == Refusal(s, ChildrenRefreshed(kind, files))
  {
    DisturbsExact(s, kind, files);
    AdvanceStaysReadable(digest, s.(store := s.store[kind := files]));
  }

  /** A store that can be read becomes unreadable exactly by these events, for these reasons. */
  lemma RefusalExact(digest: Digest, s: State, event: Event)
    requires Get(s).Ok?
    ensures var t := Step(digest, s, event);
      match Refusal(s, event)
      case Some(reason) => Get(t) == Err(reason)
      case None => Get(t).Ok?
  {
    match event
    case ChildrenRefreshed(kind, files) => RefreshRefused(digest, s, kind, files);
    case Committed(commit) => CommitRefused(digest, s, commit);
    case _ =>
  }

  /** What makes an unreadable store readable. */
  ghost predicate Reopens(digest: Digest, s: State, event: Event) {
    match event
    case ChildrenRefreshed(kind, files) =>
      NamesASet(s.commit) && Resolve(digest, s.namespace, s.store[kind := files], s.commit.value).Ok?
    case Committed(commit) =>
      && NamesASet(commit) && (s.contentAccepted ==> NamesContent(commit))
      && Resolve(digest, s.namespace, s.store, commit.value).Ok?
    case TermBegun => !s.modernAccepted
    case _ => false
  }

  lemma AdvanceReopens(digest: Digest, s: State)
    requires s.unavailable.Some?
    ensures Advance(digest, s).unavailable.None? <==> NamesASet(s.commit) && ResolvePending(digest, s).Ok?
  {
    AdvanceOutcome(digest, s);
  }

  lemma RefreshReopens(digest: Digest, s: State, kind: Kind, files: map<string, File>)
    requires s.unavailable.Some?
    ensures Step(digest, s, ChildrenRefreshed(kind, files)).unavailable.None?
      <==> Reopens(digest, s, ChildrenRefreshed(kind, files))
  {
    AdvanceReopens(digest, s.(store := s.store[kind := files]));
  }

  lemma CommitReopens(digest: Digest, s: State, commit: Option<Commit>)
    requires s.unavailable.Some?
    ensures Step(digest, s, Committed(commit)).unavailable.None? <==> Reopens(digest, s, Committed(commit))
  {
    AdvanceReopens(digest, s.(commit := commit));
  }

  /** An unreadable store is readable after an event exactly if that reopens it. */
  lemma ReopensExact(digest: Digest, s: State, event: Event)
    requires Get(s).Err?
    ensures Get(Step(digest, s, event)).Ok? <==> Reopens(digest, s, event)
  {
    match event
    case ChildrenRefreshed(kind, files) => RefreshReopens(digest, s, kind, files);
    case Committed(commit) => CommitReopens(digest, s, commit);
    case TermBegun =>
      if !s.modernAccepted { AdvanceStaysReadable(digest, s.(leader := true, unavailable := None)); }
    case _ =>
  }

  // ----- a leader reads through its term

  /** What a leader reads: the newest commit if it resolves, else what it read before. */
  ghost function LeaderRead(digest: Digest, t: State, before: FileSet): FileSet {
    if t.commit.None? then map[]
    else if ResolvePending(digest, t).Ok? then ResolvePending(digest, t).value
    else before
  }

  lemma LeaderStep(digest: Digest, s: State, event: Event)
    requires Inv(digest, s) && s.leader && Get(s).Ok? && event != TermEnded
    requires !Step(digest, s, event).modernAccepted
    ensures var t := Step(digest, s, event);
      t.leader && !s.modernAccepted && Get(t) == Ok(LeaderRead(digest, t, s.current))
  {
    var t := Step(digest, s, event);
    StepMoves(digest, s, event);
    StepKeepsInv(digest, s, event);
    RefusalExact(digest, s, event);
    StepLeads(digest, s, event);
  }

  lemma StepLeads(digest: Digest, s: State, event: Event)
    ensures Step(digest, s, event).leader
      == if event.TermBegun? then true else if event.TermEnded? then false else s.leader
  {
    match event
    case ChildrenRefreshed(kind, files) => AdvanceOutcome(digest, s.(store := s.store[kind := files]));
    case Committed(commit) => AdvanceOutcome(digest, s.(commit := commit));
    case TermBegun => AdvanceOutcome(digest, s.(leader := true, unavailable := None));
    case _ =>
  }

  lemma TermReads(digest: Digest, s: State)
    requires Inv(digest, s) && !s.modernAccepted
    ensures var t := Step(digest, s, TermBegun);
      t.leader && Get(t) == Ok(LeaderRead(digest, t, s.current))
  {
    TermBegunReads(digest, s);
    StepLeads(digest, s, TermBegun);
    StepMoves(digest, s, TermBegun);
    AdvanceOutcome(digest, s.(leader := true, unavailable := None));
  }

  /**
    From the start of its term, while no set ID was ever accepted, a leader can
    always read: the newest commit, if that resolves, else what it read before
    the last event. No change of a file or commit and no read error locks it out.
   */
  lemma {:induction false} LeaderReads(digest: Digest, namespace: string, before: seq<Event>, during: seq<Event>)
    requires TermEnded !in during && !Reached(digest, namespace, before + [TermBegun] + during).modernAccepted
    ensures var all := before + [TermBegun] + during;
      var s, t := Reached(digest, namespace, all[..|all| - 1]), Reached(digest, namespace, all);
      t.leader && Get(t) == Ok(LeaderRead(digest, t, s.current))
    decreases |during|
  {
    var all := before + [TermBegun] + during;
    var s, t := Reached(digest, namespace, all[..|all| - 1]), Reached(digest, namespace, all);
    ReachedInv(digest, namespace, all[..|all| - 1]);
    if during == [] {
      assert all[..|all| - 1] == before && all[|all| - 1] == TermBegun;
      StepMoves(digest, s, TermBegun);
      TermReads(digest, s);
    } else {
      var n := |during| - 1;
      assert all[..|all| - 1] == before + [TermBegun] + during[..n] && all[|all| - 1] == during[n];
      StepMoves(digest, s, during[n]);
      LeaderReads(digest, namespace, before, during[..n]);
      assert during[n] in during;
      LeaderStep(digest, s, during[n]);
    }
  }

  // ----- readiness

  /** While readable, a newest commit that does not resolve has left its error. */
  ghost predicate Reported(digest: Digest, s: State) {
    s.unavailable.None? && s.lastErr.None? ==>
      if s.commit.Some? then ResolvePending(digest, s) == Ok(s.current) else s.current == map[]
  }

  lemma AdvanceReports(digest: Digest, s: State)
    ensures ReadyIfResolved(digest, Advance(digest, s))
  {
    AdvanceOutcome(digest, s);
    if s.commit.Some? && !(s.commit.value.setID == "" && s.unavailable.Some?) && ResolvePending(digest, s).Err? {
      assert Advance(digest, s).lastErr.Some?;
    }
  }

  /** Ready exactly if it can be read and the newest commit resolves. */
  ghost predicate ReadyIfResolved(digest: Digest, t: State) {
    Reported(digest, t) && (Ready(t) <==> Get(t).Ok? && (t.commit.Some? ==> ResolvePending(digest, t).Ok?))
  }

  lemma RefreshReports(digest: Digest, s: State, kind: Kind, files: map<string, File>)
    ensures ReadyIfResolved(digest, OnChildren(digest, s, kind, files))
  {
    AdvanceReports(digest, s.(store := s.store[kind := files]));
  }

  lemma CommitReports(digest: Digest, s: State, commit: Option<Commit>)
    ensures ReadyIfResolved(digest, OnCommit(digest, s, commit))
  {
    AdvanceReports(digest, s.(commit := commit));
  }

  lemma TermReports(digest: Digest, s: State)
    requires Reported(digest, s)
    ensures Reported(digest, OnTermBegun(digest, s))
  {
    AdvanceReports(digest, s.(leader := true, unavailable := None));
  }

  lemma StepReports(digest: Digest, s: State, event: Event)
    requires Reported(digest, s)
    ensures Reported(digest, Step(digest, s, event))
    ensures event.ReadError? ==> !Ready(Step(digest, s, event))
    ensures event.ChildrenRefreshed? || event.Committed? ==> ReadyIfResolved(digest, Step(digest, s, event))
  {
    match event
    case ChildrenRefreshed(kind, files) => RefreshReports(digest, s, kind, files);
    case Committed(commit) => CommitReports(digest, s, commit);
    case TermBegun => TermReports(digest, s);
    case _ =>
  }

  /**
    A store that reports itself ready reads exactly what its newest commit
    resolves to, nothing if there is none. Right after a refresh or a commit it
    is ready exactly if it can be read and the newest commit resolves; right
    after a read error it is not.
   */
  lemma {:induction false} ReadyMeansResolved(digest: Digest, namespace: string, events: seq<Event>)
    ensures var t := Reached(digest, namespace, events);
      && Reported(digest, t)
      && (Ready(t) ==> if t.commit.Some? then Get(t) == ResolvePending(digest, t) else Get(t) == Ok(map[]))
      && (events != [] && events[|events| - 1].ReadError? ==> !Ready(t))
      && (events != [] && (events[|events| - 1].ChildrenRefreshed? || events[|events| - 1].Committed?) ==>
          (Ready(t) <==> Get(t).Ok? && (t.commit.Some? ==> ResolvePending(digest, t).Ok?)))
  {
    if events != [] {
      var n := |events| - 1;
      ReadyMeansResolved(digest, namespace, events[..n]);
      StepReports(digest, Reached(digest, namespace, events[..n]), events[n]);
    }
  }

  // ----- where `current` comes from

  /** `files` resolves the commit and store the run had after `k` events. */
  ghost predicate ResolvedAt(digest: Digest, namespace: string, events: seq<Event>, k: int, files: FileSet,
                             modern: bool)
  {
    0 <= k <= |events| &&
    var u := Reached(digest, namespace, events[..k]);
    && u.commit.Some? && (modern ==> u.commit.value.setID != "")
    && IsResolution(digest, namespace, u.store, u.commit.value, files)
  }

  lemma {:induction false} ReachedNamespace(digest: Digest, namespace: string, events: seq<Event>)
    ensures Reached(digest, namespace, events).namespace == namespace
  {
    if events != [] {
      ReachedNamespace(digest, namespace, events[..|events| - 1]);
      StepMoves(digest, Reached(digest, namespace, events[..|events| - 1]), events[|events| - 1]);
    }
  }

  /**
    In every reachable state `current` is empty or the complete, consistent and
    unaliased resolution of one commit against one earlier store; once a set ID
    was accepted, that commit carries one.
   */
  lemma {:induction false} CurrentIsOneResolution(digest: Digest, namespace: string, events: seq<Event>)
    ensures var t := Reached(digest, namespace, events);
      || (t.current == map[] && !t.modernAccepted)
      || exists k :: ResolvedAt(digest, namespace, events, k, t.current, t.modernAccepted)
  {
    if events != [] {
      var n := |events| - 1;
      var s, t := Reached(digest, namespace, events[..n]), Reached(digest, namespace, events);
      CurrentIsOneResolution(digest, namespace, events[..n]);
      ReachedInv(digest, namespace, events[..n]);
      ReachedNamespace(digest, namespace, events);
      StepMoves(digest, s, events[n]);
      ReachedInv(digest, namespace, events);
      assert events[..n + 1] == events;
      if t.current == s.current && t.modernAccepted == s.modernAccepted {
        if k :| ResolvedAt(digest, namespace, events[..n], k, s.current, s.modernAccepted) {
          assert events[..n][..k] == events[..k];
          assert ResolvedAt(digest, namespace, events, k, t.current, t.modernAccepted);
        }
      } else if !(t.current == map[] && !t.modernAccepted) {
        ResolveExact(digest, namespace, t.store, t.commit.value);
        assert ResolvedAt(digest, namespace, events, n + 1, t.current, t.modernAccepted);
      }
    }
  }

  /** A resolution that fails leaves the readable set as it was. */
  lemma FailedResolutionKeepsCurrent(digest: Digest, s: State, event: Event)
    requires var t := Step(digest, s, event); t.commit.Some? && ResolvePending(digest, t).Err?
    ensures Step(digest, s, event).current == s.current
  {
    StepMoves(digest, s, event);
  }

  // ----- the set-ID latch

  lemma {:induction false} RunKeepsLatches(digest: Digest, s: State, events: seq<Event>)
    ensures s.modernAccepted ==> Run(digest, s, events).modernAccepted
    ensures s.contentAccepted ==> Run(digest, s, events).contentAccepted
  {
    if events != [] {
      var n := |events| - 1;
      RunKeepsLatches(digest, s, events[..n]);
      StepMoves(digest, Run(digest, s, events[..n]), events[n]);
    }
  }

  lemma {:induction false} RunConcat(digest: Digest, s: State, a: seq<Event>, b: seq<Event>)
    ensures Run(digest, s, a + b) == Run(digest, Run(digest, s, a), b)
  {
    if b == [] {
      assert a + b == a;
    } else {
      var n := |b| - 1;
      assert (a + b)[..|a + b| - 1] == a + b[..n];
      RunConcat(digest, s, a, b[..n]);
    }
  }

  /**
    After a set carrying a set ID was accepted, through any events and leader
    terms: the latches stay, nothing is readable while the newest commit lacks
    a set ID, and what is readable resolves a commit that has one.
   */
  lemma SetIDLatch(digest: Digest, namespace: string, before: seq<Event>, after: seq<Event>)
    requires Reached(digest, namespace, before).modernAccepted
    ensures var t := Reached(digest, namespace, before + after);
      && t.modernAccepted
      && (Reached(digest, namespace, before).contentAccepted ==> t.contentAccepted)
      && (LacksSetID(t.commit) ==> Get(t).Err?)
      && exists k :: ResolvedAt(digest, namespace, before + after, k, t.current, true)
  {
    RunConcat(digest, Initial(namespace), before, after);
    RunKeepsLatches(digest, Reached(digest, namespace, before), after);
    ReachedInv(digest, namespace, before + after);
    CurrentIsOneResolution(digest, namespace, before + after);
  }

  // ----- the content-identity latch does not survive every run

  /** Unreadable while the newest commit has no content identity. */
  ghost predicate ContentLatched(s: State) { LacksContentIdentity(s.commit) ==> Get(s).Err? }

  /** A child refresh under which a commit with a plain set ID resolves. */
  ghost predicate ReopensPlain(digest: Digest, s: State, event: Event) {
    && event.ChildrenRefreshed? && s.commit.Some? && s.commit.value.setID != ""
    && !UsesContentIdentity(s.commit.value.setID)
    && Resolve(digest, s.namespace, s.store[event.kind := event.files], s.commit.value).Ok?
  }

  lemma ContentLatchOnRefresh(digest: Digest, s: State, kind: Kind, files: map<string, File>)
    requires Inv(digest, s) && s.contentAccepted && ContentLatched(s)
    ensures var event := ChildrenRefreshed(kind, files);
      ContentLatched(Step(digest, s, event)) <==> !ReopensPlain(digest, s, event)
  {
  }

  lemma ContentLatchOtherwise(digest: Digest, s: State, event: Event)
    requires Inv(digest, s) && s.contentAccepted && ContentLatched(s) && !event.ChildrenRefreshed?
    ensures ContentLatched(Step(digest, s, event))
  {
  }

  /**
    Exactly one kind of event reopens a store that refused a content-identity
    downgrade: a child refresh under which the downgraded commit, which still
    has a set ID, resolves.
   */
  lemma ContentLatchExact(digest: Digest, namespace: string, events: seq<Event>, event: Event)
    requires var s := Reached(digest, namespace, events); s.contentAccepted && ContentLatched(s)
    ensures var s := Reached(digest, namespace, events);
      ContentLatched(Step(digest, s, event)) <==> !ReopensPlain(digest, s, event)
  {
    ReachedInv(digest, namespace, events);
    var s := Reached(digest, namespace, events);
    if event.ChildrenRefreshed? {
      ContentLatchOnRefresh(digest, s, event.kind, event.files);
    } else {
      ContentLatchOtherwise(digest, s, event);
    }
  }

  lemma EmptyCommitResolves(digest: Digest, namespace: string, store: Store, setID: string)
    ensures Resolve(digest, namespace, store, Commit(setID, map[])) == Ok(map[])
  {
    var commit := Commit(setID, map[]);
    if Slots(commit) != [] {
      SlotsMembers(commit, Slots(commit)[0]);
    }
  }

  /** A run that reads a plain set after a content-verified one was accepted. */
  lemma ContentLatchCanBreak(digest: Digest, namespace: string)
    ensures var events := [Committed(Some(Commit(CONTENT_SET_PREFIX, map[]))),
                           Committed(Some(Commit("plain", map[]))),
                           ChildrenRefreshed(MapFile, map[])];
      var t := Reached(digest, namespace, events);
      t.contentAccepted && !ContentLatched(t)
  {
    var verified, plain := Commit(CONTENT_SET_PREFIX, map[]), Commit("plain", map[]);
    var e0, e1, e2 := Committed(Some(verified)), Committed(Some(plain)), ChildrenRefreshed(MapFile, map[]);
    assert plain.setID[0] == 'p' && CONTENT_SET_PREFIX[0] == 'c';
    RunThree(digest, Initial(namespace), e0, e1, e2);
    VerifiedIsAccepted(digest, namespace);
    var s1 := Step(digest, Initial(namespace), e0);
    PlainIsRefused(digest, s1, plain);
    RefreshReadsEmpty(digest, Step(digest, s1, e1), plain);
  }

  lemma {:induction false} RunThree(digest: Digest, s: State, e0: Event, e1: Event, e2: Event)
    ensures Run(digest, s, [e0, e1, e2]) == Step(digest, Step(digest, Step(digest, s, e0), e1), e2)
  {
    assert [e0, e1, e2][..2] == [e0, e1] && [e0, e1][..1] == [e0] && [e0][..0] == [];
    assert Run(digest, s, [e0]) == Step(digest, s, e0);
    assert Run(digest, s, [e0, e1]) == Step(digest, Step(digest, s, e0), e1);
  }

  lemma VerifiedIsAccepted(digest: Digest, namespace: string)
    ensures var s := Step(digest, Initial(namespace), Committed(Some(Commit(CONTENT_SET_PREFIX, map[]))));
      s.contentAccepted && !s.legacy
  {
    EmptyCommitResolves(digest, namespace, map[], CONTENT_SET_PREFIX);
  }

  lemma PlainIsRefused(digest: Digest, s: State, plain: Commit)
    requires s.contentAccepted && LacksContentIdentity(Some(plain))
    ensures Step(digest, s, Committed(Some(plain)))
      == s.(commit := Some(plain), unavailable := Some(ContentIdentityLost))
  {
  }

  lemma RefreshReadsEmpty(digest: Digest, s: State, plain: Commit)
    requires s.commit == Some(plain) && plain.setID != "" && plain == Commit(plain.setID, map[]) && !s.legacy
    ensures var t := Step(digest, s, ChildrenRefreshed(MapFile, map[]));
      t.commit == s.commit && Get(t) == Ok(map[]) && (s.contentAccepted ==> t.contentAccepted)
  {
    EmptyCommitResolves(digest, s.namespace, s.store[MapFile := map[]], plain.setID);
    AdvanceOutcome(digest, s.(store := s.store[MapFile := map[]]));
  }
}
