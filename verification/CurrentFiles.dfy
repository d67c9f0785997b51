/**
  The leader-term file authority and its exact-root sources. Every method does
  one call of the model; the roots it serves are never written to.
 */
module CurrentFiles {
  import opened Common
  import opened FileRoots
  import opened CurrentFilesModel
  import P = PublishedAuxModel
  import PublishedAuxFiles

  datatype FileError = Unavailable(cause: P.AuxError) | Refused(reason: string)

  class Authority {
    const published: PublishedAuxFiles.Published?
    const emptyRoot: MapRoot
    const sameRoot: SameRoot
    var generation: nat
    var active: bool
    var hasAccepted: bool
    var accepted: FileMap?
    var acceptedRoot: MapRoot?
    var acceptedSnapshot: Option<Artifact>
    var acceptedOutput: Option<Output>
    var hasConfirmed: bool
    var confirmed: FileMap?
    var confirmedRoot: MapRoot?
    var confirmedSnapshot: Option<Artifact>
    var confirmedOutput: Option<Output>
    var pendingPlanID: string

    /** One cell: its map is its root's, and a snapshot projects to exactly those files. */
    ghost predicate CellValid(has: bool, files: FileMap?, root: MapRoot?, snapshot: Option<Artifact>,
                              output: Option<Output>)
      reads root, if root == null then {} else {root.files}
    {
      if has then
        && root != null && root.seal == root && files == root.files
        && (snapshot.Some? ==> snapshot.value.projection == Ok(root.files.entries))
      else files == null && root == null && snapshot.None? && output.None?
    }

    ghost function Cell(has: bool, root: MapRoot?, snapshot: Option<Artifact>, output: Option<Output>): Option<Baseline>
      reads if root == null then {} else {root.files}
    {
      if has && root != null then Some(Baseline(root.files.entries, snapshot, output)) else None
    }

    ghost function Roots(): set<object>
      reads this
    {
      {emptyRoot, emptyRoot.files}
      + (if acceptedRoot == null then {} else {acceptedRoot, acceptedRoot.files})
      + (if confirmedRoot == null then {} else {confirmedRoot, confirmedRoot.files})
    }

    ghost predicate Valid()
      reads this, Roots()
    {
      && generation < GENERATIONS && (pendingPlanID != "" ==> hasAccepted)
      && emptyRoot.seal == emptyRoot && emptyRoot.files.entries == map[]
      && CellValid(hasAccepted, accepted, acceptedRoot, acceptedSnapshot, acceptedOutput)
      && CellValid(hasConfirmed, confirmed, confirmedRoot, confirmedSnapshot, confirmedOutput)
    }

    ghost function Model(): CurrentFilesModel.Authority
      reads this, Roots()
    {
      CurrentFilesModel.Authority(generation, active,
        Cell(hasAccepted, acceptedRoot, acceptedSnapshot, acceptedOutput),
        Cell(hasConfirmed, confirmedRoot, confirmedSnapshot, confirmedOutput),
        pendingPlanID)
    }

    ghost function Store(): set<object>
      reads this, published
    {
      if published == null then {} else {published, published.currentRoot, published.currentRoot.files}
    }

    ghost predicate StoreValid()
      reads this, published, Store()
    {
      published != null ==> published.Valid()
    }

    ghost function PublishedModel(): Option<P.State>
      reads this, published, Store()
    {
      if published == null then None else Some(published.Model())
    }

    ghost function WorldModel(): World
      reads this, Roots(), published, Store()
    {
      World(Model(), PublishedModel())
    }

    constructor (published: PublishedAuxFiles.Published?, sameRoot: SameRoot)
      ensures Valid() && Model() == InitialAuthority() && this.published == published && this.sameRoot == sameRoot
      ensures fresh(Roots())
    {
      this.published, this.sameRoot := published, sameRoot;
      generation, active, pendingPlanID := 0, false, "";
      hasAccepted, accepted, acceptedRoot, acceptedSnapshot, acceptedOutput := false, null, null, None, None;
      hasConfirmed, confirmed, confirmedRoot, confirmedSnapshot, confirmedOutput := false, null, null, None, None;
      emptyRoot := new MapRoot(null);
    }

    method ClearCells()
      modifies this`hasAccepted, this`accepted, this`acceptedRoot, this`acceptedSnapshot, this`acceptedOutput,
               this`hasConfirmed, this`confirmed, this`confirmedRoot, this`confirmedSnapshot, this`confirmedOutput,
               this`pendingPlanID
      ensures !hasAccepted && accepted == null && acceptedRoot == null && acceptedSnapshot == None
        && acceptedOutput == None
      ensures !hasConfirmed && confirmed == null && confirmedRoot == null && confirmedSnapshot == None
        && confirmedOutput == None
      ensures pendingPlanID == ""
    {
      hasAccepted, accepted, acceptedRoot, acceptedSnapshot, acceptedOutput := false, null, null, None, None;
      hasConfirmed, confirmed, confirmedRoot, confirmedSnapshot, confirmedOutput := false, null, null, None, None;
      pendingPlanID := "";
    }

    method BeginTerm() returns (term: nat)
      requires Valid() && StoreValid()
      modifies this, published
      ensures Valid() && StoreValid() && term == generation
      ensures Model() == Apply(sameRoot, old(Model()), CurrentFilesModel.BeginTerm)
      ensures published != null ==> published.Model() == P.Step(published.digest, old(published.Model()), P.TermBegun)
    {
      generation := (generation + 1) % GENERATIONS;
      active := true;
      ClearCells();
      if published != null {
        published.BeginLeaderTerm();
      }
      return generation;
    }

    method EndTerm(term: nat)
      requires Valid() && StoreValid()
      modifies this, published
      ensures Valid() && StoreValid()
      ensures Model() == Apply(sameRoot, old(Model()), CurrentFilesModel.EndTerm(term))
      ensures published != null ==>
        published.Model()
        == if InTerm(old(Model()), term) then P.Step(published.digest, old(published.Model()), P.TermEnded)
           else old(published.Model())
    {
      if !active || generation != term {
        return;
      }
      active := false;
      ClearCells();
      if published != null {
        published.EndLeaderTerm();
      }
    }

    /** Takes `files` as the working baseline; the root changes only with its contents. */
    method SetAccepted(planID: string, files: FileMap, snapshot: Option<Artifact>, output: Option<Output>)
      requires Valid() && (snapshot.Some? ==> snapshot.value.projection == Ok(files.entries))
      modifies this`hasAccepted, this`accepted, this`acceptedRoot, this`acceptedSnapshot, this`acceptedOutput,
               this`pendingPlanID
      ensures Valid()
      ensures Model() == old(Model()).(accepted := Some(Baseline(files.entries, snapshot, output)),
                                       pendingPlanID := planID)
      ensures acceptedRoot == old(acceptedRoot) || (fresh(acceptedRoot) && fresh(acceptedRoot.files))
      ensures old(hasAccepted) ==> (acceptedRoot == old(acceptedRoot)
                                    <==> old(acceptedRoot.files.entries) == files.entries)
    {
      var root := RetainRoot(acceptedRoot, files);
      hasAccepted, accepted, acceptedRoot := true, root.files, root;
      acceptedSnapshot, acceptedOutput, pendingPlanID := snapshot, output, planID;
    }

    method Accept(term: nat, planID: string, files: FileMap)
      requires Valid()
      modifies this
      ensures Valid() && Model() == Apply(sameRoot, old(Model()), CurrentFilesModel.Accept(term, planID, files.entries))
      ensures fresh(Roots() - old(Roots()))
    {
      if !active || generation != term {
        return;
      }
      SetAccepted(planID, files, None, None);
    }

    method AcceptSnapshot(term: nat, planID: string, snapshot: Option<Artifact>) returns (problem: Option<string>)
      requires Valid()
      modifies this
      ensures Valid() && Model() == Apply(sameRoot, old(Model()),
                                          CurrentFilesModel.AcceptSnapshot(term, planID, snapshot))
      ensures problem.None? <==> Usable(snapshot) && InTerm(old(Model()), term)
    {
      if snapshot.None? {
        return Some("accepting auxiliary snapshot: snapshot is nil");
      }
      if !snapshot.value.authentic || snapshot.value.projection.Err? {
        return Some("accepting auxiliary snapshot");
      }
      if !active || generation != term {
        return Some("accepting auxiliary snapshot: leader term is not active");
      }
      var files := new FileMap(snapshot.value.projection.value);
      SetAccepted(planID, files, snapshot, None);
      return None;
    }

    method AcceptOutput(term: nat, output: Output) returns (problem: Option<string>)
      requires Valid()
      modifies this
      ensures Valid() && Model() == Apply(sameRoot, old(Model()), CurrentFilesModel.AcceptOutput(term, output))
      ensures problem.None? <==> UsableOutput(output) && InTerm(old(Model()), term)
    {
      if !output.authentic || output.artifact.Err? || output.planID.Err? || output.artifact.value.projection.Err? {
        return Some("accepting render output");
      }
      if !active || generation != term {
        return Some("accepting render output: leader term is not active");
      }
      var files := new FileMap(output.artifact.value.projection.value);
      SetAccepted(output.planID.value, files, Some(output.artifact.value), Some(output));
      return None;
    }

    method KeepAccepted()
      requires Valid() && hasAccepted
      modifies this`hasConfirmed, this`confirmed, this`confirmedRoot, this`confirmedSnapshot, this`confirmedOutput,
               this`pendingPlanID
      ensures Valid() && Model() == Settle(old(Model()), true)
    {
      confirmed, confirmedRoot, confirmedSnapshot, confirmedOutput :=
        accepted, acceptedRoot, acceptedSnapshot, acceptedOutput;
      hasConfirmed := true;
      pendingPlanID := "";
    }

    method RestoreConfirmed()
      requires Valid() && hasAccepted
      modifies this`hasAccepted, this`accepted, this`acceptedRoot, this`acceptedSnapshot, this`acceptedOutput,
               this`pendingPlanID
      ensures Valid() && Model() == Settle(old(Model()), false)
    {
      pendingPlanID := "";
      if !hasConfirmed {
        hasAccepted, accepted, acceptedRoot, acceptedSnapshot, acceptedOutput := false, null, null, None, None;
        return;
      }
      accepted, acceptedRoot, acceptedSnapshot, acceptedOutput :=
        confirmed, confirmedRoot, confirmedSnapshot, confirmedOutput;
    }

    method Confirm(term: nat, planID: string)
      requires Valid()
      modifies this
      ensures Valid() && Model() == Apply(sameRoot, old(Model()), CurrentFilesModel.Confirm(term, planID))
    {
      if !active || generation != term || acceptedOutput.Some? || planID == "" || planID != pendingPlanID {
        return;
      }
      KeepAccepted();
    }

    method ConfirmOutput(term: nat, output: Output) returns (problem: Option<string>)
      requires Valid()
      modifies this
      ensures Valid() && Model() == Apply(sameRoot, old(Model()), CurrentFilesModel.ConfirmOutput(term, output))
      ensures problem.None? <==>
        output.authentic && (InTerm(old(Model()), term) && old(acceptedOutput).Some? ==>
                             sameRoot(old(acceptedOutput).value, output).Ok?)
    {
      if !output.authentic {
        return Some("confirming render output");
      }
      if !active || generation != term || acceptedOutput.None? {
        return None;
      }
      var same := sameRoot(acceptedOutput.value, output);
      if same.Err? {
        return Some(same.error);
      }
      if !same.value {
        return None;
      }
      KeepAccepted();
      return None;
    }

    method Rollback(term: nat, planID: string)
      requires Valid()
      modifies this
      ensures Valid() && Model() == Apply(sameRoot, old(Model()), CurrentFilesModel.Rollback(term, planID))
    {
      if !active || generation != term || acceptedOutput.Some? || planID == "" || planID != pendingPlanID {
        return;
      }
      RestoreConfirmed();
    }

    method RollbackOutput(term: nat, output: Output) returns (problem: Option<string>)
      requires Valid()
      modifies this
      ensures Valid() && Model() == Apply(sameRoot, old(Model()), CurrentFilesModel.RollbackOutput(term, output))
      ensures problem.None? <==>
        output.authentic && (InTerm(old(Model()), term) && old(acceptedOutput).Some? ==>
                             sameRoot(old(acceptedOutput).value, output).Ok?)
    {
      if !output.authentic {
        return Some("rolling back render output");
      }
      if !active || generation != term || acceptedOutput.None? {
        return None;
      }
      var same := sameRoot(acceptedOutput.value, output);
      if same.Err? {
        return Some(same.error);
      }
      if !same.value {
        return None;
      }
      RestoreConfirmed();
      return None;
    }

    /** The baseline of a root, as captured. */
    ghost function FilesOf(captured: Option<Capture>): Option<FileSet>
      reads if captured.None? then {} else {captured.value.root.files}
    {
      if captured.Some? then Some(captured.value.root.files.entries) else None
    }

    /** The first half of a read, under the authority's lock: the working baseline of this generation. */
    method CaptureAccepted(term: nat) returns (captured: Option<Capture>)
      requires Valid()
      ensures FilesOf(captured) == Captured(Model(), term)
      ensures captured.Some? ==> captured.value.Sound()
    {
      if active && generation == term && hasAccepted {
        return Some(Capture(acceptedRoot, acceptedSnapshot));
      }
      return None;
    }

    /**
      The second half of a plain read, under the store's lock, at any later
      time: a private copy of what was captured, or of the published set.
     */
    method FinishSnapshot(captured: Option<Capture>) returns (r: Result<FileMap, FileError>)
      requires StoreValid() && (captured.Some? ==> captured.value.Sound())
      ensures r.Ok? ==> fresh(r.value) && Read(FilesOf(captured), PublishedModel()) == Ok(r.value.entries)
      ensures r.Err? ==>
        && Read(FilesOf(captured), PublishedModel()).Err?
        && r.error == Unavailable(Read(FilesOf(captured), PublishedModel()).error)
    {
      if captured.Some? {
        var files: map<string, string>;
        if captured.value.snapshot.Some? {
          if captured.value.snapshot.value.projection.Err? {
            return Err(Refused("projecting accepted auxiliary files"));
          }
          files := captured.value.snapshot.value.projection.value;
        } else {
          files := captured.value.root.files.entries;
        }
        if published != null && published.unavailable.Some? {
          return Err(Unavailable(published.unavailable.value));
        }
        var copy := new FileMap(files);
        return Ok(copy);
      }
      if published == null {
        var empty := new FileMap(map[]);
        return Ok(empty);
      }
      var current := published.Read();
      match current
      case Ok(copy) => return Ok(copy);
      case Err(cause) => return Err(Unavailable(cause));
    }

    /** The second half of an exact read: a source that holds the root itself instead of a copy. */
    method FinishExact(term: nat, captured: Option<Capture>) returns (r: Result<Source, FileError>)
      requires StoreValid() && emptyRoot.seal == emptyRoot && emptyRoot.files.entries == map[]
      requires captured.Some? ==> captured.value.Sound()
      ensures r.Ok? ==> fresh(r.value) && r.value.Serves(this, term, Read(FilesOf(captured), PublishedModel()))
      ensures r.Ok? ==>
        r.value.root == if captured.Some? then captured.value.root
                        else if published == null then emptyRoot
                        else published.currentRoot
      ensures Read(FilesOf(captured), PublishedModel()).Err? ==> r.Err?
      ensures r.Err? && term != 0 ==>
        && Read(FilesOf(captured), PublishedModel()).Err?
        && r.error == Unavailable(Read(FilesOf(captured), PublishedModel()).error)
    {
      if captured.Some? {
        if published != null && published.unavailable.Some? {
          return Err(Unavailable(published.unavailable.value));
        }
        var source := new Source(this, term, captured.value.root);
        var problem := source.Validate();
        if problem.Some? {
          return Err(Refused(problem.value));
        }
        return Ok(source);
      }
      if published == null {
        var source := new Source(this, term, emptyRoot);
        return Ok(source);
      }
      if published.unavailable.Some? {
        return Err(Unavailable(published.unavailable.value));
      }
      var source := new Source(this, term, published.currentRoot);
      return Ok(source);
    }

    /** The plain form with nothing in between. */
    method TakeSnapshot(term: nat) returns (r: Result<FileMap, FileError>)
      requires Valid() && StoreValid()
      ensures r.Ok? ==> fresh(r.value) && CurrentFilesModel.Snapshot(WorldModel(), term) == Ok(r.value.entries)
      ensures r.Err? ==>
        && CurrentFilesModel.Snapshot(WorldModel(), term).Err?
        && r.error == Unavailable(CurrentFilesModel.Snapshot(WorldModel(), term).error)
    {
      var captured := CaptureAccepted(term);
      r := FinishSnapshot(captured);
    }

    /** The exact form with nothing in between. */
    method ExactSource(term: nat) returns (r: Result<Source, FileError>)
      requires Valid() && StoreValid()
      ensures r.Ok? ==> fresh(r.value) && r.value.Serves(this, term, CurrentFilesModel.Snapshot(WorldModel(), term))
      ensures CurrentFilesModel.Snapshot(WorldModel(), term).Err? ==> r.Err?
      ensures r.Err? && term != 0 ==>
        && CurrentFilesModel.Snapshot(WorldModel(), term).Err?
        && r.error == Unavailable(CurrentFilesModel.Snapshot(WorldModel(), term).error)
    {
      var captured := CaptureAccepted(term);
      r := FinishExact(term, captured);
    }

    /**
      Outside any term: the published root, unless a term has reached the
      generation that stands for none; then that term's baseline.
     */
    method PublishedExactSource() returns (r: Result<Source, FileError>)
      requires Valid() && StoreValid()
      ensures Captured(Model(), PUBLISHED_GENERATION).None? ==>
        && (r.Ok? <==> published == null || published.unavailable.None?)
        && (r.Ok? ==> r.value.root == (if published == null then emptyRoot else published.currentRoot))
      ensures r.Ok? ==>
        fresh(r.value) && r.value.Serves(this, PUBLISHED_GENERATION,
                                         CurrentFilesModel.Snapshot(WorldModel(), PUBLISHED_GENERATION))
      ensures r.Err? ==>
        && CurrentFilesModel.Snapshot(WorldModel(), PUBLISHED_GENERATION).Err?
        && r.error == Unavailable(CurrentFilesModel.Snapshot(WorldModel(), PUBLISHED_GENERATION).error)
    {
      var captured := CaptureAccepted(PUBLISHED_GENERATION);
      r := FinishExact(PUBLISHED_GENERATION, captured);
    }
  }

  /** A root and the snapshot it was projected from, if any. */
  datatype Capture = Capture(root: MapRoot, snapshot: Option<Artifact>) {
    ghost predicate Sound()
      reads root, root.files
    {
      root.seal == root && (snapshot.Some? ==> snapshot.value.projection == Ok(root.files.entries))
    }
  }

  /** A root-tracked source of current files. */
  class Source {
    const authority: Authority
    const generation: nat
    const root: MapRoot
    var seal: Source?

    constructor (authority: Authority, generation: nat, root: MapRoot)
      ensures this.authority == authority && this.generation == generation && this.root == root && seal == this
    {
      this.authority, this.generation, this.root := authority, generation, root;
      seal := this;
    }

    /** Made by `authority` for `term`, on a sealed root that holds exactly `files`. */
    ghost predicate Serves(authority: Authority, term: nat, files: Result<FileSet, P.AuxError>)
      reads this, root, root.files
    {
      && seal == this && this.authority == authority && generation == term && root.seal == root
      && files == Ok(root.files.entries)
    }

    ghost predicate Authentic()
      reads this, root
    {
      seal == this && generation != 0 && root.seal == root
    }

    method Validate() returns (problem: Option<string>)
      ensures problem.None? <==> Authentic()
    {
      if seal != this || generation == 0 {
        return Some("currentFiles source has invalid provenance");
      }
      if root.seal != root {
        return Some("currentFiles source has an invalid exact root");
      }
      return None;
    }

    method Materialize() returns (r: Result<FileMap, string>)
      ensures r.Ok? <==> Authentic()
      ensures r.Ok? ==> fresh(r.value) && r.value.entries == root.files.entries
    {
      var problem := Validate();
      if problem.Some? {
        return Err(problem.value);
      }
      var copy := new FileMap(root.files.entries);
      return Ok(copy);
    }

    /** True exactly when authority, generation and contents agree. */
    method SameRoot(other: Source) returns (r: Result<bool, string>)
      ensures r.Ok? <==> Authentic() && other.Authentic()
      ensures r.Ok? ==>
        (r.value <==>
         && authority == other.authority && generation == other.generation
         && root.files.entries == other.root.files.entries)
    {
      var problem := Validate();
      if problem.Some? {
        return Err(problem.value);
      }
      problem := other.Validate();
      if problem.Some? {
        return Err(problem.value);
      }
      if authority != other.authority || generation != other.generation {
        return Ok(false);
      }
      if root == other.root {
        return Ok(true);
      }
      return Ok(root.files.entries == other.root.files.entries);
    }
  }

  /**
    The two forms agree, whatever happened to the store since the baseline was
    captured: for a non-zero generation both fail with the same error, or the
    exact source materialises to the same files as the plain snapshot.
   */
  method FinishBothWays(authority: Authority, term: nat, captured: Option<Capture>)
    returns (plain: Result<FileMap, FileError>, exact: Result<FileMap, FileError>)
    requires authority.StoreValid() && authority.emptyRoot.seal == authority.emptyRoot
      && authority.emptyRoot.files.entries == map[]
    requires captured.Some? ==> captured.value.Sound()
    requires term != 0
    ensures plain.Ok? <==> exact.Ok?
    ensures plain.Ok? ==> plain.value.entries == exact.value.entries
    ensures plain.Err? ==> plain.error == exact.error
  {
    plain := authority.FinishSnapshot(captured);
    var source := authority.FinishExact(term, captured);
    match source
    case Err(problem) => exact := Err(problem);
    case Ok(s) =>
      var files := s.Materialize();
      exact := Ok(files.value);
  }

  /** In every valid state both forms of one read agree. */
  method ReadBothWays(authority: Authority, term: nat)
    returns (plain: Result<FileMap, FileError>, exact: Result<FileMap, FileError>)
    requires authority.Valid() && authority.StoreValid() && term != 0
    ensures plain.Ok? <==> exact.Ok?
    ensures plain.Ok? ==> plain.value.entries == exact.value.entries
    ensures plain.Err? ==> plain.error == exact.error
  {
    var captured := authority.CaptureAccepted(term);
    plain, exact := FinishBothWays(authority, term, captured);
  }

  /**
    After any run of calls both forms read what the two cells of the
    specification and the store say.
   */
  method ReadAfter(authority: Authority, ghost calls: seq<Call>, term: nat)
    returns (plain: Result<FileMap, FileError>, exact: Result<Source, FileError>)
    requires authority.Valid() && authority.StoreValid() && term != 0
    requires authority.Model() == ApplyAll(authority.sameRoot, InitialAuthority(), calls)
    ensures var said := CellsRead(SpecifyAll(authority.sameRoot, calls).0, term, authority.PublishedModel());
      match said
      case Ok(files) =>
        plain.Ok? && plain.value.entries == files && exact.Ok? && exact.value.root.files.entries == files
      case Err(cause) => plain == Err(Unavailable(cause)) && exact == Err(Unavailable(cause))
  {
    ReadIsOfCells(authority.sameRoot, calls, authority.PublishedModel(), term);
    plain := authority.TakeSnapshot(term);
    exact := authority.ExactSource(term);
  }

  /** A map handed in may be written to afterwards: the authority keeps what it accepted. */
  method ScribbleAfterAccept(authority: Authority, term: nat, planID: string, files: FileMap, scribble: FileSet)
    requires authority.Valid() && files !in authority.Roots()
    modifies authority, files
    ensures authority.Valid()
    ensures authority.Model() == Apply(authority.sameRoot, old(authority.Model()),
                                       CurrentFilesModel.Accept(term, planID, old(files.entries)))
  {
    authority.Accept(term, planID, files);
    files.entries := scribble;
  }

  /** A materialised map may be written to: the root it came from stays, and materialises as before. */
  method ScribbleOnMaterialized(source: Source, scribble: FileSet) returns (again: Result<FileMap, string>)
    ensures source.root.files.entries == old(source.root.files.entries)
    ensures again.Ok? <==> source.Authentic()
    ensures again.Ok? ==> again.value.entries == old(source.root.files.entries)
  {
    var taken := source.Materialize();
    if taken.Ok? {
      taken.value.entries := scribble;
    }
    again := source.Materialize();
  }

  /** Whatever a caller writes into a snapshot it took, the authority serves the same files as before. */
  method ScribbleOnSnapshot(authority: Authority, term: nat, scribble: FileSet)
    requires authority.Valid() && authority.StoreValid()
    ensures authority.Valid() && authority.StoreValid() && authority.WorldModel() == old(authority.WorldModel())
  {
    var taken := authority.TakeSnapshot(term);
    if taken.Ok? {
      taken.value.entries := scribble;
    }
  }
}
