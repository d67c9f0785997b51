/** The published auxiliary store: every method does one step of the model. */
module PublishedAuxFiles {
  import opened Common
  import opened FileRoots
  import opened PublishedAuxModel

  lemma {:induction false} KindSlotsPrefix(commit: Commit, kind: Kind, fields: seq<Field>, f: nat)
    requires f <= |fields|
    ensures KindSlots(commit, kind, fields[..f]) <= KindSlots(commit, kind, fields)
    decreases |fields| - f
  {
    if f == |fields| {
      assert fields[..f] == fields;
    } else {
      KindSlotsPrefix(commit, kind, fields, f + 1);
      assert fields[..f + 1][..f] == fields[..f];
    }
  }

  lemma KindSlotsStep(commit: Commit, kind: Kind, fields: seq<Field>, f: nat)
    requires f < |fields|
    ensures KindSlots(commit, kind, fields[..f + 1])
         == KindSlots(commit, kind, fields[..f]) + FieldSlots(kind, fields[f], commit.Refs(fields[f]))
  {
    assert fields[..f + 1][..f] == fields[..f];
  }

  lemma {:induction false} FieldsNext(c: Commit, kind: Kind, fields: seq<Field>, f: nat, earlier: seq<Slot>)
    requires f < |fields|
    ensures earlier + KindSlots(c, kind, fields[..f + 1])
      == earlier + KindSlots(c, kind, fields[..f]) + FieldSlots(kind, fields[f], c.Refs(fields[f]))
  {
    KindSlotsStep(c, kind, fields, f);
    Reassociate(earlier, KindSlots(c, kind, fields[..f]), FieldSlots(kind, fields[f], c.Refs(fields[f])));
  }

  lemma Reassociate(a: seq<Slot>, b: seq<Slot>, c: seq<Slot>)
    ensures a + (b + c) == (a + b) + c
  {
  }

  lemma {:induction false} SlotsOfPrefix(commit: Commit, kinds: seq<Kind>, k: nat)
    requires k <= |kinds|
    ensures SlotsOf(commit, kinds[..k]) <= SlotsOf(commit, kinds)
    decreases |kinds| - k
  {
    if k == |kinds| {
      assert kinds[..k] == kinds;
    } else {
      SlotsOfPrefix(commit, kinds, k + 1);
      assert kinds[..k + 1][..k] == kinds[..k];
    }
  }

  lemma SlotsGrow(commit: Commit, kinds: seq<Kind>, k: nat)
    requires k < |kinds|
    ensures SlotsOf(commit, kinds[..k + 1]) <= SlotsOf(commit, kinds)
    ensures SlotsOf(commit, kinds[..k + 1])
      == SlotsOf(commit, kinds[..k]) + KindSlots(commit, kinds[k], FieldsOf(kinds[k]))
  {
    SlotsOfPrefix(commit, kinds, k + 1);
    assert kinds[..k + 1][..k] == kinds[..k];
  }

  lemma EveryFieldHasAKind(field: Field)
    ensures exists k, f :: 0 <= k < |KINDS| && 0 <= f < |FieldsOf(KINDS[k])| && FieldsOf(KINDS[k])[f] == field
  {
    match field
    case MapFiles => assert FieldsOf(KINDS[0])[0] == field;
    case SslCertificates => assert FieldsOf(KINDS[1])[0] == field;
    case SslCaFiles => assert FieldsOf(KINDS[1])[1] == field;
    case GeneralFiles => assert FieldsOf(KINDS[2])[0] == field;
    case CrtListFiles => assert FieldsOf(KINDS[3])[0] == field;
  }

  /** Compares set IDs and the reference list of every field. */
  method CommitsEqual(a: Option<Commit>, b: Option<Commit>) returns (equal: bool)
    ensures equal <==> CommitsAgree(a, b)
  {
    if a.None? || b.None? {
      return a == b;
    }
    if a.value.setID != b.value.setID {
      return false;
    }
    for k := 0 to |KINDS|
      invariant forall j, f :: 0 <= j < k && 0 <= f < |FieldsOf(KINDS[j])| ==>
        a.value.Refs(FieldsOf(KINDS[j])[f]) == b.value.Refs(FieldsOf(KINDS[j])[f])
    {
      var fields := FieldsOf(KINDS[k]);
      for f := 0 to |fields|
        invariant forall g :: 0 <= g < f ==> a.value.Refs(fields[g]) == b.value.Refs(fields[g])
      {
        if a.value.Refs(fields[f]) != b.value.Refs(fields[f]) {
          return false;
        }
      }
    }
    forall field: Field ensures a.value.Refs(field) == b.value.Refs(field) {
      EveryFieldHasAKind(field);
    }
    return true;
  }

  /** The first CA reference that is also committed as a certificate. */
  method AliasedSecretReference(namespace: string, commit: Commit) returns (alias: Option<Ref>)
    ensures alias == FirstAlias(commit.Refs(SslCertificates), commit.Refs(SslCaFiles), namespace)
  {
    var certificates, authorities := commit.Refs(SslCertificates), commit.Refs(SslCaFiles);
    if |certificates| == 0 || |authorities| == 0 {
      return None;
    }
    var seen: set<Ref> := {};
    for i := 0 to |certificates|
      invariant seen == set certificate | certificate in certificates[..i] :: InNamespace(certificate, namespace)
    {
      assert certificates[..i + 1] == certificates[..i] + [certificates[i]];
      seen := seen + {InNamespace(certificates[i], namespace)};
    }
    assert certificates[..|certificates|] == certificates;
    for i := 0 to |authorities|
      invariant FirstAlias(certificates, authorities, namespace)
        == FirstAlias(certificates, authorities[i..], namespace)
    {
      var ref := InNamespace(authorities[i], namespace);
      if ref in seen {
        return Some(ref);
      }
    }
    return None;
  }

  class Published {
    const namespace: string
    const digest: Digest
    var commit: Option<Commit>
    var byKind: Store
    var current: FileMap
    var currentRoot: MapRoot
    var ready: bool
    var legacy: bool
    var leader: bool
    var modernAccepted: bool
    var contentAccepted: bool
    var lastErr: Option<AuxError>
    var unavailable: Option<AuxError>

    ghost predicate Valid()
      reads this, currentRoot
    {
      currentRoot.seal == currentRoot && current == currentRoot.files
    }

    ghost function Model(): State
      reads this, currentRoot, currentRoot.files
    {
      State(namespace, commit, byKind, currentRoot.files.entries, ready, legacy, leader,
            modernAccepted, contentAccepted, lastErr, unavailable)
    }

    constructor (namespace: string, digest: Digest)
      ensures Valid() && Model() == Initial(namespace) && this.digest == digest
      ensures fresh(currentRoot) && fresh(currentRoot.files)
    {
      this.namespace, this.digest := namespace, digest;
      commit, byKind := None, map[];
      ready, legacy, leader, modernAccepted, contentAccepted := false, false, false, false, false;
      lastErr, unavailable := None, None;
      var root := new MapRoot(null);
      current, currentRoot := root.files, root;
    }

    /** A copy of the current set: writing to it reaches no root. */
    method Read() returns (r: Result<FileMap, AuxError>)
      requires Valid()
      ensures r.Ok? <==> Get(Model()).Ok?
      ensures r.Ok? ==> fresh(r.value) && Get(Model()) == Ok(r.value.entries)
      ensures r.Err? ==> Get(Model()) == Err(r.error)
    {
      if unavailable.Some? {
        return Err(unavailable.value);
      }
      var copy := new FileMap(currentRoot.files.entries);
      return Ok(copy);
    }

    method ReadinessError() returns (problem: Option<AuxError>)
      ensures problem == PublishedAuxModel.ReadinessError(Model())
    {
      if lastErr.Some? {
        return lastErr;
      }
      if unavailable.Some? {
        return unavailable;
      }
      if ready {
        return None;
      }
      return Some(NothingTaken);
    }

    /** Whether a committed reference of this kind changed, appeared or disappeared. */
    method LegacyReferencesChanged(gvr: Kind, files: map<string, File>) returns (changed: bool)
      ensures changed <==> ReferencesChanged(Model(), gvr, files)
    {
      if commit.None? {
        return false;
      }
      var fields := FieldsOf(gvr);
      for f := 0 to |fields|
        invariant forall g, ref :: 0 <= g < f && ref in commit.value.Refs(fields[g]) ==>
          Find(byKind, gvr, ref.name) == (if ref.name in files then Some(files[ref.name]) else None)
      {
        var refs := commit.value.Refs(fields[f]);
        for i := 0 to |refs|
          invariant forall j :: 0 <= j < i ==>
            Find(byKind, gvr, refs[j].name) == (if refs[j].name in files then Some(files[refs[j].name]) else None)
        {
          var before := Find(byKind, gvr, refs[i].name);
          var after := if refs[i].name in files then Some(files[refs[i].name]) else None;
          if before != after {
            assert fields[f] in FieldsOf(gvr) && refs[i] in commit.value.Refs(fields[f]);
            return true;
          }
        }
      }
      return false;
    }

    ghost function Resolved(setID: string, slots: seq<Slot>): Result<Progress, AuxError>
      reads this
    {
      ResolveSlots(digest, namespace, byKind, setID, slots)
    }

    /** One more reference. */
    lemma ResolvedStep(setID: string, slots: seq<Slot>, slot: Slot)
      requires Resolved(setID, slots).Ok?
      ensures Resolved(setID, slots + [slot])
        == ResolveSlot(digest, namespace, byKind, setID, Resolved(setID, slots).value, slot)
    {
    }

    /** A reference that fails decides the whole. */
    lemma FailsFrom(setID: string, part: seq<Slot>, whole: seq<Slot>)
      requires part <= whole && Resolved(setID, part).Err?
      ensures Resolved(setID, whole) == Resolved(setID, part)
    {
      assert whole == part + whole[|part|..];
      FailureSticks(digest, namespace, byKind, setID, part, whole[|part|..]);
    }

    lemma FailsOverall(setID: string, earlier: seq<Slot>, part: seq<Slot>, whole: seq<Slot>)
      requires part <= whole && Resolved(setID, earlier + part).Err?
      ensures Resolved(setID, earlier + whole) == Resolved(setID, earlier + part)
    {
      FailsFrom(setID, earlier + part, earlier + whole);
    }

    lemma ResolvedNext(setID: string, earlier: seq<Slot>, all: seq<Slot>, i: nat, progress: Progress)
      requires i < |all| && Resolved(setID, earlier + all[..i]) == Ok(progress)
      ensures var next := ResolveSlot(digest, namespace, byKind, setID, progress, all[i]);
        && Resolved(setID, earlier + all[..i + 1]) == next
        && (next.Err? ==> Resolved(setID, earlier + all) == next)
    {
      assert earlier + all[..i + 1] == earlier + all[..i] + [all[i]];
      ResolvedStep(setID, earlier + all[..i], all[i]);
      if Resolved(setID, earlier + all[..i + 1]).Err? {
        FailsOverall(setID, earlier, all[..i + 1], all);
      }
    }

    /** Resolves the references of one field on top of those resolved before. */
    method ResolveField(setID: string, kind: Kind, field: Field, refs: seq<Ref>, ghost earlier: seq<Slot>,
                        start: Progress)
      returns (r: Result<Progress, AuxError>)
      requires Resolved(setID, earlier) == Ok(start)
      ensures r == Resolved(setID, earlier + FieldSlots(kind, field, refs))
    {
      ghost var all := FieldSlots(kind, field, refs);
      var progress := start;
      assert earlier + all[..0] == earlier;
      for i := 0 to |refs|
        invariant Resolved(setID, earlier + all[..i]) == Ok(progress)
      {
        ResolvedNext(setID, earlier, all, i, progress);
        r := ResolveReference(setID, Slot(kind, field, refs[i]), progress);
        if r.Err? {
          return;
        }
        progress := r.value;
      }
      assert all[..|refs|] == all;
      return Ok(progress);
    }

    /** Resolves one reference on top of those resolved before. */
    method ResolveReference(setID: string, slot: Slot, progress: Progress) returns (r: Result<Progress, AuxError>)
      ensures r == ResolveSlot(digest, namespace, byKind, setID, progress, slot)
    {
      var file := ResolveFile(namespace, byKind, slot.kind, slot.ref);
      if file.Err? {
        return Err(file.error);
      }
      var identity := ValidateFileIdentity(digest, setID, progress.legacy, slot, file.value);
      if identity.Err? {
        return Err(identity.error);
      }
      var next := progress.next;
      if HasContent(slot.kind) && !file.value.caFile {
        next := next[Base(file.value.path) := file.value.content];
      }
      return Ok(Progress(next, identity.value));
    }

    /** If the part fails to resolve, the whole fails alike. */
    ghost predicate FailureStands(setID: string, part: seq<Slot>, whole: seq<Slot>)
      reads this
    {
      Resolved(setID, part).Err? ==> Resolved(setID, whole) == Resolved(setID, part)
    }

    lemma {:induction false} FieldFails(c: Commit, kind: Kind, fields: seq<Field>, f: nat, earlier: seq<Slot>)
      requires f <= |fields|
      ensures FailureStands(c.setID, earlier + KindSlots(c, kind, fields[..f]), earlier + KindSlots(c, kind, fields))
    {
      KindSlotsPrefix(c, kind, fields, f);
      if Resolved(c.setID, earlier + KindSlots(c, kind, fields[..f])).Err? {
        FailsOverall(c.setID, earlier, KindSlots(c, kind, fields[..f]), KindSlots(c, kind, fields));
      }
    }

    lemma KindsNext(c: Commit, kinds: seq<Kind>, k: nat)
      requires k < |kinds|
      ensures SlotsOf(c, kinds[..k + 1]) == SlotsOf(c, kinds[..k]) + KindSlots(c, kinds[k], FieldsOf(kinds[k]))
      ensures var next := Resolved(c.setID, SlotsOf(c, kinds[..k + 1]));
        next.Err? ==> Resolved(c.setID, SlotsOf(c, kinds)) == next
    {
      SlotsGrow(c, kinds, k);
      if Resolved(c.setID, SlotsOf(c, kinds[..k + 1])).Err? {
        FailsFrom(c.setID, SlotsOf(c, kinds[..k + 1]), SlotsOf(c, kinds));
      }
    }

    method ResolveKind(c: Commit, kind: Kind, fields: seq<Field>, ghost earlier: seq<Slot>, start: Progress)
      returns (r: Result<Progress, AuxError>)
      requires Resolved(c.setID, earlier) == Ok(start)
      ensures r == Resolved(c.setID, earlier + KindSlots(c, kind, fields))
    {
      var progress := start;
      assert earlier + KindSlots(c, kind, fields[..0]) == earlier;
      for f := 0 to |fields|
        invariant Resolved(c.setID, earlier + KindSlots(c, kind, fields[..f])) == Ok(progress)
      {
        r := ResolveField(c.setID, kind, fields[f], c.Refs(fields[f]), earlier + KindSlots(c, kind, fields[..f]),
                          progress);
        FieldsNext(c, kind, fields, f, earlier);
        FieldFails(c, kind, fields, f + 1, earlier);
        if r.Err? {
          return;
        }
        progress := r.value;
      }
      assert fields[..|fields|] == fields;
      return Ok(progress);
    }

    method ResolveKinds(c: Commit, kinds: seq<Kind>) returns (r: Result<Progress, AuxError>)
      ensures r == Resolved(c.setID, SlotsOf(c, kinds))
    {
      var progress := Progress(map[], None);
      for k := 0 to |kinds|
        invariant Resolved(c.setID, SlotsOf(c, kinds[..k])) == Ok(progress)
      {
        r := ResolveKind(c, kinds[k], FieldsOf(kinds[k]), SlotsOf(c, kinds[..k]), progress);
        KindsNext(c, kinds, k);
        if r.Err? {
          return;
        }
        progress := r.value;
      }
      assert kinds[..|kinds|] == kinds;
      return Ok(progress);
    }

    /** Resolves every reference of the commit, or reports the first that fails. */
    method ResolveCommit() returns (r: Result<FileMap, AuxError>)
      requires commit.Some?
      ensures r.Ok? ==> fresh(r.value) && ResolvePending(digest, Model()) == Ok(r.value.entries)
      ensures r.Err? ==> ResolvePending(digest, Model()) == Err(r.error)
    {
      var alias := AliasedSecretReference(namespace, commit.value);
      if alias.Some? {
        return Err(AliasedSecret(alias.value));
      }
      var progress := ResolveKinds(commit.value, KINDS);
      if progress.Err? {
        return Err(progress.error);
      }
      var result := new FileMap(progress.value.next);
      return Ok(result);
    }

    method SetCurrent(next: FileMap)
      requires Valid()
      modifies this`current, this`currentRoot
      ensures Valid() && Model() == old(Model()).(current := next.entries)
      ensures if old(currentRoot.files.entries) == next.entries then currentRoot == old(currentRoot)
              else fresh(currentRoot) && fresh(currentRoot.files)
    {
      var root := RetainRoot(currentRoot, next);
      current, currentRoot := root.files, root;
    }

    /** Accepts the newest commit if it resolves completely; the root changes only with its contents. */
    method AdvanceLocked()
      requires Valid()
      modifies this
      ensures Valid() && Model() == Advance(digest, old(Model()))
      ensures if Model().current == old(Model()).current then currentRoot == old(currentRoot)
              else fresh(currentRoot) && fresh(currentRoot.files)
    {
      if commit.None? {
        if unavailable.Some? {
          return;
        }
        var empty := new FileMap(map[]);
        SetCurrent(empty);
        ready, legacy, lastErr := true, false, None;
        return;
      }
      if commit.value.setID == "" && unavailable.Some? {
        return;
      }
      var next := ResolveCommit();
      if next.Err? {
        lastErr := Some(next.error);
        return;
      }
      AcceptResolved(next.value);
    }

    method AcceptResolved(next: FileMap)
      requires Valid() && commit.Some?
      modifies this
      ensures Valid() && Model() == AcceptSet(old(Model()), next.entries)
      ensures if next.entries == old(Model()).current then currentRoot == old(currentRoot)
              else fresh(currentRoot) && fresh(currentRoot.files)
    {
      SetCurrent(next);
      ready, legacy, lastErr := true, commit.value.setID == "", None;
      assert Model() == old(Model()).(current := next.entries, ready := true,
                                      legacy := commit.value.setID == "", lastErr := None);
      if !legacy {
        SetLatches(UsesContentIdentity(commit.value.setID));
      }
    }

    method SetLatches(contentIdentity: bool)
      requires Valid()
      modifies this`modernAccepted, this`contentAccepted, this`unavailable
      ensures Valid()
      ensures Model() == old(Model()).(modernAccepted := true,
                                       contentAccepted := old(contentAccepted) || contentIdentity,
                                       unavailable := None)
    {
      modernAccepted := true;
      contentAccepted := contentAccepted || contentIdentity;
      unavailable := None;
    }

    method SetForKind(kind: Kind, files: map<string, File>)
      requires Valid()
      modifies this
      ensures Valid() && Model() == Step(digest, old(Model()), ChildrenRefreshed(kind, files))
      ensures if Model().current == old(Model()).current then currentRoot == old(currentRoot)
              else fresh(currentRoot) && fresh(currentRoot.files)
    {
      var legacyChanged := false;
      if legacy {
        legacyChanged := LegacyReferencesChanged(kind, files);
      }
      byKind := byKind[kind := files];
      if legacyChanged && !leader && LacksSetID(commit) {
        unavailable := Some(LegacyChanged);
        return;
      }
      AdvanceLocked();
    }

    method SetCommit(next: Option<Commit>)
      requires Valid()
      modifies this
      ensures Valid() && Model() == Step(digest, old(Model()), Committed(next))
      ensures if Model().current == old(Model()).current then currentRoot == old(currentRoot)
              else fresh(currentRoot) && fresh(currentRoot.files)
    {
      var legacyChanged := false;
      if legacy {
        var same := CommitsEqual(commit, next);
        legacyChanged := !same;
      }
      commit := next;
      if contentAccepted && LacksContentIdentity(next) {
        unavailable := Some(ContentIdentityLost);
        return;
      }
      if modernAccepted && LacksSetID(next) {
        legacy := false;
        unavailable := Some(SetIDLost);
        return;
      }
      if legacyChanged && !leader && LacksSetID(next) {
        unavailable := Some(LegacyChanged);
        return;
      }
      AdvanceLocked();
    }

    method SetError(error: AuxError)
      requires Valid()
      modifies this`lastErr, this`unavailable
      ensures Valid() && Model() == Step(digest, old(Model()), ReadError(error))
    {
      lastErr := Some(error);
      if legacy && !leader {
        unavailable := Some(LegacyChanged);
      }
    }

    method BeginLeaderTerm()
      requires Valid()
      modifies this
      ensures Valid() && Model() == Step(digest, old(Model()), TermBegun)
      ensures if Model().current == old(Model()).current then currentRoot == old(currentRoot)
              else fresh(currentRoot) && fresh(currentRoot.files)
    {
      leader := true;
      if unavailable.Some? && !modernAccepted {
        unavailable := None;
        AdvanceLocked();
      }
    }

    method EndLeaderTerm()
      requires Valid()
      modifies this`leader
      ensures Valid() && Model() == Step(digest, old(Model()), TermEnded)
    {
      leader := false;
    }
  }
}
