/**
  The published auxiliary file set, as values: what a parent commit refers to,
  how it resolves against the child objects seen so far, and how each event
  moves the store. The class that holds this state is in PublishedAuxFiles.
 */
module PublishedAuxModel {
  import opened Common

  // ----- entities

  datatype Kind = MapFile | Secret | GeneralFile | CrtListFile
  datatype Field = MapFiles | SslCertificates | SslCaFiles | GeneralFiles | CrtListFiles

  const KINDS: seq<Kind> := [MapFile, Secret, GeneralFile, CrtListFile]

  function FieldsOf(kind: Kind): seq<Field> {
    match kind
    case MapFile => [MapFiles]
    case Secret => [SslCertificates, SslCaFiles]
    case GeneralFile => [GeneralFiles]
    case CrtListFile => [CrtListFiles]
  }

  function KindName(kind: Kind): string {
    match kind
    case MapFile => "HAProxyMapFile"
    case Secret => "Secret"
    case GeneralFile => "HAProxyGeneralFile"
    case CrtListFile => "HAProxyCRTListFile"
  }

  /** Secrets carry no readable content; every other kind does. */
  predicate HasContent(kind: Kind) { kind != Secret }

  datatype File = File(path: string, content: string, setID: string, checksum: string, resourceVersion: string,
                       caFile: bool)
  datatype Ref = Ref(name: string, namespace: string)

  datatype Commit = Commit(setID: string, refs: map<Field, seq<Ref>>) {
    function Refs(field: Field): seq<Ref> {
      if field in refs then refs[field] else []
    }
  }

  type Store = map<Kind, map<string, File>>
  type FileSet = map<string, string>
  type Digest = string -> string

  datatype AuxError =
    | ReadFailed(message: string)
    | AliasedSecret(ref: Ref)
    | OutsideNamespace(kind: Kind, ref: Ref)
    | Missing(kind: Kind, ref: Ref)
    | ForeignSet(got: string, want: string)
    | SpansSets
    | RoleMismatch
    | IdentityIncomplete
    | IdentityMismatch
    | LegacyChanged
    | SetIDLost
    | ContentIdentityLost
    | NothingTaken

  function Find(store: Store, kind: Kind, name: string): Option<File> {
    if kind in store && name in store[kind] then Some(store[kind][name]) else None
  }

  // ----- identities

  const CONTENT_SET_PREFIX := "content-sha256:"

  predicate UsesContentIdentity(setID: string) { CONTENT_SET_PREFIX <= setID }

  predicate HasSuffix(s: string, suffix: string) {
    |suffix| <= |s| && s[|s| - |suffix|..] == suffix
  }

  predicate Contains(s: string, part: string) {
    part <= s || (s != "" && Contains(s[1..], part))
  }

  /** Binds a child reference to its kind, path, role and bytes. */
  function ContentSuffix(digest: Digest, kind: Kind, path: string, checksum: string, caFile: bool): string {
    "-content-" + digest(KindName(kind) + ['\0'] + path + ['\0'] + checksum + ['\0']
                         + (if caFile then "true" else "false"))
  }

  function StripSlashes(path: string): string {
    if path != "" && path[|path| - 1] == '/' then StripSlashes(path[..|path| - 1]) else path
  }

  function AfterLastSlash(path: string): string {
    if path == "" || path[|path| - 1] == '/' then ""
    else AfterLastSlash(path[..|path| - 1]) + [path[|path| - 1]]
  }

  /** The last element of a slash-separated path. */
  function Base(path: string): string {
    if path == "" then "."
    else
      var stripped := StripSlashes(path);
      if stripped == "" then "/" else AfterLastSlash(stripped)
  }

  /**
    What names the file in a path: the part between the last slash before it and
    the slashes that end the path; a path of slashes only is named by one.
   */
  ghost predicate IsBase(path: string, base: string) {
    if path == "" then base == "."
    else if forall i :: 0 <= i < |path| ==> path[i] == '/' then base == "/"
    else exists i, j :: IsLastElement(path, i, j) && base == path[i..j]
  }

  ghost predicate IsLastElement(path: string, i: int, j: int) {
    && 0 <= i < j <= |path| && (i == 0 || path[i - 1] == '/')
    && (forall k :: i <= k < j ==> path[k] != '/') && (forall k :: j <= k < |path| ==> path[k] == '/')
  }

  lemma {:induction false} StripSlashesExact(path: string)
    ensures var s := StripSlashes(path);
      s <= path && (s != "" ==> s[|s| - 1] != '/') && forall k :: |s| <= k < |path| ==> path[k] == '/'
  {
    if path != "" && path[|path| - 1] == '/' {
      StripSlashesExact(path[..|path| - 1]);
    }
  }

  lemma {:induction false} AfterLastSlashExact(path: string)
    ensures var s := AfterLastSlash(path);
      var i := |path| - |s|;
      0 <= i && s == path[i..] && (i == 0 || path[i - 1] == '/') && forall k :: i <= k < |path| ==> path[k] != '/'
  {
    if path != "" && path[|path| - 1] != '/' {
      AfterLastSlashExact(path[..|path| - 1]);
    }
  }

  lemma BaseExact(path: string, base: string)
    ensures IsBase(path, base) <==> base == Base(path)
  {
    var stripped := StripSlashes(path);
    StripSlashesExact(path);
    if stripped != "" {
      var i, j := BaseAt(path);
      assert path[j - 1] != '/';
      forall a, b | IsLastElement(path, a, b) ensures a == i && b == j {
        OneLastElement(path, a, b, i, j);
      }
    }
  }

  lemma BaseAt(path: string) returns (i: int, j: int)
    requires StripSlashes(path) != ""
    ensures IsLastElement(path, i, j) && Base(path) == path[i..j]
  {
    var stripped := StripSlashes(path);
    StripSlashesExact(path);
    AfterLastSlashExact(stripped);
    i, j := |stripped| - |Base(path)|, |stripped|;
    assert stripped == path[..j];
    assert forall k :: 0 <= k < j ==> stripped[k] == path[k];
  }

  lemma OneLastElement(path: string, a: int, b: int, i: int, j: int)
    requires IsLastElement(path, a, b) && IsLastElement(path, i, j)
    ensures a == i && b == j
  {
    assert path[b - 1] != '/' && path[j - 1] != '/';
    assert b == j;
  }

  // ----- resolving a commit

  /** One reference of a commit, with the kind and field it stands in. */
  datatype Slot = Slot(kind: Kind, field: Field, ref: Ref)

  function FieldSlots(kind: Kind, field: Field, refs: seq<Ref>): (r: seq<Slot>)
    ensures |r| == |refs| && forall i :: 0 <= i < |r| ==> r[i] == Slot(kind, field, refs[i])
  {
    seq(|refs|, i requires 0 <= i < |refs| => Slot(kind, field, refs[i]))
  }

  function KindSlots(commit: Commit, kind: Kind, fields: seq<Field>): seq<Slot> {
    if fields == [] then []
    else
      var n := |fields| - 1;
      KindSlots(commit, kind, fields[..n]) + FieldSlots(kind, fields[n], commit.Refs(fields[n]))
  }

  function SlotsOf(commit: Commit, kinds: seq<Kind>): seq<Slot> {
    if kinds == [] then []
    else
      var n := |kinds| - 1;
      SlotsOf(commit, kinds[..n]) + KindSlots(commit, kinds[n], FieldsOf(kinds[n]))
  }

  /** Every reference of the commit, in the order they are resolved. */
  function Slots(commit: Commit): seq<Slot> { SlotsOf(commit, KINDS) }

  function InNamespace(ref: Ref, namespace: string): Ref {
    if ref.namespace == "" then ref.(namespace := namespace) else ref
  }

  /** A Secret committed both as a certificate and as a CA bundle. */
  ghost predicate Aliased(commit: Commit, namespace: string) {
    exists certificate, authority ::
      certificate in commit.Refs(SslCertificates) && authority in commit.Refs(SslCaFiles)
      && SameObject(certificate, authority, namespace)
  }

  /** One name in one namespace, where none stands for `namespace`. */
  ghost predicate SameObject(a: Ref, b: Ref, namespace: string) {
    && a.name == b.name
    && (a.namespace == b.namespace
        || (a.namespace == "" && b.namespace == namespace) || (a.namespace == namespace && b.namespace == ""))
  }

  function FirstAlias(certificates: seq<Ref>, authorities: seq<Ref>, namespace: string): (r: Option<Ref>)
    ensures r.Some? <==> exists certificate, authority :: certificate in certificates && authority in authorities
                           && SameObject(certificate, authority, namespace)
  {
    assert forall a, b :: SameObject(a, b, namespace) <==> InNamespace(a, namespace) == InNamespace(b, namespace);
    if authorities == [] then None
    else if exists certificate :: certificate in certificates
              && InNamespace(certificate, namespace) == InNamespace(authorities[0], namespace) then
      Some(InNamespace(authorities[0], namespace))
    else FirstAlias(certificates, authorities[1..], namespace)
  }

  function ResolveFile(namespace: string, store: Store, kind: Kind, ref: Ref): Result<File, AuxError> {
    if ref.namespace != "" && ref.namespace != namespace then Err(OutsideNamespace(kind, ref))
    else match Find(store, kind, ref.name)
      case Some(file) => Ok(file)
      case None => Err(Missing(kind, ref))
  }

  /** Checks a set ID; the legacy cell remembers the first one a set-ID-less commit meets. */
  function ValidateSetID(want: string, legacy: Option<string>, got: string): Result<Option<string>, AuxError> {
    if want != "" then
      if got != want then Err(ForeignSet(got, want)) else Ok(legacy)
    else if legacy.None? then Ok(Some(got))
    else if legacy.value != got then Err(SpansSets)
    else Ok(legacy)
  }

  function ContentChecksum(digest: Digest, kind: Kind, file: File): string {
    if HasContent(kind) then "sha256:" + digest(file.content) else file.checksum
  }

  function ValidateContentIdentity(digest: Digest, slot: Slot, file: File): Option<AuxError> {
    var checksum := ContentChecksum(digest, slot.kind, file);
    if !HasContent(slot.kind) && file.caFile != (slot.field == SslCaFiles) then Some(RoleMismatch)
    else if file.path == "" || checksum == "" then Some(IdentityIncomplete)
    else
      var want := ContentSuffix(digest, slot.kind, file.path, checksum, file.caFile);
      if !HasSuffix(slot.ref.name, want) && !Contains(slot.ref.name, want + "-") then Some(IdentityMismatch)
      else None
  }

  function ValidateFileIdentity(digest: Digest, setID: string, legacy: Option<string>, slot: Slot, file: File)
    : Result<Option<string>, AuxError>
  {
    if !UsesContentIdentity(setID) then ValidateSetID(setID, legacy, file.setID)
    else match ValidateContentIdentity(digest, slot, file)
      case Some(problem) => Err(problem)
      case None => Ok(legacy)
  }

  /** Whether a resolved reference contributes a readable file. */
  predicate Contributes(slot: Slot, file: File) { HasContent(slot.kind) && !file.caFile }

  datatype Progress = Progress(next: FileSet, legacy: Option<string>)

  function ResolveSlot(digest: Digest, namespace: string, store: Store, setID: string, progress: Progress, slot: Slot)
    : Result<Progress, AuxError>
  {
    match ResolveFile(namespace, store, slot.kind, slot.ref)
    case Err(problem) => Err(problem)
    case Ok(file) =>
      match ValidateFileIdentity(digest, setID, progress.legacy, slot, file)
      case Err(problem) => Err(problem)
      case Ok(legacy) =>
        Ok(Progress(if Contributes(slot, file) then progress.next[Base(file.path) := file.content] else progress.next,
                    legacy))
  }

  function ResolveSlots(digest: Digest, namespace: string, store: Store, setID: string, slots: seq<Slot>)
    : Result<Progress, AuxError>
  {
    if slots == [] then Ok(Progress(map[], None))
    else
      var n := |slots| - 1;
      match ResolveSlots(digest, namespace, store, setID, slots[..n])
      case Err(problem) => Err(problem)
      case Ok(progress) => ResolveSlot(digest, namespace, store, setID, progress, slots[n])
  }

  function Resolve(digest: Digest, namespace: string, store: Store, commit: Commit): Result<FileSet, AuxError> {
    match FirstAlias(commit.Refs(SslCertificates), commit.Refs(SslCaFiles), namespace)
    case Some(ref) => Err(AliasedSecret(ref))
    case None =>
      match ResolveSlots(digest, namespace, store, commit.setID, Slots(commit))
      case Err(problem) => Err(problem)
      case Ok(progress) => Ok(progress.next)
  }

  lemma {:induction false} FailureSticks(digest: Digest, namespace: string, store: Store, setID: string,
                                         slots: seq<Slot>, more: seq<Slot>)
    requires ResolveSlots(digest, namespace, store, setID, slots).Err?
    ensures ResolveSlots(digest, namespace, store, setID, slots + more)
      == ResolveSlots(digest, namespace, store, setID, slots)
  {
    if more == [] {
      assert slots + more == slots;
    } else {
      var n := |more| - 1;
      assert (slots + more)[..|slots + more| - 1] == slots + more[..n];
      FailureSticks(digest, namespace, store, setID, slots, more[..n]);
    }
  }

  // ----- what a complete resolution is

  /** The slot's object is there, in the namespace, and identifies itself as committed. */
  ghost predicate Consistent(digest: Digest, namespace: string, store: Store, setID: string, slot: Slot) {
    && (slot.ref.namespace == "" || slot.ref.namespace == namespace)
    && Find(store, slot.kind, slot.ref.name).Some?
    && var file := Find(store, slot.kind, slot.ref.name).value;
       if UsesContentIdentity(setID) then Identified(digest, slot, file)
       else setID != "" ==> file.setID == setID
  }

  ghost predicate PartAt(name: string, part: string, i: nat) { i <= |name| && part <= name[i..] }

  /** `part` stands in `name` at `i`, as its end or right before a dash. */
  ghost predicate StandsAt(name: string, part: string, i: nat) {
    PartAt(name, part, i) && (i + |part| == |name| || name[i + |part|] == '-')
  }

  ghost predicate Carries(name: string, part: string) { exists i: nat :: StandsAt(name, part, i) }

  /**
    The file has a path, a Secret also a checksum and the role of its field; and
    the reference's name carries the digest of kind, path, checksum and role,
    where the checksum of a kind with content is that of the bytes themselves.
   */
  ghost predicate Identified(digest: Digest, slot: Slot, file: File) {
    && file.path != ""
    && (slot.kind == Secret ==> file.checksum != "" && (file.caFile <==> slot.field == SslCaFiles))
    && var checksum := if slot.kind == Secret then file.checksum else "sha256:" + digest(file.content);
       Carries(slot.ref.name,
               "-content-" + digest(KindName(slot.kind) + "\0" + file.path + "\0" + checksum + "\0"
                                    + (if file.caFile then "true" else "false")))
  }

  lemma {:induction false} ContainsExact(name: string, part: string)
    ensures Contains(name, part) <==> exists i: nat :: PartAt(name, part, i)
  {
    if part <= name {
      assert PartAt(name, part, 0);
    } else if name != "" {
      ContainsExact(name[1..], part);
      forall i: nat ensures PartAt(name[1..], part, i) <==> PartAt(name, part, i + 1) {
        if i < |name| { assert name[1..][i..] == name[i + 1..]; }
      }
      assert !PartAt(name, part, 0);
      assert forall i: nat :: PartAt(name, part, i) ==> PartAt(name[1..], part, i - 1);
    }
  }

  lemma CarriesExact(name: string, part: string)
    ensures HasSuffix(name, part) || Contains(name, part + "-") <==> Carries(name, part)
  {
    ContainsExact(name, part + "-");
    if HasSuffix(name, part) {
      assert StandsAt(name, part, |name| - |part|);
    }
    if i: nat :| PartAt(name, part + "-", i) {
      BeforeDash(name, part, i);
      assert StandsAt(name, part, i);
    }
    if i: nat :| StandsAt(name, part, i) {
      if i + |part| < |name| { BeforeDash(name, part, i); } else { assert name[i..] == part; }
    }
  }

  lemma BeforeDash(name: string, part: string, i: nat)
    ensures PartAt(name, part + "-", i) <==> PartAt(name, part, i) && i + |part| < |name| && name[i + |part|] == '-'
  {
    if i <= |name| {
      var rest := name[i..];
      assert part + "-" <= rest <==> part <= rest && |part| < |rest| && rest[|part|] == '-';
    }
  }

  lemma ContentIdentityExact(digest: Digest, slot: Slot, file: File)
    ensures ValidateContentIdentity(digest, slot, file).None? <==> Identified(digest, slot, file)
  {
    var checksum := ContentChecksum(digest, slot.kind, file);
    CarriesExact(slot.ref.name, ContentSuffix(digest, slot.kind, file.path, checksum, file.caFile));
  }

  ghost predicate AllConsistent(digest: Digest, namespace: string, store: Store, setID: string, slots: seq<Slot>) {
    forall slot :: slot in slots ==> Consistent(digest, namespace, store, setID, slot)
  }

  /** A set-ID-less commit must not mix objects of different sets. */
  ghost predicate OneSet(store: Store, setID: string, slots: seq<Slot>) {
    setID == "" ==> forall i, j :: 0 <= i < j < |slots| ==>
      SetIDAt(store, slots[i]) == SetIDAt(store, slots[j])
  }

  ghost function SetIDAt(store: Store, slot: Slot): string {
    match Find(store, slot.kind, slot.ref.name)
    case Some(file) => file.setID
    case None => ""
  }

  /** The last contributing reference under a base name decides its content. */
  ghost predicate LastUnder(store: Store, slots: seq<Slot>, base: string, i: int) {
    && 0 <= i < |slots| && Provides(store, slots[i], base)
    && forall j :: i < j < |slots| ==> !Provides(store, slots[j], base)
  }

  ghost predicate Provides(store: Store, slot: Slot, base: string) {
    match Find(store, slot.kind, slot.ref.name)
    case Some(file) => slot.kind != Secret && !file.caFile && IsBase(file.path, base)
    case None => false
  }

  ghost function ContentAt(store: Store, slot: Slot): string {
    match Find(store, slot.kind, slot.ref.name)
    case Some(file) => file.content
    case None => ""
  }

  ghost predicate Publishes(store: Store, slots: seq<Slot>, files: FileSet) {
    && (forall base :: base in files <==> exists slot :: slot in slots && Provides(store, slot, base))
    && (forall base, i :: LastUnder(store, slots, base, i) ==>
        base in files && files[base] == ContentAt(store, slots[i]))
  }

  /** `files` is what `commit`, completely resolved against `store`, publishes. */
  ghost predicate IsResolution(digest: Digest, namespace: string, store: Store, commit: Commit, files: FileSet) {
    && !Aliased(commit, namespace)
    && AllConsistent(digest, namespace, store, commit.setID, Slots(commit))
    && OneSet(store, commit.setID, Slots(commit))
    && Publishes(store, Slots(commit), files)
  }

  lemma {:induction false} ResolveSlotsExact(digest: Digest, namespace: string, store: Store, setID: string,
                                             slots: seq<Slot>)
    ensures var r := ResolveSlots(digest, namespace, store, setID, slots);
      && (r.Ok? <==> AllConsistent(digest, namespace, store, setID, slots) && OneSet(store, setID, slots))
      && (r.Ok? && setID == "" ==>
            if slots == [] then r.value.legacy == None else r.value.legacy == Some(SetIDAt(store, slots[0])))
  {
    if slots != [] {
      var n := |slots| - 1;
      ResolveSlotsExact(digest, namespace, store, setID, slots[..n]);
      var found := Find(store, slots[n].kind, slots[n].ref.name);
      if found.Some? { ContentIdentityExact(digest, slots[n], found.value); }
      ConsistentSplit(digest, namespace, store, setID, slots);
    }
  }

  lemma {:induction false} ResolveSlotsPublishes(digest: Digest, namespace: string, store: Store, setID: string,
                                                 slots: seq<Slot>)
    requires ResolveSlots(digest, namespace, store, setID, slots).Ok?
    ensures Publishes(store, slots, ResolveSlots(digest, namespace, store, setID, slots).value.next)
  {
    if slots != [] {
      var n := |slots| - 1;
      ResolveSlotsPublishes(digest, namespace, store, setID, slots[..n]);
      var before := ResolveSlots(digest, namespace, store, setID, slots[..n]).value.next;
      assert slots == slots[..n] + [slots[n]];
      PublishesStep(store, slots[..n], slots[n], before,
                    ResolveSlots(digest, namespace, store, setID, slots).value.next);
    }
  }

  lemma ConsistentSplit(digest: Digest, namespace: string, store: Store, setID: string, slots: seq<Slot>)
    requires slots != []
    ensures var n := |slots| - 1;
      AllConsistent(digest, namespace, store, setID, slots) <==>
        && AllConsistent(digest, namespace, store, setID, slots[..n])
        && Consistent(digest, namespace, store, setID, slots[n])
  {
  }

  lemma PublishesStep(store: Store, slots: seq<Slot>, last: Slot, before: FileSet, after: FileSet)
    requires Publishes(store, slots, before) && Find(store, last.kind, last.ref.name).Some?
    requires var file := Find(store, last.kind, last.ref.name).value;
      after == if Contributes(last, file) then before[Base(file.path) := file.content] else before
    ensures Publishes(store, slots + [last], after)
  {
    var all := slots + [last];
    var path := Find(store, last.kind, last.ref.name).value.path;
    forall base ensures IsBase(path, base) <==> base == Base(path) { BaseExact(path, base); }
    forall base
      ensures base in after <==> exists slot :: slot in all && Provides(store, slot, base)
    {
      if base in before {
        var slot :| slot in slots && Provides(store, slot, base);
        assert slot in all;
      }
      assert last in all;
    }
    forall base, i | LastUnder(store, all, base, i)
      ensures base in after && after[base] == ContentAt(store, all[i])
    {
      if i < |slots| {
        assert all[i] == slots[i];
        assert forall j :: i < j < |slots| ==> all[j] == slots[j];
        assert !Provides(store, all[|slots|], base);
        assert LastUnder(store, slots, base, i);
      }
    }
  }

  /** Resolution succeeds exactly on complete, consistent, unaliased commits. */
  lemma ResolveExact(digest: Digest, namespace: string, store: Store, commit: Commit)
    ensures var r := Resolve(digest, namespace, store, commit);
      && (r.Ok? <==> !Aliased(commit, namespace)
                     && AllConsistent(digest, namespace, store, commit.setID, Slots(commit))
                     && OneSet(store, commit.setID, Slots(commit)))
      && (r.Ok? ==> IsResolution(digest, namespace, store, commit, r.value))
  {
    var slots := Slots(commit);
    ResolveSlotsExact(digest, namespace, store, commit.setID, slots);
    if ResolveSlots(digest, namespace, store, commit.setID, slots).Ok? {
      ResolveSlotsPublishes(digest, namespace, store, commit.setID, slots);
    }
  }

  // ----- what a content identity is for

  /** A hash whose digests have `n` characters, none of them the separator, and which has no collisions on `texts`. */
  ghost predicate Hashes(digest: Digest, n: nat, texts: set<string>) {
    && (forall x, y :: x in texts && y in texts && digest(x) == digest(y) ==> x == y)
    && (forall x :: |digest(x)| == n && '\0' !in digest(x))
  }

  /** The separator is not in the file's own words, and what is hashed of it is among `texts`. */
  ghost predicate Hashed(digest: Digest, texts: set<string>, kind: Kind, file: File) {
    && '\0' !in file.path && '\0' !in file.checksum && file.content in texts
    && Identity(kind, file.path, ContentChecksum(digest, kind, file), file.caFile) in texts
  }

  /** The part before the first separator and the part behind it. */
  lemma CutAtSeparator(a: string, b: string, c: string, d: string)
    requires '\0' !in a && '\0' !in c && a + "\0" + b == c + "\0" + d
    ensures a == c && b == d
  {
    var s := a + "\0" + b;
    assert s[|a|] == '\0' && s[|c|] == '\0';
    assert s[..|a|] == a && s[..|c|] == c && s[|a| + 1..] == b && s[|c| + 1..] == d;
  }

  function Identity(kind: Kind, path: string, checksum: string, caFile: bool): string {
    KindName(kind) + "\0" + (path + "\0" + (checksum + "\0" + (if caFile then "true" else "false")))
  }

  /** An identity stands for one kind, path, checksum and role. */
  lemma IdentityBinds(k: Kind, p: string, c: string, ca: bool, k': Kind, p': string, c': string, ca': bool)
    requires '\0' !in p && '\0' !in p' && '\0' !in c && '\0' !in c'
    requires Identity(k, p, c, ca) == Identity(k', p', c', ca')
    ensures k == k' && p == p' && c == c' && ca == ca'
  {
    var role, role' := if ca then "true" else "false", if ca' then "true" else "false";
    CutAtSeparator(KindName(k), p + "\0" + (c + "\0" + role), KindName(k'), p' + "\0" + (c' + "\0" + role'));
    CutAtSeparator(p, c + "\0" + role, p', c' + "\0" + role');
    CutAtSeparator(c, role, c', role');
    KindNamesDiffer(k, k');
    assert ca ==> role[0] == 't';
    assert ca' ==> role'[0] == 't';
  }

  lemma KindNamesDiffer(k: Kind, k': Kind)
    requires KindName(k) == KindName(k')
    ensures k == k'
  {
    assert KindName(k)[|KindName(k)| - 5] == KindName(k')[|KindName(k')| - 5];
    assert |KindName(k)| == |KindName(k')|;
  }

  lemma SuffixIsIdentity(digest: Digest, kind: Kind, path: string, checksum: string, caFile: bool)
    ensures ContentSuffix(digest, kind, path, checksum, caFile)
      == CONTENT_MARK + digest(Identity(kind, path, checksum, caFile))
  {
    assert KindName(kind) + ['\0'] + path + ['\0'] + checksum + ['\0'] + (if caFile then "true" else "false")
      == Identity(kind, path, checksum, caFile);
  }

  const CONTENT_MARK := "-content-"

  /** The name carries one content identity. */
  ghost predicate MarkedOnce(name: string) {
    forall i: nat, j: nat :: PartAt(name, CONTENT_MARK, i) && PartAt(name, CONTENT_MARK, j) ==> i == j
  }

  lemma CarriedOnce(name: string, a: string, b: string)
    requires MarkedOnce(name) && |a| == |b| && Carries(name, CONTENT_MARK + a) && Carries(name, CONTENT_MARK + b)
    ensures a == b
  {
    var i: nat :| StandsAt(name, CONTENT_MARK + a, i);
    var j: nat :| StandsAt(name, CONTENT_MARK + b, j);
    MarkOf(name, a, i);
    MarkOf(name, b, j);
    assert CONTENT_MARK + a == name[i..i + |CONTENT_MARK + a|];
    assert (CONTENT_MARK + a)[|CONTENT_MARK|..] == a && (CONTENT_MARK + b)[|CONTENT_MARK|..] == b;
  }

  lemma MarkOf(name: string, a: string, i: nat)
    requires PartAt(name, CONTENT_MARK + a, i)
    ensures PartAt(name, CONTENT_MARK, i)
  {
    assert (CONTENT_MARK + a)[..|CONTENT_MARK|] == CONTENT_MARK;
    assert name[i..][..|CONTENT_MARK|] == name[i..][..|CONTENT_MARK + a|][..|CONTENT_MARK|];
  }

  /** What of a file a reference can see. */
  ghost predicate Alike(kind: Kind, f: File, g: File) {
    && f.path == g.path && f.caFile == g.caFile
    && (if kind == Secret then f.checksum == g.checksum else f.content == g.content)
  }

  /** Two files that one reference identifies have the same path, role and bytes. */
  lemma ReferenceBinds(digest: Digest, n: nat, texts: set<string>, slot: Slot, f: File, g: File)
    requires Hashes(digest, n, texts) && MarkedOnce(slot.ref.name)
    requires Hashed(digest, texts, slot.kind, f) && Hashed(digest, texts, slot.kind, g)
    requires Identified(digest, slot, f) && Identified(digest, slot, g)
    ensures Alike(slot.kind, f, g)
  {
    var c, c' := ContentChecksum(digest, slot.kind, f), ContentChecksum(digest, slot.kind, g);
    SuffixIsIdentity(digest, slot.kind, f.path, c, f.caFile);
    SuffixIsIdentity(digest, slot.kind, g.path, c', g.caFile);
    CarriedOnce(slot.ref.name, digest(Identity(slot.kind, f.path, c, f.caFile)),
                digest(Identity(slot.kind, g.path, c', g.caFile)));
    IdentityBinds(slot.kind, f.path, c, f.caFile, slot.kind, g.path, c', g.caFile);
    if slot.kind != Secret {
      assert c[|"sha256:"|..] == digest(f.content) && c'[|"sha256:"|..] == digest(g.content);
    }
  }

  ghost predicate HashedStore(digest: Digest, texts: set<string>, store: Store) {
    forall kind, name :: Find(store, kind, name).Some? ==> Hashed(digest, texts, kind, Find(store, kind, name).value)
  }

  lemma {:induction false} ContentSlotsAgree(digest: Digest, n: nat, texts: set<string>, namespace: string,
                                             a: Store, b: Store, setID: string, slots: seq<Slot>)
    requires Hashes(digest, n, texts) && HashedStore(digest, texts, a) && HashedStore(digest, texts, b)
    requires UsesContentIdentity(setID)
    requires forall slot :: slot in slots ==> MarkedOnce(slot.ref.name)
    requires ResolveSlots(digest, namespace, a, setID, slots).Ok?
    requires ResolveSlots(digest, namespace, b, setID, slots).Ok?
    ensures ResolveSlots(digest, namespace, a, setID, slots) == ResolveSlots(digest, namespace, b, setID, slots)
  {
    if slots != [] {
      var last := slots[|slots| - 1];
      ContentSlotsAgree(digest, n, texts, namespace, a, b, setID, slots[..|slots| - 1]);
      var f, g := Find(a, last.kind, last.ref.name).value, Find(b, last.kind, last.ref.name).value;
      assert last in slots;
      ContentIdentityExact(digest, last, f);
      ContentIdentityExact(digest, last, g);
      ReferenceBinds(digest, n, texts, last, f, g);
    }
  }

  /**
    As long as the hash has no collision on what the two stores hold, a commit
    with content identities that resolves against both resolves to the same
    files: no child can be swapped for another.
   */
  lemma ContentIdentityDecides(digest: Digest, n: nat, texts: set<string>, namespace: string,
                               a: Store, b: Store, commit: Commit)
    requires Hashes(digest, n, texts) && HashedStore(digest, texts, a) && HashedStore(digest, texts, b)
    requires UsesContentIdentity(commit.setID)
    requires forall slot :: slot in Slots(commit) ==> MarkedOnce(slot.ref.name)
    requires Resolve(digest, namespace, a, commit).Ok? && Resolve(digest, namespace, b, commit).Ok?
    ensures Resolve(digest, namespace, a, commit) == Resolve(digest, namespace, b, commit)
  {
    ContentSlotsAgree(digest, n, texts, namespace, a, b, commit.setID, Slots(commit));
  }

  // ----- the frame: only referenced entries matter

  ghost predicate SameReferenced(a: Store, b: Store, slots: seq<Slot>) {
    forall slot :: slot in slots ==> Find(a, slot.kind, slot.ref.name) == Find(b, slot.kind, slot.ref.name)
  }

  lemma {:induction false} ResolveSlotsFrame(digest: Digest, namespace: string, a: Store, b: Store, setID: string,
                                             slots: seq<Slot>)
    requires SameReferenced(a, b, slots)
    ensures ResolveSlots(digest, namespace, a, setID, slots) == ResolveSlots(digest, namespace, b, setID, slots)
  {
    if slots != [] {
      var n := |slots| - 1;
      assert slots[n] in slots;
      ResolveSlotsFrame(digest, namespace, a, b, setID, slots[..n]);
    }
  }

  lemma {:induction false} KindSlotsMembers(commit: Commit, kind: Kind, fields: seq<Field>, slot: Slot)
    ensures slot in KindSlots(commit, kind, fields) <==>
      slot.kind == kind && slot.field in fields && slot.ref in commit.Refs(slot.field)
  {
    if fields != [] {
      var n := |fields| - 1;
      KindSlotsMembers(commit, kind, fields[..n], slot);
      assert slot.field in fields <==> slot.field in fields[..n] || slot.field == fields[n];
    }
  }

  lemma {:induction false} SlotsOfMembers(commit: Commit, kinds: seq<Kind>, slot: Slot)
    ensures slot in SlotsOf(commit, kinds) <==>
      slot.kind in kinds && slot.field in FieldsOf(slot.kind) && slot.ref in commit.Refs(slot.field)
  {
    if kinds != [] {
      var n := |kinds| - 1;
      SlotsOfMembers(commit, kinds[..n], slot);
      KindSlotsMembers(commit, kinds[n], FieldsOf(kinds[n]), slot);
      assert slot.kind in kinds <==> slot.kind in kinds[..n] || slot.kind == kinds[n];
    }
  }

  /** The kind a field of the commit refers to. */
  function KindOf(field: Field): Kind {
    match field
    case MapFiles => MapFile
    case SslCertificates => Secret
    case SslCaFiles => Secret
    case GeneralFiles => GeneralFile
    case CrtListFiles => CrtListFile
  }

  lemma SlotsMembers(commit: Commit, slot: Slot)
    ensures slot in Slots(commit) <==> slot.kind == KindOf(slot.field) && slot.ref in commit.Refs(slot.field)
  {
    SlotsOfMembers(commit, KINDS, slot);
    assert KINDS[0] == MapFile && KINDS[1] == Secret && KINDS[2] == GeneralFile && KINDS[3] == CrtListFile;
  }

  /** Two commits agree when their set IDs and their references of every field do. */
  ghost predicate SameCommit(a: Commit, b: Commit) {
    a.setID == b.setID && forall field: Field :: a.Refs(field) == b.Refs(field)
  }

  lemma {:induction false} KindSlotsAgree(a: Commit, b: Commit, kind: Kind, fields: seq<Field>)
    requires SameCommit(a, b)
    ensures KindSlots(a, kind, fields) == KindSlots(b, kind, fields)
  {
    if fields != [] {
      KindSlotsAgree(a, b, kind, fields[..|fields| - 1]);
    }
  }

  lemma {:induction false} SlotsAgree(a: Commit, b: Commit, kinds: seq<Kind>)
    requires SameCommit(a, b)
    ensures SlotsOf(a, kinds) == SlotsOf(b, kinds)
  {
    if kinds != [] {
      var n := |kinds| - 1;
      SlotsAgree(a, b, kinds[..n]);
      KindSlotsAgree(a, b, kinds[n], FieldsOf(kinds[n]));
    }
  }

  lemma ResolveAgrees(digest: Digest, namespace: string, store: Store, a: Commit, b: Commit)
    requires SameCommit(a, b)
    ensures Resolve(digest, namespace, store, a) == Resolve(digest, namespace, store, b)
  {
    SlotsAgree(a, b, KINDS);
    assert a.Refs(SslCertificates) == b.Refs(SslCertificates) && a.Refs(SslCaFiles) == b.Refs(SslCaFiles);
  }

  // ----- the store's state and its events

  datatype State = State(
    namespace: string,
    commit: Option<Commit>,
    store: Store,
    current: FileSet,
    ready: bool,
    legacy: bool,
    leader: bool,
    modernAccepted: bool,
    contentAccepted: bool,
    lastErr: Option<AuxError>,
    unavailable: Option<AuxError>)

  function Initial(namespace: string): State {
    State(namespace, None, map[], map[], false, false, false, false, false, None, None)
  }

  datatype Event =
    | ChildrenRefreshed(kind: Kind, files: map<string, File>)
    | Committed(commit: Option<Commit>)
    | ReadError(error: AuxError)
    | TermBegun
    | TermEnded

  predicate LacksSetID(commit: Option<Commit>) { commit.None? || commit.value.setID == "" }
  predicate LacksContentIdentity(commit: Option<Commit>) { commit.None? || !UsesContentIdentity(commit.value.setID) }

  function ResolvePending(digest: Digest, s: State): Result<FileSet, AuxError>
    requires s.commit.Some?
  {
    Resolve(digest, s.namespace, s.store, s.commit.value)
  }

  /** Takes `next`, what the newest commit resolved to, as the current set. */
  function AcceptSet(s: State, next: FileSet): State
    requires s.commit.Some?
  {
    var setID := s.commit.value.setID;
    var accepted := s.(current := next, ready := true, legacy := setID == "", lastErr := None);
    if setID == "" then accepted
    else accepted.(modernAccepted := true,
                   contentAccepted := s.contentAccepted || UsesContentIdentity(setID),
                   unavailable := None)
  }

  /** Advancing, given what the newest commit resolves to. */
  function AdvanceWith(s: State, resolved: Result<FileSet, AuxError>): State {
    match s.commit
    case None =>
      if s.unavailable.Some? then s
      else s.(current := map[], ready := true, legacy := false, lastErr := None)
    case Some(commit) =>
      if commit.setID == "" && s.unavailable.Some? then s
      else match resolved
        case Err(problem) => s.(lastErr := Some(problem))
        case Ok(next) => AcceptSet(s, next)
  }

  function Advance(digest: Digest, s: State): State {
    AdvanceWith(s, if s.commit.Some? then ResolvePending(digest, s) else Ok(map[]))
  }

  /** A committed reference of this kind changed, appeared or disappeared. */
  ghost predicate ReferencesChanged(s: State, kind: Kind, files: map<string, File>) {
    s.commit.Some? &&
    exists field, ref :: field in FieldsOf(kind) && ref in s.commit.value.Refs(field)
      && Find(s.store, kind, ref.name) != (if ref.name in files then Some(files[ref.name]) else None)
  }

  ghost predicate CommitsAgree(a: Option<Commit>, b: Option<Commit>) {
    if a.None? || b.None? then a == b else SameCommit(a.value, b.value)
  }

  ghost function OnChildren(digest: Digest, s: State, kind: Kind, files: map<string, File>): State {
    var next := s.(store := s.store[kind := files]);
    if s.legacy && ReferencesChanged(s, kind, files) && !s.leader && LacksSetID(s.commit) then
      next.(unavailable := Some(LegacyChanged))
    else Advance(digest, next)
  }

  ghost function OnCommit(digest: Digest, s: State, commit: Option<Commit>): State {
    var changed := s.legacy && !CommitsAgree(s.commit, commit);
    var next := s.(commit := commit);
    if s.contentAccepted && LacksContentIdentity(commit) then next.(unavailable := Some(ContentIdentityLost))
    else if s.modernAccepted && LacksSetID(commit) then next.(legacy := false, unavailable := Some(SetIDLost))
    else if changed && !s.leader && LacksSetID(commit) then next.(unavailable := Some(LegacyChanged))
    else Advance(digest, next)
  }

  function OnError(s: State, error: AuxError): State {
    if s.legacy && !s.leader then s.(lastErr := Some(error), unavailable := Some(LegacyChanged))
    else s.(lastErr := Some(error))
  }

  function OnTermBegun(digest: Digest, s: State): State {
    var next := s.(leader := true);
    if s.unavailable.Some? && !s.modernAccepted then Advance(digest, next.(unavailable := None)) else next
  }

  ghost function Step(digest: Digest, s: State, event: Event): State {
    match event
    case ChildrenRefreshed(kind, files) => OnChildren(digest, s, kind, files)
    case Committed(commit) => OnCommit(digest, s, commit)
    case ReadError(error) => OnError(s, error)
    case TermBegun => OnTermBegun(digest, s)
    case TermEnded => s.(leader := false)
  }

  ghost function Run(digest: Digest, s: State, events: seq<Event>): State {
    if events == [] then s
    else Step(digest, Run(digest, s, events[..|events| - 1]), events[|events| - 1])
  }

  /** Why the replica is not ready to render: the last error, the refusal, or that nothing was taken yet. */
  function ReadinessError(s: State): Option<AuxError> {
    if s.lastErr.Some? then s.lastErr
    else if s.unavailable.Some? then s.unavailable
    else if s.ready then None
    else Some(NothingTaken)
  }

  predicate Ready(s: State) { ReadinessError(s).None? }

  /** What a reader of the store gets. */
  function Get(s: State): Result<FileSet, AuxError> {
    if s.unavailable.Some? then Err(s.unavailable.value) else Ok(s.current)
  }
}
