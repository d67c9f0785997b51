/**
  Promoting the unreleased entries of a changelog to a release. A pre-release,
  or a final release without pre-releases, gets a heading; a final release
  absorbs its pre-releases into one folded section.
 */
module ChangelogPromotion {
  import opened Common
  import opened Whitespace
  import opened ChangelogItems
  import opened ChangelogRoundTrip
  import opened ChangelogSections
  import opened ChangelogPrinting
  import opened ChangelogFolding

  const UNRELEASED_NAME := "Unreleased"
  const UNRELEASED := RELEASE_PREFIX + UNRELEASED_NAME + "]"

  // ----- release headings

  /** The name in a release heading: what stands between the brackets, if anything. */
  function ReleaseName(line: string): (r: Option<string>)
    ensures r.Some? ==> r.value != "" && ']' !in r.value
  {
    if RELEASE_PREFIX <= line then
      var rest := line[|RELEASE_PREFIX|..];
      var k := PositionIn(rest, ']');
      if 1 <= k < |rest| then Some(rest[..k]) else None
    else None
  }

  predicate IsRelease(line: string) { ReleaseName(line).Some? }

  function Names(lines: Lines): seq<string> {
    if lines == [] then []
    else
      var n := |lines| - 1;
      Names(lines[..n]) + (if IsRelease(lines[n]) then [ReleaseName(lines[n]).value] else [])
  }

  lemma {:induction false} NamesConcat(a: Lines, b: Lines)
    ensures Names(a + b) == Names(a) + Names(b)
  {
    if b == [] {
      assert a + b == a;
    } else {
      var n := |b| - 1;
      assert (a + b)[..|a + b| - 1] == a + b[..n];
      NamesConcat(a, b[..n]);
    }
  }

  lemma NamesThree(a: Lines, b: Lines, c: Lines)
    ensures Names(a + b + c) == Names(a) + Names(b) + Names(c)
  {
    NamesConcat(a + b, c);
    NamesConcat(a, b);
  }

  lemma NamesSingle(line: string)
    ensures Names([line]) == if IsRelease(line) then [ReleaseName(line).value] else []
  {
  }

  lemma {:induction false} NamesAreProper(lines: Lines, name: string)
    requires name in Names(lines)
    ensures name != "" && ']' !in name
  {
    var n := |lines| - 1;
    if name in Names(lines[..n]) {
      NamesAreProper(lines[..n], name);
    }
  }

  ghost predicate Clean(lines: Lines) { forall x :: x in lines ==> !IsRelease(x) }

  lemma {:induction false} CleanHasNoNames(lines: Lines)
    requires Clean(lines)
    ensures Names(lines) == []
  {
    if lines != [] {
      var n := |lines| - 1;
      assert lines[n] in lines;
      CleanHasNoNames(lines[..n]);
    }
  }

  // ----- the changelog as releases

  datatype Release = Release(name: string, line: string, body: Lines)
  datatype Doc = Doc(preamble: Lines, releases: seq<Release>)

  function AddLine(doc: Doc, line: string): Doc {
    if IsRelease(line) then doc.(releases := doc.releases + [Release(ReleaseName(line).value, line, [])])
    else if doc.releases == [] then doc.(preamble := doc.preamble + [line])
    else
      var n := |doc.releases| - 1;
      doc.(releases := doc.releases[n := doc.releases[n].(body := doc.releases[n].body + [line])])
  }

  function ParseDoc(lines: Lines): Doc {
    if lines == [] then Doc([], []) else AddLine(ParseDoc(lines[..|lines| - 1]), lines[|lines| - 1])
  }

  function Printed(releases: seq<Release>): Lines {
    if releases == [] then []
    else
      var n := |releases| - 1;
      Printed(releases[..n]) + [releases[n].line] + releases[n].body
  }

  /** Each heading is one and names its release; no body holds another heading. */
  ghost predicate CleanReleases(releases: seq<Release>) {
    forall k :: 0 <= k < |releases| ==>
      ReleaseName(releases[k].line) == Some(releases[k].name) && Clean(releases[k].body)
  }

  function NameList(releases: seq<Release>): (r: seq<string>)
    ensures |r| == |releases| && forall k :: 0 <= k < |r| ==> r[k] == releases[k].name
  {
    seq(|releases|, k requires 0 <= k < |releases| => releases[k].name)
  }

  lemma AddLinePrints(doc: Doc, line: string)
    ensures var after := AddLine(doc, line);
      after.preamble + Printed(after.releases) == doc.preamble + Printed(doc.releases) + [line]
  {
    var after := AddLine(doc, line);
    if IsRelease(line) {
      assert after.releases[..|doc.releases|] == doc.releases;
    } else if doc.releases != [] {
      var n := |doc.releases| - 1;
      assert after.releases[..n] == doc.releases[..n];
    }
  }

  lemma AddLineNames(doc: Doc, line: string)
    requires CleanReleases(doc.releases)
    ensures var after := AddLine(doc, line);
      && CleanReleases(after.releases)
      && NameList(after.releases) == NameList(doc.releases)
         + (if IsRelease(line) then [ReleaseName(line).value] else [])
  {
  }

  /** What the releases hold: the text, when printed, and its names. */
  ghost predicate Holds(doc: Doc, lines: Lines) {
    && CleanReleases(doc.releases) && NameList(doc.releases) == Names(lines)
    && doc.preamble + Printed(doc.releases) == lines
  }

  lemma AddLineHolds(doc: Doc, lines: Lines, line: string)
    requires Holds(doc, lines)
    ensures Holds(AddLine(doc, line), lines + [line])
  {
    AddLinePrints(doc, line);
    AddLineNames(doc, line);
    assert (lines + [line])[..|lines|] == lines;
  }

  lemma {:induction false} ParseDocStep(lines: Lines)
    requires lines != []
    ensures var n := |lines| - 1;
      ParseDoc(lines) == AddLine(ParseDoc(lines[..n]), lines[n]) && lines == lines[..n] + [lines[n]]
  {
  }

  /** Printing the releases of a text gives it back, and their names are its names. */
  lemma {:induction false} ParseDocExact(lines: Lines)
    ensures Holds(ParseDoc(lines), lines)
  {
    if lines != [] {
      var n := |lines| - 1;
      ParseDocExact(lines[..n]);
      ParseDocStep(lines);
      var before, line := lines[..n], lines[n];
      AddLineHolds(ParseDoc(before), before, line);
    }
  }

  lemma {:induction false} PrintedConcat(a: seq<Release>, b: seq<Release>)
    ensures Printed(a + b) == Printed(a) + Printed(b)
  {
    if b == [] {
      assert a + b == a;
    } else {
      var n := |b| - 1;
      assert (a + b)[..|a + b| - 1] == a + b[..n];
      PrintedConcat(a, b[..n]);
    }
  }

  lemma {:induction false} PrintedNames(releases: seq<Release>)
    requires CleanReleases(releases)
    ensures Names(Printed(releases)) == NameList(releases)
  {
    if releases != [] {
      var n := |releases| - 1;
      PrintedNames(releases[..n]);
      OneMoreRelease(Printed(releases[..n]), releases[n].line, releases[n].body);
    }
  }

  lemma OneMoreRelease(before: Lines, line: string, body: Lines)
    requires IsRelease(line) && Clean(body)
    ensures Names(before + [line] + body) == Names(before) + [ReleaseName(line).value]
  {
    NamesThree(before, [line], body);
    NamesSingle(line);
    CleanHasNoNames(body);
  }

  // ----- versions

  function BaseOf(version: string): string { version[..PositionIn(version, '-')] }

  function SuffixOf(version: string): string {
    var k := PositionIn(version, '-');
    if k < |version| then version[k + 1..] else ""
  }

  /** A pre-release of this base version. */
  predicate IsPreRelease(name: string, base: string) { base + "-" <= name }

  function Ours(names: seq<string>, base: string): (r: seq<string>)
    ensures forall name :: name in r <==> name in names && IsPreRelease(name, base)
  {
    if names == [] then []
    else
      var n := |names| - 1;
      Ours(names[..n], base) + (if IsPreRelease(names[n], base) then [names[n]] else [])
  }

  /** The leading names that contain a dash. */
  function TakeDashed(names: seq<string>): (r: seq<string>)
    ensures r <= names && (forall name :: name in r ==> '-' in name)
    ensures |r| < |names| ==> '-' !in names[|r|]
  {
    if names != [] && '-' in names[0] then [names[0]] + TakeDashed(names[1..]) else []
  }

  // ----- promotion

  datatype Problem = BothPresent | NothingUnreleased | ForeignPreRelease | NotAdjacent

  function Bodies(releases: seq<Release>): seq<Lines> {
    seq(|releases|, k requires 0 <= k < |releases| => releases[k].body)
  }

  lemma FirstIndexAt(a: string, b: string, c: char)
    requires c !in a
    ensures PositionIn(a + [c] + b, c) == |a|
  {
    var s, k := a + [c] + b, PositionIn(a + [c] + b, c);
    assert s[|a|] == c;
    assert forall i :: 0 <= i < |a| ==> s[i] == a[i];
  }

  /** A heading names the version only if that is not empty and has no closing bracket. */
  lemma HeadingName(version: string, tail: string)
    ensures var r := ReleaseName(RELEASE_PREFIX + version + "]" + tail);
      if version != "" && ']' !in version then r == Some(version)
      else r.Some? ==> r.value != version && r.value <= version
  {
    var line := RELEASE_PREFIX + version + "]" + tail;
    var rest := version + "]" + tail;
    assert line[|RELEASE_PREFIX|..] == rest;
    if ']' !in version {
      FirstIndexAt(version, tail, ']');
      assert version + "]" + tail == version + [']'] + tail;
      assert rest[..|version|] == version;
    } else {
      var i :| 0 <= i < |version| && version[i] == ']';
      assert rest[i] == ']';
      var k := PositionIn(rest, ']');
      assert rest[..k] == version[..k];
    }
  }

  /** A line is a release heading exactly if it starts with a bracketed name, and that is what it names. */
  lemma ReleaseNameExact(line: string, name: string)
    ensures ReleaseName(line) == Some(name) <==>
      name != "" && ']' !in name && RELEASE_PREFIX + name + "]" <= line
  {
    var start := RELEASE_PREFIX + name + "]";
    if name != "" && ']' !in name && start <= line {
      HeadingName(name, line[|start|..]);
      assert line == start + line[|start|..];
    }
    if ReleaseName(line) == Some(name) {
      var rest := line[|RELEASE_PREFIX|..];
      assert rest[..|name|] == name && rest[|name|] == ']';
      assert line[..|start|] == start;
    }
  }

  lemma UnreleasedName()
    ensures ReleaseName(UNRELEASED) == Some(UNRELEASED_NAME)
  {
    HeadingName(UNRELEASED_NAME, "");
    assert UNRELEASED == RELEASE_PREFIX + UNRELEASED_NAME + "]" + "";
  }

  datatype Act = Leave | AddHeading | FoldPending

  /** What to do, given the names, whether there is an unreleased heading and the pre-releases below it. */
  function Plan(names: seq<string>, unreleased: bool, pending: seq<string>, version: string): (r: Result<Act, Problem>)
    ensures r.Ok? && r.value != Leave ==> unreleased
  {
    var ours := Ours(names, BaseOf(version));
    if version in names then
      if SuffixOf(version) != "" || ours == [] then Ok(Leave) else Err(BothPresent)
    else if !unreleased then Err(NothingUnreleased)
    else if SuffixOf(version) != "" then Ok(AddHeading)
    else if exists name :: name in pending && name !in ours then Err(ForeignPreRelease)
    else if exists name :: name in ours && name !in pending then Err(NotAdjacent)
    else if pending == [] then Ok(AddHeading)
    else Ok(FoldPending)
  }

  /** The pre-releases right below the unreleased section that ends `after`'s preamble. */
  function Pending(after: Lines): seq<string> { TakeDashed(Names(after)) }

  /** The names below the pending pre-releases. */
  function Lower(after: Lines): seq<string> { Names(after)[|Pending(after)|..] }

  /** The unreleased section, its heading and that of each pre-release aside, newest first. */
  function FoldedBodies(after: Lines): seq<Lines> {
    ParseDocExact(after);
    [ParseDoc(after).preamble] + Bodies(ParseDoc(after).releases[..|Pending(after)|])
  }

  /** The releases that stay as they are. */
  function Rest(after: Lines): Lines {
    ParseDocExact(after);
    Printed(ParseDoc(after).releases[|Pending(after)|..])
  }

  /** What stands below the unreleased heading after a promotion; `after` stood there before. */
  function TextBelow(act: Act, after: Lines, version: string, today: string): Lines {
    match act
    case Leave => after
    case AddHeading => [ReleaseHeading(version, today)] + after
    case FoldPending =>
      Fold(FoldedBodies(after), version, today) + (if Rest(after) == [] then [] else [""] + Rest(after))
  }

  /** Carrying out a plan on a text cut below its unreleased heading. */
  function Apply(plan: Result<Act, Problem>, head: Lines, after: Lines, version: string, today: string)
    : Result<Lines, Problem>
  {
    match plan
    case Err(problem) => Err(problem)
    case Ok(act) => if act == Leave then Ok(head + after) else Ok(head + [""] + TextBelow(act, after, version, today))
  }

  /** `head` ends with the first unreleased heading. */
  predicate Head(head: Lines) {
    head != [] && head[|head| - 1] == UNRELEASED && forall i :: 0 <= i < |head| - 1 ==> head[i] != UNRELEASED
  }

  datatype Cut = Cut(found: bool, head: Lines, after: Lines)

  /** The text, cut below its first unreleased heading. */
  function CutText(lines: Lines): (cut: Cut)
    ensures cut.head + cut.after == lines
    ensures if cut.found then Head(cut.head) else cut.after == []
  {
    var start := PositionIn(lines, UNRELEASED);
    if start < |lines| then Cut(true, lines[..start + 1], lines[start + 1..]) else Cut(false, lines, [])
  }

  function Promote(lines: Lines, version: string, today: string): Result<Lines, Problem> {
    var cut := CutText(lines);
    Apply(Plan(Names(lines), cut.found, Pending(cut.after), version), cut.head, cut.after, version, today)
  }

  /** The text below the unreleased heading is that section's body, the pending pre-releases and the rest. */
  lemma PartsOfBelow(after: Lines)
    ensures var releases := ParseDoc(after).releases;
      && |Pending(after)| <= |releases|
      && NameList(releases[..|Pending(after)|]) == Pending(after)
      && after == ParseDoc(after).preamble + Printed(releases[..|Pending(after)|]) + Rest(after)
  {
    ParseDocExact(after);
    PrintedParts(ParseDoc(after), |Pending(after)|);
  }

  lemma PrintedParts(doc: Doc, n: nat)
    requires n <= |doc.releases|
    ensures doc.preamble + Printed(doc.releases)
      == doc.preamble + Printed(doc.releases[..n]) + Printed(doc.releases[n..])
  {
    assert doc.releases == doc.releases[..n] + doc.releases[n..];
    PrintedConcat(doc.releases[..n], doc.releases[n..]);
  }

  // ----- no release heading hides in a folded section

  const NOT_RELEASE: string -> bool := x => !IsRelease(x)

  lemma SectionHeadingClean(title: string, level: nat)
    requires level >= 3
    ensures !IsRelease(Heading(title, level))
  {
    HashesAre(level);
    var line := Heading(title, level);
    assert line[2] == '#' && RELEASE_PREFIX[2] == ' ';
  }

  lemma NotReleaseAccepts()
    ensures Accepts(NOT_RELEASE)
  {
    forall title, level | level >= 3 ensures NOT_RELEASE(Heading(title, level)) {
      SectionHeadingClean(title, level);
    }
  }

  ghost predicate CleanBodies(bodies: seq<Lines>) { forall i :: 0 <= i < |bodies| ==> Clean(bodies[i]) }

  lemma FoldedClean(bodies: seq<Lines>)
    requires CleanBodies(bodies)
    ensures Clean(IntroductionLines(bodies) + PrintedSection(MergedBodies(bodies), 3))
  {
    assert AllBodies(bodies, NOT_RELEASE);
    NotReleaseAccepts();
    IntroductionShape(bodies, NOT_RELEASE);
    MergedBodiesShape(bodies, NOT_RELEASE);
    PrintedFine(MergedBodies(bodies), 3, NOT_RELEASE);
    var printed := PrintedSection(MergedBodies(bodies), 3);
    forall x | x in printed ensures !IsRelease(x) { assert Fine(NOT_RELEASE, 2)(x); }
  }

  /** The only release heading in a folded section is its own. */
  lemma FoldNames(bodies: seq<Lines>, version: string, today: string)
    requires CleanBodies(bodies)
    ensures Names(Fold(bodies, version, today)) == Names([ReleaseHeading(version, today)])
  {
    var lines := IntroductionLines(bodies) + PrintedSection(MergedBodies(bodies), 3);
    FoldLines(bodies, version, today);
    FoldedClean(bodies);
    NamesConcat([ReleaseHeading(version, today)], lines);
    CleanHasNoNames(lines);
  }

  // ----- when a promotion succeeds

  /** The base version: what stands before the first dash. */
  ghost predicate IsBaseVersion(version: string, base: string) {
    base <= version && '-' !in base && (|base| < |version| ==> version[|base|] == '-')
  }

  /** A pre-release version: something stands behind a dash. */
  ghost predicate NamesPreRelease(version: string) { exists i :: 0 <= i < |version| - 1 && version[i] == '-' }

  /** The dashed names that come first. */
  ghost predicate IsDashedRun(names: seq<string>, run: seq<string>) {
    run <= names && (forall name :: name in run ==> '-' in name) && (|run| < |names| ==> '-' !in names[|run|])
  }

  lemma VersionParts(version: string, base: string)
    requires IsBaseVersion(version, base)
    ensures base == BaseOf(version) && (SuffixOf(version) != "" <==> NamesPreRelease(version))
  {
    var k := PositionIn(version, '-');
    assert forall i :: 0 <= i < |base| ==> base[i] == version[i];
    if NamesPreRelease(version) {
      var i :| 0 <= i < |version| - 1 && version[i] == '-';
      assert k <= i;
    }
  }

  lemma {:induction false} DashedRunIs(names: seq<string>, run: seq<string>)
    requires IsDashedRun(names, run)
    ensures run == TakeDashed(names)
  {
    var other := TakeDashed(names);
    assert forall i :: 0 <= i < |run| ==> run[i] == names[i];
    assert forall i :: 0 <= i < |other| ==> other[i] == names[i];
  }

  /**
    What a promotion answers, told from the release names: above the unreleased
    heading, and below it with the run of dashed names that comes first there.
   */
  lemma PromotionExact(head: Lines, after: Lines, version: string, today: string, base: string, run: seq<string>)
    requires Head(head) && IsBaseVersion(version, base) && IsDashedRun(Names(after), run)
    ensures var names, r := Names(head) + Names(after), Promote(head + after, version, today);
      if version in names then
        if NamesPreRelease(version) || forall name :: name in names ==> !(base + "-" <= name) then r == Ok(head + after)
        else r == Err(BothPresent)
      else if NamesPreRelease(version) then r.Ok?
      else if exists name :: name in run && !(base + "-" <= name) then r == Err(ForeignPreRelease)
      else if exists name :: name in names && base + "-" <= name && name !in run then r == Err(NotAdjacent)
      else r.Ok?
  {
    VersionParts(version, base);
    DashedRunIs(Names(after), run);
    PromoteCut(head, after, version, today);
    PlanExact(Names(head) + Names(after), run, version);
  }

  lemma PlanExact(names: seq<string>, pending: seq<string>, version: string)
    requires forall name :: name in pending ==> name in names
    ensures var r, base := Plan(names, true, pending, version), BaseOf(version);
      if version in names then
        if SuffixOf(version) != "" || forall name :: name in names ==> !(base + "-" <= name) then r == Ok(Leave)
        else r == Err(BothPresent)
      else if SuffixOf(version) != "" then r == Ok(AddHeading)
      else if exists name :: name in pending && !(base + "-" <= name) then r == Err(ForeignPreRelease)
      else if exists name :: name in names && base + "-" <= name && name !in pending then r == Err(NotAdjacent)
      else r == Ok(if pending == [] then AddHeading else FoldPending)
  {
    OursEmpty(names, BaseOf(version));
  }

  /** Without an unreleased heading only a version that is there can be promoted, to what there is. */
  lemma NothingToPromote(lines: Lines, version: string, today: string, base: string)
    requires UNRELEASED !in lines && IsBaseVersion(version, base)
    ensures var names, r := Names(lines), Promote(lines, version, today);
      if version !in names then r == Err(NothingUnreleased)
      else if NamesPreRelease(version) || forall name :: name in names ==> !(base + "-" <= name) then r == Ok(lines)
      else r == Err(BothPresent)
  {
    VersionParts(version, base);
    OursEmpty(Names(lines), base);
  }

  // ----- promoting twice

  function HeadingNames(version: string, today: string): seq<string> { Names([ReleaseHeading(version, today)]) }

  /** The names below the new heading. */
  function Remaining(act: Act, after: Lines): seq<string> {
    if act == FoldPending then Lower(after) else Names(after)
  }

  lemma BlankFirst(lines: Lines)
    ensures Names([""] + lines) == Names(lines)
  {
    NamesConcat([""], lines);
    NamesSingle("");
  }

  lemma RestNames(after: Lines)
    ensures Names(Rest(after)) == Lower(after)
  {
    ParseDocExact(after);
    TailNames(ParseDoc(after).releases, |Pending(after)|);
  }

  lemma TailNames(releases: seq<Release>, n: nat)
    requires CleanReleases(releases) && n <= |releases|
    ensures Names(Printed(releases[n..])) == NameList(releases)[n..]
  {
    PrintedNames(releases[n..]);
  }

  lemma FoldedBodiesClean(after: Lines)
    ensures CleanBodies(FoldedBodies(after))
  {
    ParseDocExact(after);
    PreambleClean(after);
  }

  lemma {:induction false} PreambleClean(lines: Lines)
    ensures Clean(ParseDoc(lines).preamble)
  {
    if lines != [] {
      PreambleClean(lines[..|lines| - 1]);
    }
  }

  /** What a promotion does to the names below the unreleased heading. */
  lemma BelowNames(act: Act, after: Lines, version: string, today: string)
    requires act != Leave
    ensures Names(TextBelow(act, after, version, today)) == HeadingNames(version, today) + Remaining(act, after)
  {
    if act == AddHeading {
      NamesConcat([ReleaseHeading(version, today)], after);
    } else {
      var tail := if Rest(after) == [] then [] else [""] + Rest(after);
      NamesConcat(Fold(FoldedBodies(after), version, today), tail);
      FoldedBodiesClean(after);
      FoldNames(FoldedBodies(after), version, today);
      BlankFirst(Rest(after));
      RestNames(after);
    }
  }

  lemma CutIs(head: Lines, after: Lines)
    requires Head(head)
    ensures CutText(head + after) == Cut(true, head, after)
  {
    assert (head + after)[|head| - 1] == UNRELEASED;
    assert forall i :: 0 <= i < |head| - 1 ==> (head + after)[i] == head[i];
  }

  /** Promotion of a text that is cut at its unreleased heading. */
  lemma PromoteCut(head: Lines, after: Lines, version: string, today: string)
    requires Head(head)
    ensures Promote(head + after, version, today) ==
      Apply(Plan(Names(head) + Names(after), true, Pending(after), version), head, after, version, today)
  {
    CutIs(head, after);
    NamesConcat(head, after);
  }

  // ----- what the second promotion sees

  /** What the heading of a version adds to the names. */
  lemma HeadingNamesExact(version: string, today: string)
    ensures var h := HeadingNames(version, today);
      if Writable(version) then h == [version]
      else h == [] || (|h| == 1 && h[0] <= version && h[0] != version)
  {
    HeadingName(version, " - " + today);
    assert ReleaseHeading(version, today) == RELEASE_PREFIX + version + "]" + (" - " + today);
    NamesSingle(ReleaseHeading(version, today));
  }

  /** Without a suffix, only a last dash can follow the base version. */
  lemma SuffixFree(version: string)
    requires SuffixOf(version) == ""
    ensures '-' !in BaseOf(version)
    ensures '-' in version ==> version == BaseOf(version) + "-"
    ensures '-' !in version ==> version == BaseOf(version)
  {
  }

  lemma ProperPrefixHasNoDash(version: string, name: string)
    requires SuffixOf(version) == "" && name <= version && name != version
    ensures '-' !in name
  {
  }

  lemma OursEmpty(names: seq<string>, base: string)
    ensures Ours(names, base) == [] <==> forall name :: name in names ==> !IsPreRelease(name, base)
  {
  }

  lemma NotOwnPreRelease(name: string, base: string)
    requires '-' !in name
    ensures !IsPreRelease(name, base)
  {
    assert (base + "-")[|base|] == '-';
  }

  lemma OwnDash(version: string)
    requires SuffixOf(version) == ""
    ensures IsPreRelease(version, BaseOf(version)) <==> '-' in version
  {
  }

  lemma OursInParts(a: seq<string>, other: string, b: seq<string>, base: string)
    ensures Ours(a + ([other] + b), base) == [] <==>
      Ours(a, base) == [] && Ours(b, base) == [] && !IsPreRelease(other, base)
  {
    OursEmpty(a + ([other] + b), base);
    OursEmpty(a, base);
    OursEmpty(b, base);
    assert other in [other] + b;
  }

  // ----- when the second promotion changes nothing

  /** A version that the brackets of a heading can hold. */
  predicate Writable(version: string) { version != "" && ']' !in version }

  /** No pre-release of this version outside the part being folded. */
  predicate NoneOutside(above: seq<string>, below: seq<string>, base: string) {
    Ours(above, base) == [] && Ours(below, base) == []
  }

  /** The version does not appear and nothing is pending: a heading is added, or the promotion fails. */
  lemma PlanGrows(names: seq<string>, pending: seq<string>, version: string)
    requires version !in names && (SuffixOf(version) != "" || pending == [])
    ensures var r := Plan(names, true, pending, version); r == Ok(AddHeading) || r.Err?
  {
  }

  lemma GrowsAgain(head: Lines, after: Lines, version: string, today: string)
    requires Head(head) && version !in Names(head) + Names(after)
    requires SuffixOf(version) != "" || Pending(after) == []
    ensures Promote(head + after, version, today) != Ok(head + after)
  {
    PromoteCut(head, after, version, today);
    PlanGrows(Names(head) + Names(after), Pending(after), version);
  }

  lemma PromotePresent(head: Lines, after: Lines, version: string, today: string)
    requires Head(head) && version in Names(head) + Names(after)
    ensures Promote(head + after, version, today) == Ok(head + after) <==>
      SuffixOf(version) != "" || Ours(Names(head) + Names(after), BaseOf(version)) == []
  {
    PromoteCut(head, after, version, today);
  }

  /** A version that was not there is never left alone, and folding is for final versions. */
  lemma PlanActs(names: seq<string>, pending: seq<string>, version: string, act: Act)
    requires version !in names && Plan(names, true, pending, version) == Ok(act)
    ensures act != Leave
    ensures SuffixOf(version) != "" ==> act == AddHeading
    ensures SuffixOf(version) == "" && act == AddHeading ==> pending == []
    ensures act == FoldPending ==> pending != [] && forall name :: name in pending ==> BaseOf(version) + "-" <= name
  {
  }

  ghost predicate Acts(head: Lines, after: Lines, version: string, act: Act) {
    && Head(head) && version !in Names(head) + Names(after)
    && Plan(Names(head) + Names(after), true, Pending(after), version) == Ok(act)
  }

  /** Below a heading without a dash, or below nothing, no pre-release is pending once those were folded. */
  lemma NothingPending(act: Act, after: Lines, h: seq<string>, r: seq<string>)
    requires act != Leave && (act == AddHeading ==> Pending(after) == []) && r == Remaining(act, after)
    requires h != [] ==> '-' !in h[0]
    ensures TakeDashed(h + r) == []
  {
    assert TakeDashed(Lower(after)) == [];
    if h == [] { assert h + r == r; } else { assert (h + r)[0] == h[0]; }
  }

  lemma UnwritableIsNotRepeated(head: Lines, after: Lines, version: string, today: string, later: string, act: Act)
    requires Acts(head, after, version, act) && !Writable(version)
    ensures var out := head + ([""] + TextBelow(act, after, version, today)); Promote(out, version, later) != Ok(out)
  {
    PlanActs(Names(head) + Names(after), Pending(after), version, act);
    var below := TextBelow(act, after, version, today);
    var h, r := HeadingNames(version, today), Remaining(act, after);
    BelowNames(act, after, version, today);
    BlankFirst(below);
    if version in Names(head) + Names([""] + below) {
      NamesConcat(head, [""] + below);
      NamesAreProper(head + ([""] + below), version);
    }
    if SuffixOf(version) == "" {
      HeadingNamesExact(version, today);
      if h != [] { ProperPrefixHasNoDash(version, h[0]); }
      NothingPending(act, after, h, r);
    }
    GrowsAgain(head, [""] + below, version, later);
  }

  /** A writable version is repeated exactly when nothing competes with it. */
  lemma WritableIsRepeated(head: Lines, after: Lines, version: string, today: string, later: string, act: Act)
    requires Acts(head, after, version, act) && Writable(version)
    ensures var out := head + ([""] + TextBelow(act, after, version, today));
      Promote(out, version, later) == Ok(out) <==>
      SuffixOf(version) != "" || ('-' !in version && NoneOutside(Names(head), Lower(after), version))
  {
    PlanActs(Names(head) + Names(after), Pending(after), version, act);
    var below := TextBelow(act, after, version, today);
    BelowNames(act, after, version, today);
    BlankFirst(below);
    HeadingNamesExact(version, today);
    assert (Names(head) + Names([""] + below))[|Names(head)|] == version;
    PromotePresent(head, [""] + below, version, later);
    if SuffixOf(version) == "" {
      SuffixFree(version);
      OursInParts(Names(head), version, Lower(after), BaseOf(version));
      OwnDash(version);
    }
  }

  lemma PresentIsKept(lines: Lines, version: string, today: string, later: string, out: Lines)
    requires Promote(lines, version, today) == Ok(out) && version in Names(lines)
    ensures out == lines && Promote(lines, version, later) == Ok(lines)
  {
    var cut := CutText(lines);
    LeftAlone(Names(lines), cut.found, Pending(cut.after), cut.head, cut.after, version, today, later);
  }

  lemma LeftAlone(names: seq<string>, unreleased: bool, pending: seq<string>, head: Lines, after: Lines,
                  version: string, today: string, later: string)
    requires version in names
    ensures var plan := Plan(names, unreleased, pending, version);
      && Apply(plan, head, after, version, later) == Apply(plan, head, after, version, today)
      && (plan.Ok? ==> Apply(plan, head, after, version, today) == Ok(head + after))
  {
  }

  /** A version that is not there is acted upon, below the unreleased heading. */
  lemma AbsentIsActedUpon(lines: Lines, version: string, today: string, out: Lines) returns (act: Act)
    requires Promote(lines, version, today) == Ok(out) && version !in Names(lines)
    ensures var cut := CutText(lines);
      Acts(cut.head, cut.after, version, act) && out == cut.head + ([""] + TextBelow(act, cut.after, version, today))
  {
    act := ActedUpon(CutText(lines).head, CutText(lines).after, version, today, out);
  }

  lemma ActedUpon(head: Lines, after: Lines, version: string, today: string, out: Lines) returns (act: Act)
    requires Head(head) && Promote(head + after, version, today) == Ok(out) && version !in Names(head + after)
    ensures Acts(head, after, version, act) && out == head + ([""] + TextBelow(act, after, version, today))
  {
    PromoteCut(head, after, version, today);
    NamesConcat(head, after);
    act := ApplyActs(Names(head) + Names(after), Pending(after), head, after, version, today, out);
  }

  lemma ApplyActs(names: seq<string>, pending: seq<string>, head: Lines, after: Lines, version: string, today: string,
                  out: Lines)
    returns (act: Act)
    requires version !in names && Apply(Plan(names, true, pending, version), head, after, version, today) == Ok(out)
    ensures Plan(names, true, pending, version) == Ok(act)
      && out == head + ([""] + TextBelow(act, after, version, today))
  {
    act := Plan(names, true, pending, version).value;
    PlanActs(names, pending, version, act);
    assert head + [""] + TextBelow(act, after, version, today) == head + ([""] + TextBelow(act, after, version, today));
  }

  /** When the second promotion changes nothing, for a version that was not there. */
  predicate RepeatableCut(cut: Cut, version: string) {
    && Writable(version)
    && (SuffixOf(version) != "" || ('-' !in version && NoneOutside(Names(cut.head), Lower(cut.after), version)))
  }

  lemma ActedUponTwice(cut: Cut, version: string, today: string, later: string, act: Act)
    requires Acts(cut.head, cut.after, version, act)
    ensures var out := cut.head + ([""] + TextBelow(act, cut.after, version, today));
      Promote(out, version, later) == Ok(out) <==> RepeatableCut(cut, version)
  {
    if Writable(version) {
      WritableIsRepeated(cut.head, cut.after, version, today, later, act);
    } else {
      UnwritableIsNotRepeated(cut.head, cut.after, version, today, later, act);
    }
  }

  /** When promoting twice is promoting once. */
  predicate Repeatable(lines: Lines, version: string) {
    version in Names(lines) || RepeatableCut(CutText(lines), version)
  }

  /**
    Promoting the result to the same version, on any later day, returns it
    unchanged, if and only if the version was there, or can stand in a heading
    and is a pre-release or has no pre-release outside the folded section.
   */
  lemma PromotionIsIdempotent(lines: Lines, version: string, today: string, later: string, out: Lines)
    requires Promote(lines, version, today) == Ok(out)
    ensures Promote(out, version, later) == Ok(out) <==> Repeatable(lines, version)
  {
    if version in Names(lines) {
      PresentIsKept(lines, version, today, later, out);
    } else {
      var act := AbsentIsActedUpon(lines, version, today, out);
      ActedUponTwice(CutText(lines), version, today, later, act);
    }
  }

  // ----- what a promotion leaves alone

  /**
    The lines below the unreleased heading that a promotion replaces: when folding,
    that section and the pending pre-releases.
   */
  function Replaced(act: Act, after: Lines): Lines {
    PartsOfBelow(after);
    if act == FoldPending then ParseDoc(after).preamble + Printed(ParseDoc(after).releases[..|Pending(after)|]) else []
  }

  /** The lines that stay: when folding, those from the first release that is not folded. */
  function Kept(act: Act, after: Lines): Lines { if act == FoldPending then Rest(after) else after }

  /** What comes instead. */
  function Inserted(act: Act, after: Lines, version: string, today: string): Lines {
    if act == FoldPending then
      [""] + Fold(FoldedBodies(after), version, today) + (if Rest(after) == [] then [] else [""])
    else ["", ReleaseHeading(version, today)]
  }

  lemma ReplacedAndKept(act: Act, after: Lines)
    ensures after == Replaced(act, after) + Kept(act, after)
    ensures act == FoldPending ==>
      Names(Replaced(act, after)) == Pending(after) && Names(Kept(act, after)) == Lower(after)
  {
    PartsOfBelow(after);
    if act == FoldPending {
      ReplacedNames(ParseDoc(after), |Pending(after)|, after);
      RestNames(after);
    }
  }

  lemma ReplacedNames(doc: Doc, n: nat, after: Lines)
    requires doc == ParseDoc(after) && n <= |doc.releases|
    ensures Names(doc.preamble + Printed(doc.releases[..n])) == NameList(doc.releases[..n])
  {
    ParseDocExact(after);
    PreambleClean(after);
    CleanHasNoNames(doc.preamble);
    NamesConcat(doc.preamble, Printed(doc.releases[..n]));
    PrintedNames(doc.releases[..n]);
  }

  /** Bodies with the headings between them. */
  ghost function Interleaved(bodies: seq<Lines>, headings: seq<string>): Lines
    requires |bodies| == |headings| + 1
  {
    if headings == [] then bodies[0]
    else
      var n := |headings| - 1;
      Interleaved(bodies[..n + 1], headings[..n]) + [headings[n]] + bodies[n + 1]
  }

  ghost function HeadingLines(releases: seq<Release>): (r: seq<string>)
    ensures |r| == |releases| && forall i :: 0 <= i < |r| ==> r[i] == releases[i].line
  {
    seq(|releases|, i requires 0 <= i < |releases| => releases[i].line)
  }

  lemma {:induction false} PrintedInterleaved(preamble: Lines, releases: seq<Release>)
    ensures preamble + Printed(releases) == Interleaved([preamble] + Bodies(releases), HeadingLines(releases))
  {
    if releases != [] {
      var n := |releases| - 1;
      PrintedInterleaved(preamble, releases[..n]);
      assert ([preamble] + Bodies(releases))[..n + 1] == [preamble] + Bodies(releases[..n]);
      assert HeadingLines(releases)[..n] == HeadingLines(releases[..n]);
    }
  }

  /**
    What is folded: cut at its release headings, the replaced text is exactly
    the bodies that are folded, the unreleased one first.
   */
  lemma FoldedBodiesExact(after: Lines) returns (headings: seq<string>)
    ensures var bodies := FoldedBodies(after);
      && |headings| == |Pending(after)| && |bodies| == |headings| + 1 && CleanBodies(bodies)
      && (forall i :: 0 <= i < |headings| ==> ReleaseName(headings[i]) == Some(Pending(after)[i]))
      && Replaced(FoldPending, after) == Interleaved(bodies, headings)
  {
    ParseDocExact(after);
    FoldedBodiesClean(after);
    var folded := ParseDoc(after).releases[..|Pending(after)|];
    headings := HeadingLines(folded);
    PrintedInterleaved(ParseDoc(after).preamble, folded);
    forall i | 0 <= i < |headings| ensures ReleaseName(headings[i]) == Some(Pending(after)[i]) {
      assert folded[i] == ParseDoc(after).releases[i];
    }
  }

  lemma BelowIsInserted(act: Act, after: Lines, version: string, today: string)
    requires act != Leave
    ensures [""] + TextBelow(act, after, version, today) == Inserted(act, after, version, today) + Kept(act, after)
  {
    if act == FoldPending {
      var fold, rest := Fold(FoldedBodies(after), version, today), Rest(after);
      InsertedLines(fold, rest);
    }
  }

  lemma InsertedLines(fold: Lines, rest: Lines)
    ensures [""] + (fold + (if rest == [] then [] else [""] + rest))
      == ([""] + fold + (if rest == [] then [] else [""])) + rest
  {
  }

  /**
    A promotion leaves a version that is there alone. Otherwise the lines up to
    the unreleased heading stay, and those from the first release that is not
    folded, or from that heading on; what stood between is the unreleased
    section with exactly the pending pre-releases, all of this version.
   */
  lemma OutsideIsUnchanged(lines: Lines, version: string, today: string, out: Lines) returns (act: Act)
    requires Promote(lines, version, today) == Ok(out)
    ensures if version in Names(lines) then act == Leave && out == lines
            else
              var cut := CutText(lines);
              && act != Leave && Head(cut.head)
              && lines == cut.head + (Replaced(act, cut.after) + Kept(act, cut.after))
              && out == cut.head + (Inserted(act, cut.after, version, today) + Kept(act, cut.after))
              && (act == AddHeading ==> out == cut.head + ["", "## [" + version + "] - " + today] + cut.after)
              && (act == FoldPending <==> SuffixOf(version) == "" && Pending(cut.after) != [])
              && (act == FoldPending ==>
                  && Names(Replaced(act, cut.after)) == Pending(cut.after)
                  && Names(Kept(act, cut.after)) == Lower(cut.after)
                  && forall name :: name in Names(Replaced(act, cut.after)) ==> BaseOf(version) + "-" <= name)
  {
    if version in Names(lines) {
      PresentIsKept(lines, version, today, today, out);
      act := Leave;
    } else {
      var cut := CutText(lines);
      act := AbsentIsActedUpon(lines, version, today, out);
      PlanActs(Names(cut.head) + Names(cut.after), Pending(cut.after), version, act);
      ReplacedAndKept(act, cut.after);
      BelowIsInserted(act, cut.after, version, today);
    }
  }

  // ----- distinct headings

  ghost predicate Distinct(names: seq<string>) {
    forall i, j :: 0 <= i < j < |names| ==> names[i] != names[j]
  }

  lemma DistinctAround(above: seq<string>, pending: seq<string>, lower: seq<string>, base: string)
    requires Distinct(above + pending + lower)
    requires forall name :: name in Ours(above + pending + lower, base) ==> name in pending
    ensures NoneOutside(above, lower, base)
  {
    var names := above + pending + lower;
    forall i | 0 <= i < |above| ensures !IsPreRelease(above[i], base) {
      OutsideIsNotOurs(above, pending, lower, base, i);
      assert names[i] == above[i];
    }
    forall i | 0 <= i < |lower| ensures !IsPreRelease(lower[i], base) {
      OutsideIsNotOurs(above, pending, lower, base, |above| + |pending| + i);
      assert names[|above| + |pending| + i] == lower[i];
    }
    OursEmpty(above, base);
    OursEmpty(lower, base);
  }

  lemma OutsideIsNotOurs(above: seq<string>, pending: seq<string>, lower: seq<string>, base: string, i: nat)
    requires Distinct(above + pending + lower)
    requires forall name :: name in Ours(above + pending + lower, base) ==> name in pending
    requires i < |above + pending + lower| && !(|above| <= i < |above| + |pending|)
    ensures !IsPreRelease((above + pending + lower)[i], base)
  {
    var name := (above + pending + lower)[i];
    NotTwice(above, pending, lower, i);
    assert name in above + pending + lower;
  }

  lemma NotTwice(above: seq<string>, pending: seq<string>, lower: seq<string>, i: nat)
    requires Distinct(above + pending + lower)
    requires i < |above + pending + lower| && !(|above| <= i < |above| + |pending|)
    ensures (above + pending + lower)[i] !in pending
  {
    var names := above + pending + lower;
    forall k | 0 <= k < |pending| ensures pending[k] != names[i] {
      assert names[|above| + k] == pending[k];
    }
  }

  lemma DistinctLeavesNone(above: seq<string>, below: seq<string>, pending: seq<string>, lower: seq<string>,
                           version: string)
    requires below == pending + lower
    requires version !in above + below && SuffixOf(version) == "" && '-' !in version
    requires Plan(above + below, true, pending, version).Ok? && Distinct(above + below)
    ensures NoneOutside(above, lower, version)
  {
    SuffixFree(version);
    assert above + below == above + pending + lower;
    DistinctAround(above, pending, lower, version);
  }

  lemma DistinctCut(head: Lines, after: Lines, version: string, act: Act)
    requires Acts(head, after, version, act) && Distinct(Names(head) + Names(after))
    requires SuffixOf(version) == "" && '-' !in version
    ensures NoneOutside(Names(head), Lower(after), version)
  {
    DistinctLeavesNone(Names(head), Names(after), Pending(after), Lower(after), version);
  }

  lemma DistinctIsRepeatable(lines: Lines, version: string, today: string, out: Lines)
    requires Promote(lines, version, today) == Ok(out) && Distinct(Names(lines))
    requires Writable(version) && ('-' in version ==> SuffixOf(version) != "")
    ensures Repeatable(lines, version)
  {
    if version !in Names(lines) && SuffixOf(version) == "" {
      var act := AbsentIsActedUpon(lines, version, today, out);
      NamesConcat(CutText(lines).head, CutText(lines).after);
      DistinctCut(CutText(lines).head, CutText(lines).after, version, act);
    }
  }

  /** With distinct release headings every well-formed version is promoted once and for all. */
  lemma DistinctHeadingsSuffice(lines: Lines, version: string, today: string, later: string, out: Lines)
    requires Promote(lines, version, today) == Ok(out) && Distinct(Names(lines))
    requires Writable(version) && ('-' in version ==> SuffixOf(version) != "")
    ensures Promote(out, version, later) == Ok(out)
  {
    PromotionIsIdempotent(lines, version, today, later, out);
    DistinctIsRepeatable(lines, version, today, out);
  }

  // ----- what can go wrong

  ghost predicate Stray(head: Lines, after: Lines, p: string, o: string, version: string) {
    && Head(head) && Names(head) == [UNRELEASED_NAME] && Names(after) == [p, o, p]
    && Writable(version) && '-' !in version && version != UNRELEASED_NAME
    && IsPreRelease(p, version) && '-' !in o && o != version
  }

  lemma StrayFirst(head: Lines, after: Lines, p: string, o: string, version: string, today: string)
    requires Stray(head, after, p, o, version)
    ensures Promote(head + after, version, today) == Ok(head + [""] + TextBelow(FoldPending, after, version, today))
    ensures Lower(after) == [o, p]
  {
    StrayPlan(p, o, version);
    assert [p, o, p][1..] == [o, p];
    assert TakeDashed([p, o, p]) == [p];
    PromoteCut(head, after, version, today);
  }

  lemma StraySecond(head: Lines, after: Lines, p: string, o: string, version: string, later: string)
    requires Head(head) && Names(head) == [UNRELEASED_NAME] && Names(after) == [version] + [o, p]
    requires '-' !in version && IsPreRelease(p, version)
    ensures Promote(head + after, version, later).Err?
  {
    PromoteCut(head, after, version, later);
    StrayFails(version, p, o, Pending(after));
  }

  /** Two headings of one pre-release `p`: folding takes one, the other makes the next promotion fail. */
  lemma StrayCopyBlocks(head: Lines, after: Lines, p: string, o: string, version: string, today: string, later: string)
    requires Stray(head, after, p, o, version)
    ensures Promote(head + after, version, today).Ok?
    ensures Promote(Promote(head + after, version, today).value, version, later).Err?
  {
    StrayFirst(head, after, p, o, version, today);
    var below := TextBelow(FoldPending, after, version, today);
    StrayBelow(after, p, o, version, today);
    StraySecond(head, [""] + below, p, o, version, later);
    assert head + [""] + below == head + ([""] + below);
  }

  lemma StrayBelow(after: Lines, p: string, o: string, version: string, today: string)
    requires Lower(after) == [o, p] && Writable(version)
    ensures Names([""] + TextBelow(FoldPending, after, version, today)) == [version] + [o, p]
  {
    BelowNames(FoldPending, after, version, today);
    HeadingNamesExact(version, today);
    BlankFirst(TextBelow(FoldPending, after, version, today));
  }

  lemma StrayPlan(p: string, o: string, version: string)
    requires '-' !in version && version != UNRELEASED_NAME && IsPreRelease(p, version) && '-' !in o && o != version
    ensures Plan([UNRELEASED_NAME] + [p, o, p], true, [p], version) == Ok(FoldPending) && '-' in p
  {
    assert BaseOf(version) == version;
    NotOwnPreRelease(o, version);
    NotOwnPreRelease(UNRELEASED_NAME, version);
    assert p[|version|] == (version + "-")[|version|] == '-';
    var ours := Ours([UNRELEASED_NAME] + [p, o, p], version);
    assert p in ours && forall name :: name in ours ==> name == p;
  }

  lemma StrayFails(version: string, p: string, o: string, pending: seq<string>)
    requires '-' !in version && IsPreRelease(p, version)
    ensures Plan([UNRELEASED_NAME] + ([version] + [o, p]), true, pending, version).Err?
  {
    assert BaseOf(version) == version;
    var names := [UNRELEASED_NAME] + ([version] + [o, p]);
    assert names[1] == version && names[3] == p;
    OursEmpty(names, version);
  }

  /** One such changelog. */
  lemma RepeatedPreReleaseBlocks(today: string, later: string)
    ensures var lines := [UNRELEASED] + (["## [1-a]"] + ["## [0]"] + ["## [1-a]"]);
      && Promote(lines, "1", today).Ok?
      && Promote(Promote(lines, "1", today).value, "1", later).Err?
  {
    var head, after := [UNRELEASED], ["## [1-a]"] + ["## [0]"] + ["## [1-a]"];
    UnreleasedName();
    NamesSingle(UNRELEASED);
    RepeatedNames(after);
    StrayCopyBlocks(head, after, "1-a", "0", "1", today, later);
  }

  lemma RepeatedNames(after: Lines)
    requires after == ["## [1-a]"] + ["## [0]"] + ["## [1-a]"]
    ensures Names(after) == ["1-a", "0", "1-a"]
  {
    SmallHeading("## [1-a]", "1-a");
    SmallHeading("## [0]", "0");
    NamesThree(["## [1-a]"], ["## [0]"], ["## [1-a]"]);
  }

  lemma SmallHeading(line: string, name: string)
    requires line == RELEASE_PREFIX + name + "]" && Writable(name)
    ensures Names([line]) == [name]
  {
    HeadingName(name, "");
    assert line == RELEASE_PREFIX + name + "]" + "";
    NamesSingle(line);
  }

  // ----- versions that are not promoted once and for all

  lemma OnlyUnreleased(version: string, today: string)
    requires SuffixOf(version) == "" && version != UNRELEASED_NAME
    ensures Promote([UNRELEASED], version, today).Ok? && Names([UNRELEASED]) == [UNRELEASED_NAME]
  {
    UnreleasedName();
    NamesSingle(UNRELEASED);
    assert [UNRELEASED] + [] == [UNRELEASED];
    PromoteCut([UNRELEASED], [], version, today);
    assert [UNRELEASED_NAME] + [] == [UNRELEASED_NAME];
    OnlyUnreleasedPlan(version);
  }

  lemma OnlyUnreleasedPlan(version: string)
    requires SuffixOf(version) == "" && version != UNRELEASED_NAME
    ensures Plan([UNRELEASED_NAME], true, [], version) == Ok(AddHeading)
  {
    NotOwnPreRelease(UNRELEASED_NAME, BaseOf(version));
    OursEmpty([UNRELEASED_NAME], BaseOf(version));
  }

  /** A version that ends in its only dash counts as its own pre-release. */
  lemma DashAtTheEnd(today: string, later: string)
    ensures var first := Promote([UNRELEASED], "1-", today);
      first.Ok? && Promote(first.value, "1-", later) != first
  {
    assert PositionIn("1-", '-') == 1 && SuffixOf("1-") == "";
    OnlyUnreleased("1-", today);
    assert "1-"[1] == '-';
    PromotionIsIdempotent([UNRELEASED], "1-", today, later, Promote([UNRELEASED], "1-", today).value);
  }

  /** A version that a heading cannot hold is never found again. */
  lemma BracketInside(today: string, later: string)
    ensures var first := Promote([UNRELEASED], "1]", today);
      first.Ok? && Promote(first.value, "1]", later) != first
  {
    assert PositionIn("1]", '-') == 2 && SuffixOf("1]") == "";
    OnlyUnreleased("1]", today);
    assert "1]"[1] == ']';
    PromotionIsIdempotent([UNRELEASED], "1]", today, later, Promote([UNRELEASED], "1]", today).value);
  }
}
