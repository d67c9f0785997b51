/**
  Folding release bodies into one release: what the folded text says, and what
  it loses. Text before a body's first section is an introduction, of which
  only the newest survives; everything below a section is merged, oldest
  release first, and printed.
 */
module ChangelogFolding {
  import opened Whitespace
  import opened ChangelogItems
  import opened ChangelogSections
  import opened ChangelogRoundTrip
  import opened ChangelogPrinting

  const RELEASE_PREFIX := "## ["

  function ReleaseHeading(version: string, today: string): string { RELEASE_PREFIX + version + "] - " + today }

  // ----- folding

  function FirstSection(body: Lines): (k: nat)
    ensures k <= |body| && (k < |body| ==> "### " <= body[k]) && forall i :: 0 <= i < k ==> !("### " <= body[i])
  {
    if body == [] || "### " <= body[0] then 0 else 1 + FirstSection(body[1..])
  }

  /** What a body says before its first section. */
  function Lead(body: Lines): Lines { body[..FirstSection(body)] }

  function Entries(body: Lines): Lines { body[FirstSection(body)..] }

  /** The release bodies, newest first, merged oldest first. */
  function MergedBodies(bodies: seq<Lines>): Section {
    if bodies == [] then EMPTY else Absorb(MergedBodies(bodies[1..]), Entries(bodies[0]), 3)
  }

  /** The newest introduction that is not blank. */
  function Introduction(bodies: seq<Lines>): Lines {
    if bodies == [] then []
    else if Trim(Lead(bodies[0])) != [] then Trim(Lead(bodies[0]))
    else Introduction(bodies[1..])
  }

  /** Blocks separated by blank lines. */
  function JoinBlocks(blocks: seq<Lines>): Lines
    requires blocks != []
  {
    if |blocks| == 1 then Piece(blocks[0]) else Piece(blocks[0]) + [""] + JoinBlocks(blocks[1..])
  }

  function FoldedBlocks(bodies: seq<Lines>): seq<Lines> {
    (if Introduction(bodies) == [] then [] else [Introduction(bodies)]) + Blocks(MergedBodies(bodies), 3)
  }

  function Fold(bodies: seq<Lines>, version: string, today: string): Lines {
    JoinBlocks([[ReleaseHeading(version, today)]] + FoldedBlocks(bodies))
  }

  /** Takes in the bodies one by one, the oldest release, which is the last, first. */
  method FoldRelease(bodies: seq<Lines>, version: string, today: string) returns (lines: Lines)
    ensures lines == Fold(bodies, version, today)
  {
    var merged, introduction: Lines := EMPTY, [];
    var k := |bodies|;
    while k > 0
      invariant 0 <= k <= |bodies|
      invariant merged == MergedBodies(bodies[k..]) && introduction == Introduction(bodies[k..])
    {
      k := k - 1;
      var body := bodies[k];
      assert bodies[k..] == [body] + bodies[k + 1..];
      var at := FirstSection(body);
      var own := Trim(body[..at]);
      introduction := if own != [] then own else introduction;
      merged := Absorb(merged, body[at..], 3);
    }
    assert bodies[0..] == bodies;
    var blocks := (if introduction == [] then [] else [introduction]) + Blocks(merged, 3);
    lines := JoinBlocks([[ReleaseHeading(version, today)]] + blocks);
  }

  // ----- a body is its lead and its sections

  lemma PrefixThree()
    ensures Prefix(3) == "### "
  {
    assert Hashes(1) == "#" && Hashes(2) == "##" && Hashes(3) == "###";
  }

  lemma LeadIsPlain(body: Lines)
    ensures Plain(Lead(body), 3) && Lead(body) + Entries(body) == body
    ensures Entries(body) != [] ==> Prefix(3) <= Entries(body)[0]
  {
    PrefixThree();
  }

  /** Plain lines in front of a text only add to its body. */
  lemma {:induction false} SplitBehindPlain(a: Lines, b: Lines, level: nat)
    requires Plain(a, level)
    ensures var s := SplitLines(b, Prefix(level)); SplitLines(a + b, Prefix(level)) == Split(a + s.body, s.parts)
  {
    if b == [] {
      SplitPlain([], a, level);
      assert [] + a == a && a + b == a && a + [] == a;
    } else {
      var n := |b| - 1;
      assert (a + b)[..|a + b| - 1] == a + b[..n];
      SplitBehindPlain(a, b[..n], level);
    }
  }

  lemma {:induction false} SplitAtHeading(lines: Lines, level: nat)
    requires lines != [] ==> Prefix(level) <= lines[0]
    ensures SplitLines(lines, Prefix(level)).body == []
      && (lines != [] ==> SplitLines(lines, Prefix(level)).parts != [])
  {
    if lines != [] {
      SplitAtHeading(lines[..|lines| - 1], level);
    }
  }

  /** The lead becomes the items directly below the release, the sections its subsections. */
  lemma BodySection(body: Lines)
    ensures ParseSection(body, 3) == Section(ParseItems(Lead(body)), ParseSection(Entries(body), 3).subs)
    ensures ParseSection(Entries(body), 3).items == []
  {
    LeadIsPlain(body);
    SplitBehindPlain(Lead(body), Entries(body), 3);
    SplitAtHeading(Entries(body), 3);
    assert Lead(body) + [] == Lead(body);
    SectionOfSplit(body, 3);
    SectionOfSplit(Entries(body), 3);
    var parts := SplitLines(Entries(body), Prefix(3)).parts;
    ParsePartsSize(parts, 4, |body|, |Entries(body)|);
  }

  // ----- the merged bodies

  ghost predicate AllBodies(bodies: seq<Lines>, ok: string -> bool) {
    forall i :: 0 <= i < |bodies| ==> AllOk(bodies[i], ok)
  }

  lemma {:induction false} MergedBodiesShape(bodies: seq<Lines>, ok: string -> bool)
    requires AllBodies(bodies, ok)
    ensures MergedSection(MergedBodies(bodies)) && SoundSection(MergedBodies(bodies), 3, ok)
      && MergedBodies(bodies).items == []
  {
    if bodies != [] {
      MergedBodiesShape(bodies[1..], ok);
      assert AllOk(bodies[0], ok);
      assert AllOk(Entries(bodies[0]), Fine(ok, 2));
      AbsorbMerged(MergedBodies(bodies[1..]), Entries(bodies[0]), 3);
      AbsorbSound(MergedBodies(bodies[1..]), Entries(bodies[0]), 3, ok);
      LeadIsPlain(bodies[0]);
      SplitAtHeading(Entries(bodies[0]), 3);
      PlainSection([], 3);
    }
  }

  lemma {:induction false} IntroductionShape(bodies: seq<Lines>, ok: string -> bool)
    requires AllBodies(bodies, ok)
    ensures AllOk(Introduction(bodies), ok) && Plain(Introduction(bodies), 3)
  {
    if bodies != [] {
      IntroductionShape(bodies[1..], ok);
      assert AllOk(bodies[0], ok);
      var lead := Lead(bodies[0]);
      LeadIsPlain(bodies[0]);
      TrimOf(lead);
      forall i | 0 <= i < |Trim(lead)| ensures !(Prefix(3) <= Trim(lead)[i]) {
        assert Trim(lead)[i] in Trim(lead);
      }
    }
  }

  // ----- the folded lines

  lemma {:induction false} JoinBlocksSpread(first: Lines, rest: seq<Lines>)
    ensures JoinBlocks([first] + rest) == Piece(first) + Spread(rest)
    decreases |rest|
  {
    assert ([first] + rest)[1..] == rest;
    if rest != [] {
      assert rest == [rest[0]] + rest[1..];
      JoinBlocksSpread(rest[0], rest[1..]);
      SpreadFirst(rest[0], rest[1..]);
    }
  }

  lemma SpreadFirst(block: Lines, rest: seq<Lines>)
    ensures Spread([block] + rest) == [""] + (Piece(block) + Spread(rest))
  {
    SpreadConcat([block], rest);
    SpreadSingle(block);
  }

  /** The introduction behind a blank line, if there is one. */
  function IntroductionLines(bodies: seq<Lines>): Lines {
    if Introduction(bodies) == [] then [] else [""] + Introduction(bodies)
  }

  /** The folded release, line by line: its heading, the introduction, then the sections of the merged bodies. */
  lemma FoldLines(bodies: seq<Lines>, version: string, today: string)
    ensures Fold(bodies, version, today)
         == [ReleaseHeading(version, today)] + (IntroductionLines(bodies) + PrintedSection(MergedBodies(bodies), 3))
  {
    var merged, any := MergedBodies(bodies), (x: string) => true;
    var first := if Introduction(bodies) == [] then [] else [Introduction(bodies)];
    MergedBodiesShape(bodies, any);
    JoinBlocksSpread([ReleaseHeading(version, today)], FoldedBlocks(bodies));
    SpreadConcat(first, Blocks(merged, 3));
    SpreadSingle(Introduction(bodies));
    BlocksPrint(merged, 3, any);
  }

  // ----- what the folded text reads as

  /** The text below the heading of the folded release. */
  function Folded(bodies: seq<Lines>, version: string, today: string): Lines {
    FoldLines(bodies, version, today);
    Fold(bodies, version, today)[1..]
  }

  /**
    The folded text reads as its introduction's items, and as the subsections of
    the merged bodies in rank order, without the hollow ones.
   */
  lemma FoldReads(bodies: seq<Lines>, version: string, today: string)
    ensures ParseSection(Folded(bodies, version, today), 3)
         == Section(ParseItems(Introduction(bodies)), Reprint(MergedBodies(bodies)).subs)
  {
    var merged, any := MergedBodies(bodies), (x: string) => true;
    MergedBodiesShape(bodies, any);
    FoldedIs(bodies, version, today);
    IntroductionReads(bodies);
    ParsePrintedSubs(IntroductionLines(bodies), Ranked(merged.subs), merged, 3, any);
    SubsOnly(IntroductionLines(bodies), PrintedSubs(Ranked(merged.subs), merged, 3), ParseItems(Introduction(bodies)),
             Reprint(merged).subs);
  }

  lemma FoldedIs(bodies: seq<Lines>, version: string, today: string)
    ensures var merged := MergedBodies(bodies);
      Folded(bodies, version, today) == IntroductionLines(bodies) + PrintedSubs(Ranked(merged.subs), merged, 3)
  {
    var merged := MergedBodies(bodies);
    FoldLines(bodies, version, today);
    MergedBodiesShape(bodies, (x: string) => true);
    assert PrintedSection(merged, 3) == PrintedSubs(Ranked(merged.subs), merged, 3);
  }

  lemma SubsOnly(before: Lines, lines: Lines, items: Forest, read: seq<Sub>)
    requires ReadsBehind(before, lines, 3, read) && ParseSection(before, 3) == Section(items, [])
    ensures ParseSection(before + lines, 3) == Section(items, read)
  {
    assert [] + read == read;
  }

  lemma IntroductionReads(bodies: seq<Lines>)
    ensures ParseSection(IntroductionLines(bodies), 3) == Section(ParseItems(Introduction(bodies)), [])
  {
    IntroductionShape(bodies, (x: string) => true);
    BlankIsPlain("", 3);
    PlainSection(IntroductionLines(bodies), 3);
    if Introduction(bodies) != [] { LeadingBlank("", Introduction(bodies)); }
  }

  lemma ReadsNoItems(section: Section)
    requires section.items == []
    ensures Reprint(section).items == []
  {
    PlainSection([], 3);
  }

  /**
    The sections of the folded text have the heads of the merged bodies, at
    every subsection and below every path, if and only if every merged list is
    cut where it prints.
   */
  lemma FoldReadsBack(bodies: seq<Lines>, version: string, today: string)
    ensures SameEntries(ParseSection(Entries(Folded(bodies, version, today)), 3), MergedBodies(bodies))
       <==> PrintableSection(MergedBodies(bodies))
  {
    var merged, any := MergedBodies(bodies), (x: string) => true;
    MergedBodiesShape(bodies, any);
    FoldReads(bodies, version, today);
    BodySection(Folded(bodies, version, today));
    ReadsNoItems(merged);
    assert ParseSection(Entries(Folded(bodies, version, today)), 3) == Reprint(merged);
    ReprintExact(merged, 3, any);
  }

  // ----- what the bodies say, and what the release keeps

  /** What the whole bodies say at one place, oldest release first, repetitions included. */
  ghost function WholeAt(bodies: seq<Lines>, titles: seq<string>, query: Query): seq<Lines> {
    if bodies == [] then []
    else WholeAt(bodies[1..], titles, query) + At(ParseSection(bodies[0], 3), titles, query)
  }

  /** Below its sections the merged tree holds everything the bodies say, each once, in order of first appearance. */
  lemma {:induction false} MergedBodiesExact(bodies: seq<Lines>, titles: seq<string>, query: Query)
    requires titles != [] || query.Titles?
    ensures At(MergedBodies(bodies), titles, query) == Extend([], WholeAt(bodies, titles, query))
  {
    if bodies == [] {
      AtNothing(titles, query);
    } else {
      MergedBodiesExact(bodies[1..], titles, query);
      MergedBodiesShape(bodies[1..], (x: string) => true);
      AbsorbAt(MergedBodies(bodies[1..]), Entries(bodies[0]), 3, titles, query);
      BodySection(bodies[0]);
      assert At(ParseSection(bodies[0], 3), titles, query) == At(ParseSection(Entries(bodies[0]), 3), titles, query);
      ExtendConcat([], WholeAt(bodies[1..], titles, query), At(ParseSection(bodies[0], 3), titles, query));
    }
  }

  /** The items of all leads, merged oldest first. */
  function MergedLeads(bodies: seq<Lines>): Forest {
    if bodies == [] then [] else MergeItems(MergedLeads(bodies[1..]), ParseItems(Lead(bodies[0])))
  }

  lemma {:induction false} MergedLeadsExact(bodies: seq<Lines>, path: Path)
    ensures Merged(MergedLeads(bodies))
    ensures Below(MergedLeads(bodies), path) == Extend([], WholeAt(bodies, [], HeadsBelow(path)))
  {
    if bodies == [] {
      BelowNothing(path);
    } else {
      MergedLeadsExact(bodies[1..], path);
      MergeItemsMerged(MergedLeads(bodies[1..]), ParseItems(Lead(bodies[0])));
      MergeItemsBelow(MergedLeads(bodies[1..]), ParseItems(Lead(bodies[0])), path);
      BodySection(bodies[0]);
      ExtendConcat([], WholeAt(bodies[1..], [], HeadsBelow(path)), Below(ParseItems(Lead(bodies[0])), path));
    }
  }

  /**
    At every subsection and below every path the text says what the bodies say, each
    once, in order of first appearance.
   */
  ghost predicate SaysAll(text: Section, bodies: seq<Lines>) {
    forall titles, path :: At(text, titles, HeadsBelow(path)) == Extend([], WholeAt(bodies, titles, HeadsBelow(path)))
  }

  lemma SaysAllLeads(text: Section, bodies: seq<Lines>)
    requires SaysAll(text, bodies)
    ensures text.items == MergedLeads(bodies)
  {
    MergedLeadsExact(bodies, []);
    forall path ensures Below(text.items, path) == Below(MergedLeads(bodies), path) {
      MergedLeadsExact(bodies, path);
      assert At(text, [], HeadsBelow(path)) == Extend([], WholeAt(bodies, [], HeadsBelow(path)));
    }
    SameAnswers(text.items, MergedLeads(bodies));
  }

  lemma SaysAllSections(text: Section, bodies: seq<Lines>)
    requires SaysAll(text, bodies) && text.subs == Reprint(MergedBodies(bodies)).subs
    ensures SameEntries(Reprint(MergedBodies(bodies)), MergedBodies(bodies))
  {
    var merged := MergedBodies(bodies);
    MergedBodiesShape(bodies, (x: string) => true);
    ReadsNoItems(merged);
    forall titles, path ensures At(Reprint(merged), titles, HeadsBelow(path)) == At(merged, titles, HeadsBelow(path)) {
      if titles != [] {
        MergedBodiesExact(bodies, titles, HeadsBelow(path));
        assert At(text, titles, HeadsBelow(path)) == Extend([], WholeAt(bodies, titles, HeadsBelow(path)));
      }
    }
  }

  lemma SaysAllFromParts(text: Section, bodies: seq<Lines>)
    requires text.items == MergedLeads(bodies) && text.subs == Reprint(MergedBodies(bodies)).subs
    requires SameEntries(Reprint(MergedBodies(bodies)), MergedBodies(bodies))
    ensures SaysAll(text, bodies)
  {
    var merged := MergedBodies(bodies);
    forall titles, path
      ensures At(text, titles, HeadsBelow(path)) == Extend([], WholeAt(bodies, titles, HeadsBelow(path)))
    {
      if titles == [] {
        MergedLeadsExact(bodies, path);
      } else {
        MergedBodiesExact(bodies, titles, HeadsBelow(path));
        assert At(Reprint(merged), titles, HeadsBelow(path)) == At(merged, titles, HeadsBelow(path));
      }
    }
  }

  /**
    The folded text says exactly what the absorbed bodies say, at every
    subsection and below every path, each once, siblings in the order of their
    first appearance, oldest release first, if and only if every merged list is
    cut where it prints and the introduction alone already says what all leads
    say together.
   */
  lemma FoldIsExact(bodies: seq<Lines>, version: string, today: string)
    ensures SaysAll(ParseSection(Folded(bodies, version, today), 3), bodies)
       <==> PrintableSection(MergedBodies(bodies)) && ParseItems(Introduction(bodies)) == MergedLeads(bodies)
  {
    var text := ParseSection(Folded(bodies, version, today), 3);
    FoldReads(bodies, version, today);
    MergedBodiesShape(bodies, (x: string) => true);
    ReprintExact(MergedBodies(bodies), 3, (x: string) => true);
    if SaysAll(text, bodies) {
      SaysAllLeads(text, bodies);
      SaysAllSections(text, bodies);
    }
    if PrintableSection(MergedBodies(bodies)) && ParseItems(Introduction(bodies)) == MergedLeads(bodies) {
      SaysAllFromParts(text, bodies);
    }
  }

  /** Without any text before the first sections only the printing can go wrong. */
  lemma FoldIsExactBelowSections(bodies: seq<Lines>, version: string, today: string)
    requires forall i :: 0 <= i < |bodies| ==> Text(Lead(bodies[i])) == []
    ensures SaysAll(ParseSection(Folded(bodies, version, today), 3), bodies) <==> PrintableSection(MergedBodies(bodies))
  {
    FoldIsExact(bodies, version, today);
    NoLeads(bodies);
  }

  lemma BlankLead(lines: Lines)
    ensures Text(lines) == [] <==> Trim(lines) == []
    ensures Text(lines) == [] ==> ParseItems(lines) == []
  {
    TrimText(lines);
    if Trim(lines) != [] {
      TrimmedIsSolid(lines);
      TextStarts(Trim(lines));
    } else {
      ScanKeepsText(lines);
      var blocks := ScanLines(lines).blocks;
      if blocks != [] {
        FirstLineOf(blocks);
        TextStarts(Joined(blocks));
      }
    }
  }

  lemma {:induction false} TrimmedIsSolid(lines: Lines)
    requires Trim(lines) != []
    ensures !Blank(Trim(lines)[0])
  {
    TrimStartFirst(lines);
    TrimEndOf(TrimStart(lines));
  }

  lemma {:induction false} TrimStartFirst(lines: Lines)
    ensures TrimStart(lines) != [] ==> !Blank(TrimStart(lines)[0])
  {
    if lines != [] && Blank(lines[0]) { TrimStartFirst(lines[1..]); }
  }

  lemma {:induction false} NoLeads(bodies: seq<Lines>)
    requires forall i :: 0 <= i < |bodies| ==> Text(Lead(bodies[i])) == []
    ensures Introduction(bodies) == [] && MergedLeads(bodies) == [] && ParseItems(Introduction(bodies)) == []
  {
    BlankLead([]);
    if bodies != [] {
      BlankLead(Lead(bodies[0]));
      NoLeads(bodies[1..]);
    }
  }

  // ----- what is lost before the first sections

  /** The text before the first sections, oldest release first. */
  ghost function LeadText(bodies: seq<Lines>): Lines {
    if bodies == [] then [] else LeadText(bodies[1..]) + Text(Lead(bodies[0]))
  }

  /** No release but one has text before its first section. */
  predicate OneLead(bodies: seq<Lines>) {
    forall i, j :: 0 <= i < j < |bodies| ==> Text(Lead(bodies[i])) == [] || Text(Lead(bodies[j])) == []
  }

  lemma {:induction false} NoLeadText(bodies: seq<Lines>)
    ensures LeadText(bodies) == [] <==> forall i :: 0 <= i < |bodies| ==> Text(Lead(bodies[i])) == []
  {
    if bodies != [] { NoLeadText(bodies[1..]); }
  }

  /**
    All text before the first sections survives if and only if at most one of
    the releases has any.
   */
  lemma {:induction false} LeadTextKept(bodies: seq<Lines>)
    ensures Text(Introduction(bodies)) == LeadText(bodies) <==> OneLead(bodies)
  {
    if bodies != [] {
      var rest := bodies[1..];
      LeadTextKept(rest);
      NoLeadText(rest);
      TrimText(Lead(bodies[0]));
      BlankLead(Lead(bodies[0]));
      OneLeadStep(bodies);
    }
  }

  lemma OneLeadStep(bodies: seq<Lines>)
    requires bodies != []
    ensures OneLead(bodies) <==>
      if Text(Lead(bodies[0])) == [] then OneLead(bodies[1..])
      else forall i :: 0 <= i < |bodies[1..]| ==> Text(Lead(bodies[1..][i])) == []
  {
  }

  // ----- entries that are lost

  /** The children of all items with this head. */
  function Under(items: Forest, head: Lines): Forest {
    if items == [] then []
    else
      var n := |items| - 1;
      Under(items[..n], head) + (if items[n].head == head then items[n].children else [])
  }

  lemma {:induction false} BelowUnder(items: Forest, head: Lines, path: Path)
    ensures Below(items, [head] + path) == Below(Under(items, head), path)
  {
    var longer := [head] + path;
    assert longer[1..] == path;
    if items == [] {
      BelowNothing(path);
    } else {
      var n := |items| - 1;
      BelowUnder(items[..n], head, path);
      BelowConcat(Under(items[..n], head), items[n].children, path);
      assert Under(items[..n], head) + [] == Under(items[..n], head);
    }
  }

  /** Every chain of heads in `a` is one in `b`. */
  predicate Within(a: Forest, b: Forest) {
    forall i :: 0 <= i < |a| ==> a[i].head in Heads(b) && Within(a[i].children, Under(b, a[i].head))
  }

  ghost predicate Repeats(a: Forest, b: Forest) { forall path, x :: x in Below(a, path) ==> x in Below(b, path) }

  lemma {:induction false} BelowMember(items: Forest, path: Path, x: Lines)
    requires path != []
    ensures x in Below(items, path) <==>
      exists i :: 0 <= i < |items| && items[i].head == path[0] && x in Below(items[i].children, path[1..])
  {
    if items != [] {
      var n := |items| - 1;
      var init := items[..n];
      BelowMember(init, path, x);
      assert forall i :: 0 <= i < n ==> init[i] == items[i];
      assert x in Below(items, path) <==>
        x in Below(init, path) || (items[n].head == path[0] && x in Below(items[n].children, path[1..]));
    }
  }

  lemma {:induction false} WithinAt(a: Forest, b: Forest, path: Path, x: Lines)
    requires Within(a, b) && x in Below(a, path)
    ensures x in Below(b, path)
    decreases |path|
  {
    if path != [] {
      BelowMember(a, path, x);
      var i :| 0 <= i < |a| && a[i].head == path[0] && x in Below(a[i].children, path[1..]);
      WithinAt(a[i].children, Under(b, path[0]), path[1..], x);
      FoundBelow(b, path, x);
    }
  }

  lemma FoundBelow(b: Forest, path: Path, x: Lines)
    requires path != [] && x in Below(Under(b, path[0]), path[1..])
    ensures x in Below(b, path)
  {
    BelowUnder(b, path[0], path[1..]);
    assert path == [path[0]] + path[1..];
  }

  lemma {:induction false} RepeatsWithin(a: Forest, b: Forest)
    requires Repeats(a, b)
    ensures Within(a, b)
  {
    forall i | 0 <= i < |a| ensures a[i].head in Heads(b) && Within(a[i].children, Under(b, a[i].head)) {
      assert Below(a, [])[i] == a[i].head && a[i].head in Below(a, []);
      forall path, x | x in Below(a[i].children, path) ensures x in Below(Under(b, a[i].head), path) {
        var longer := [a[i].head] + path;
        assert longer[1..] == path;
        BelowMember(a, longer, x);
        BelowUnder(b, a[i].head, path);
      }
      RepeatsWithin(a[i].children, Under(b, a[i].head));
    }
  }

  /** No entry directly below a release is lost. */
  ghost predicate KeepsLeads(text: Section, bodies: seq<Lines>) {
    forall path, x :: x in WholeAt(bodies, [], HeadsBelow(path)) ==> x in At(text, [], HeadsBelow(path))
  }

  lemma {:induction false} WholeAtMember(bodies: seq<Lines>, path: Path, x: Lines)
    ensures x in WholeAt(bodies, [], HeadsBelow(path)) <==>
      exists i :: 0 <= i < |bodies| && x in Below(ParseItems(Lead(bodies[i])), path)
  {
    if bodies != [] {
      WholeAtMember(bodies[1..], path, x);
      BodySection(bodies[0]);
      if exists i :: 0 <= i < |bodies| && x in Below(ParseItems(Lead(bodies[i])), path) {
        var i :| 0 <= i < |bodies| && x in Below(ParseItems(Lead(bodies[i])), path);
        assert i > 0 ==> bodies[1..][i - 1] == bodies[i];
      }
    }
  }

  /**
    No entry before the first sections is lost if and only if every release,
    whatever it has there, has only entries that the newest such text has too.
   */
  lemma LeadEntriesKept(bodies: seq<Lines>, version: string, today: string)
    ensures KeepsLeads(ParseSection(Folded(bodies, version, today), 3), bodies)
       <==> forall i :: 0 <= i < |bodies| ==> Within(ParseItems(Lead(bodies[i])), ParseItems(Introduction(bodies)))
  {
    FoldReads(bodies, version, today);
    var text, kept := ParseSection(Folded(bodies, version, today), 3), ParseItems(Introduction(bodies));
    if KeepsLeads(text, bodies) {
      forall i | 0 <= i < |bodies| ensures Within(ParseItems(Lead(bodies[i])), kept) {
        forall path, x | x in Below(ParseItems(Lead(bodies[i])), path) ensures x in Below(kept, path) {
          WholeAtMember(bodies, path, x);
          assert x in At(text, [], HeadsBelow(path));
        }
        RepeatsWithin(ParseItems(Lead(bodies[i])), kept);
      }
    }
    if forall i :: 0 <= i < |bodies| ==> Within(ParseItems(Lead(bodies[i])), kept) {
      forall path, x | x in WholeAt(bodies, [], HeadsBelow(path)) ensures x in At(text, [], HeadsBelow(path)) {
        WholeAtMember(bodies, path, x);
        var i :| 0 <= i < |bodies| && x in Below(ParseItems(Lead(bodies[i])), path);
        WithinAt(ParseItems(Lead(bodies[i])), kept, path, x);
      }
    }
  }
}
