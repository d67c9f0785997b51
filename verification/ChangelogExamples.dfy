/**
  Inputs at which folding loses an entry, or prints entries so that they read
  back differently.
 */
module ChangelogExamples {
  import opened Whitespace
  import opened ChangelogItems
  import opened ChangelogSections
  import opened ChangelogRoundTrip
  import opened ChangelogPrinting
  import opened ChangelogFolding
  import S = Sorting

  // ----- small lists

  lemma OneLine(line: string)
    requires !Blank(line)
    ensures ParseItems([line]) == [Item([line], [])]
  {
    ScanFirst(line);
    ParsedAt([line], 0);
    assert NestedFrom([line], 1) == 1 && [line][..1] == [line] && [line][1..] == [];
    TrimSolid([line]);
  }

  /** A bullet that stands deeper than the line before. */
  ghost predicate Deeper(line: string, above: string) {
    Bullet(line) && Indent(line) > Indent(above) && !Blank(line) && !Blank(above)
  }

  lemma ScanTwo(x: string, a: string)
    requires Deeper(a, x)
    ensures ScanLines([x, a]) == Scan([[x, a]], Indent(x), false)
  {
    ScanFirst(x);
    assert [x, a][..1] == [x] && [x] + [a] == [x, a];
    assert AppendToLast([[x]], a) == [[x, a]];
  }

  lemma Nested(x: string, a: string)
    requires Deeper(a, x)
    ensures ParseItems([x, a]) == [Item([x], [Item([a], [])])]
  {
    ScanTwo(x, a);
    ParsedAt([x, a], 0);
    assert NestedFrom([x, a], 1) == 1 && [x, a][..1] == [x] && [x, a][1..] == [a];
    TrimSolid([x]);
    OneLine(a);
  }

  lemma NestedTwice(x: string, a: string, b: string)
    requires Deeper(a, x) && Deeper(b, a)
    ensures ParseItems([x, a, b]) == [Item([x], [Item([a], [Item([b], [])])])]
  {
    ScanTwo(x, a);
    assert [x, a, b][..2] == [x, a] && [x, a] + [b] == [x, a, b];
    assert AppendToLast([[x, a]], b) == [[x, a, b]];
    assert ScanLines([x, a, b]).blocks == [[x, a, b]];
    ParsedAt([x, a, b], 0);
    assert NestedFrom([x, a, b], 1) == 1 && [x, a, b][..1] == [x] && [x, a, b][1..] == [a, b];
    TrimSolid([x]);
    Nested(a, b);
  }

  // ----- an older release's lead is lost

  lemma LeadOf(direct: string, rest: Lines)
    requires !("### " <= direct) && rest != [] && "### " <= rest[0]
    ensures Lead([direct, ""] + rest) == [direct] + [""]
  {
    var body := [direct, ""] + rest;
    assert body[1..] == [""] + rest && body[1..][1..] == rest;
    assert FirstSection(rest) == 0 && FirstSection(body[1..]) == 1 && FirstSection(body) == 2;
  }

  lemma DirectEntry(body: Lines, direct: string)
    requires !Blank(direct) && Lead(body) == [direct] + [""]
    ensures ParseItems(Lead(body)) == [Item([direct], [])]
  {
    TrailingBlank([direct], "");
    OneLine(direct);
  }

  lemma NewestLead(bodies: seq<Lines>, line: string)
    requires bodies != [] && bodies[0] == [line] && !Blank(line) && !("### " <= line)
    ensures Introduction(bodies) == [line]
  {
    assert [line][1..] == [] && FirstSection([line]) == 1;
    assert Lead(bodies[0]) == [line];
    TrimSolid([line]);
  }

  lemma LostLead(newest: string, direct: string, rest: Lines, version: string, today: string)
    requires !Blank(newest) && !Blank(direct) && newest != direct && !("### " <= newest) && !("### " <= direct)
    requires rest != [] && "### " <= rest[0]
    ensures var bodies := [[newest], [direct, ""] + rest];
      && [direct] in WholeAt(bodies, [], HeadsBelow([]))
      && [direct] !in At(ParseSection(Folded(bodies, version, today), 3), [], HeadsBelow([]))
  {
    var bodies := [[newest], [direct, ""] + rest];
    LeadOf(direct, rest);
    DirectEntry(bodies[1], direct);
    SaidDirectly(bodies, 1, [direct]);
    NewestLead(bodies, newest);
    OneLine(newest);
    TextSays(bodies, [newest], version, today);
  }

  lemma SaidDirectly(bodies: seq<Lines>, i: nat, head: Lines)
    requires i < |bodies| && ParseItems(Lead(bodies[i])) == [Item(head, [])]
    ensures head in WholeAt(bodies, [], HeadsBelow([]))
  {
    assert Heads([Item(head, [])])[0] == head;
    WholeAtMember(bodies, [], head);
  }

  lemma TextSays(bodies: seq<Lines>, head: Lines, version: string, today: string)
    requires ParseItems(Introduction(bodies)) == [Item(head, [])]
    ensures At(ParseSection(Folded(bodies, version, today), 3), [], HeadsBelow([])) == [head]
  {
    FoldReads(bodies, version, today);
    assert Heads([Item(head, [])]) == [head];
  }

  /** An entry of the older release, before its first section, is not in the folded release. */
  lemma EntryIsLost(version: string, today: string)
    ensures var bodies := [["- fresh entry"], ["- direct entry", ""] + ["### Added", "- two"]];
      && ["- direct entry"] in WholeAt(bodies, [], HeadsBelow([]))
      && ["- direct entry"] !in At(ParseSection(Folded(bodies, version, today), 3), [], HeadsBelow([]))
  {
    assert "- fresh entry"[0] == '-' && "- direct entry"[0] == '-' && "- fresh entry"[2] == 'f'
      && "- direct entry"[2] == 'd';
    assert "### "[0] == '#';
    LostLead("- fresh entry", "- direct entry", ["### Added", "- two"], version, today);
  }

  // ----- two releases nest the same entry differently

  /** A section with one titled list. */
  function Titled(title: string, items: Forest): Section { Section([], [Sub(title, Section(items, []))]) }

  lemma AbsorbPlain(section: Section, lines: Lines, level: nat)
    requires Plain(lines, level)
    ensures Absorb(section, lines, level) == Section(MergeItems(section.items, ParseItems(lines)), section.subs)
  {
    SplitPlain([], lines, level);
    assert [] + lines == lines;
  }

  lemma AbsorbTitled(before: Section, items: Forest, title: string, lines: Lines)
    requires before == Titled(title, items) || (before == EMPTY && items == [])
    requires Strip(title) == title && Plain(lines, 3) && Plain(lines, 4)
    ensures Absorb(before, [Heading(title, 3)] + lines, 3) == Titled(title, MergeItems(items, ParseItems(lines)))
  {
    var body := [Heading(title, 3)] + lines;
    SplitHeading([], title, lines, 3);
    assert [] + [Heading(title, 3)] + lines == body;
    assert SplitLines(body, Prefix(3)) == Split([], [(title, lines)]);
    AbsorbOnePart(before.subs, title, lines, 4, |body|);
    AbsorbPlain(if before == EMPTY then EMPTY else Section(items, []), lines, 4);
    assert before != EMPTY ==> PositionIn(TitlesOf(before.subs), title) == 0;
  }

  lemma AbsorbOnePart(subs: seq<Sub>, title: string, lines: Lines, level: nat, size: nat)
    requires |lines| < size
    ensures AbsorbParts(subs, [(title, lines)], level, size) == AbsorbPart(subs, title, lines, level)
  {
    assert [(title, lines)][..0] == [];
  }

  lemma MergeTwo(x: string, a: string, b: string)
    requires a != b
    ensures var f, g := [Item([x], [Item([a], [])])], [Item([x], [Item([b], [])])];
      MergeItems(MergeItems([], f), g) == [Item([x], [Item([a], []), Item([b], [])])]
  {
    var f, g := [Item([x], [Item([a], [])])], [Item([x], [Item([b], [])])];
    MergeLeaf([], [a]);
    MergeSingle([], f[0]);
    assert [] + [Item([a], [])] == [Item([a], [])];
    assert MergeItems([], f) == f;
    MergeLeaf([Item([a], [])], [b]);
    MergeSingle(f, g[0]);
    assert PositionIn(Heads(f), [x]) == 0;
    assert [Item([a], [])] + [Item([b], [])] == [Item([a], []), Item([b], [])];
  }

  lemma MergeSingle(into: Forest, item: Item)
    ensures MergeItems(into, [item]) == MergeItem(into, item)
  {
    assert [item][..0] == [];
  }

  lemma MergeLeaf(into: Forest, head: Lines)
    requires PositionIn(Heads(into), head) == |into|
    ensures MergeItems(into, [Item(head, [])]) == into + [Item(head, [])]
  {
    MergeSingle(into, Item(head, []));
  }

  lemma EntriesOf(title: string, lines: Lines)
    ensures FirstSection([Heading(title, 3)] + lines) == 0
    ensures Entries([Heading(title, 3)] + lines) == [Heading(title, 3)] + lines
  {
    PrefixThree();
    HeadingTitle(title, 3);
  }

  ghost predicate Line(x: string) { !Blank(x) && Plain([x], 3) && Plain([x], 4) }

  lemma MergedTwo(title: string, x: string, a: string, b: string)
    requires Strip(title) == title && Line(x) && Line(a) && Line(b) && a != b && Deeper(a, x) && Deeper(b, x)
    ensures MergedBodies([[Heading(title, 3)] + [x, b], [Heading(title, 3)] + [x, a]])
         == Titled(title, [Item([x], [Item([a], []), Item([b], [])])])
  {
    var newer, older := [Heading(title, 3)] + [x, b], [Heading(title, 3)] + [x, a];
    EntriesOf(title, [x, a]);
    EntriesOf(title, [x, b]);
    assert [newer, older][1..] == [older] && [older][1..] == [];
    Nested(x, a);
    Nested(x, b);
    TwoPlain(x, a);
    TwoPlain(x, b);
    var f := MergeItems([], ParseItems([x, a]));
    AbsorbTitled(EMPTY, [], title, [x, a]);
    AbsorbTitled(Titled(title, f), f, title, [x, b]);
    MergeTwo(x, a, b);
    assert MergedBodies([]) == EMPTY;
    assert MergedBodies([older]) == Titled(title, f);
  }

  lemma TwoPlain(x: string, a: string)
    requires Line(x) && Line(a)
    ensures Plain([x, a], 3) && Plain([x, a], 4)
  {
    assert !(Prefix(3) <= [x][0]) && !(Prefix(4) <= [x][0]) && !(Prefix(3) <= [a][0]) && !(Prefix(4) <= [a][0]);
  }

  lemma RenderTwo(x: string, a: string, b: string)
    ensures Render([Item([x], [Item([a], []), Item([b], [])])]) == [x, a, b]
  {
    var c := [Item([a], []), Item([b], [])];
    assert c[..1] == [Item([a], [])] && [Item([a], [])][..0] == [];
    assert Render(c) == [a, b];
    assert [Item([x], c)][..0] == [];
  }

  lemma RankedSingle(sub: Sub)
    ensures Ranked([sub]) == [sub]
  {
    var r := Ranked([sub]);
    S.SortByLength([sub], ByRank(TitlesOf([sub])));
    assert r[0] in r;
  }

  lemma ReprintTitled(title: string, items: Forest)
    requires items != []
    ensures Reprint(Titled(title, items)).subs == [Sub(title, Section(ParseItems(Render(items)), []))]
  {
    var sub := Sub(title, Section(items, []));
    RankedSingle(sub);
    ReprintSubsStep([sub], Titled(title, items));
    assert [sub][..0] == [] && Ranked([]) == [];
    assert Reprint(Section(items, [])) == Section(ParseItems(Render(items)), []);
  }

  /** Two bodies with the same entry and one entry below it each, differently deep. */
  ghost predicate TwoDepths(title: string, x: string, a: string, b: string) {
    Strip(title) == title && Line(x) && Line(a) && Line(b) && a != b && Deeper(a, x) && Deeper(b, a)
  }

  function TwoBodies(title: string, x: string, a: string, b: string): seq<Lines> {
    [[Heading(title, 3)] + [x, b], [Heading(title, 3)] + [x, a]]
  }

  lemma MisnestedTree(title: string, x: string, a: string, b: string)
    requires TwoDepths(title, x, a, b)
    ensures At(MergedBodies(TwoBodies(title, x, a, b)), [title], HeadsBelow([[x]])) == [[a], [b]]
  {
    var items := [Item([x], [Item([a], []), Item([b], [])])];
    MergedTwo(title, x, a, b);
    TitledAt(title, items, x);
    assert Heads([Item([a], []), Item([b], [])]) == [[a], [b]];
  }

  lemma MisnestedText(title: string, x: string, a: string, b: string, version: string, today: string)
    requires TwoDepths(title, x, a, b)
    ensures At(ParseSection(Folded(TwoBodies(title, x, a, b), version, today), 3), [title], HeadsBelow([[x]])) == [[a]]
  {
    var items, read := [Item([x], [Item([a], []), Item([b], [])])], [Item([x], [Item([a], [Item([b], [])])])];
    MergedTwo(title, x, a, b);
    FoldReads(TwoBodies(title, x, a, b), version, today);
    ReprintTitled(title, items);
    RenderTwo(x, a, b);
    NestedTwice(x, a, b);
    TitledAt(title, read, x);
    assert Heads([Item([a], [Item([b], [])])]) == [[a]];
  }

  /** The tree has both entries below the first; in the text the second has moved below the other one. */
  lemma Misnested(title: string, x: string, a: string, b: string, version: string, today: string)
    requires TwoDepths(title, x, a, b)
    ensures var bodies := TwoBodies(title, x, a, b);
      && At(MergedBodies(bodies), [title], HeadsBelow([[x]])) == [[a], [b]]
      && At(ParseSection(Entries(Folded(bodies, version, today)), 3), [title], HeadsBelow([[x]])) == [[a]]
      && !PrintableSection(MergedBodies(bodies))
  {
    var bodies := TwoBodies(title, x, a, b);
    MisnestedTree(title, x, a, b);
    MisnestedText(title, x, a, b, version, today);
    BodySection(Folded(bodies, version, today));
    FoldReadsBack(bodies, version, today);
  }

  lemma SomeLine(x: string)
    requires !Blank(x) && x[0] != '#'
    ensures Line(x)
  {
    HashesAre(3);
    HashesAre(4);
    assert Prefix(3)[0] == '#' && Prefix(4)[0] == '#';
  }

  lemma SomeBullet(line: string, k: nat)
    requires k + 1 < |line| && line[k] == '-' && line[k + 1] == ' ' && forall i :: 0 <= i < k ==> line[i] == ' '
    ensures Indent(line) == k && Bullet(line) && Line(line)
  {
    BulletAt(line, k);
    SomeLine(line);
  }

  lemma AddedIsATitle()
    ensures Strip("Added") == "Added"
  {
    assert StripStart("Added") == "Added" && StripEnd("Added") == "Added";
  }

  lemma SuchLines()
    ensures TwoDepths("Added", "- X", "  - a", "    - b")
  {
    SomeBullet("- X", 0);
    SomeBullet("  - a", 2);
    SomeBullet("    - b", 4);
    assert "  - a"[2] == '-' && "    - b"[2] == ' ';
    AddedIsATitle();
  }

  /** One such pair of releases. */
  lemma EntryIsMisnested(version: string, today: string)
    ensures var bodies := [["### Added"] + ["- X", "    - b"], ["### Added"] + ["- X", "  - a"]];
      && At(MergedBodies(bodies), ["Added"], HeadsBelow([["- X"]])) == [["  - a"], ["    - b"]]
      && At(ParseSection(Entries(Folded(bodies, version, today)), 3), ["Added"], HeadsBelow([["- X"]])) == [["  - a"]]
  {
    PrefixThree();
    assert Heading("Added", 3) == "### Added";
    SuchLines();
    Misnested("Added", "- X", "  - a", "    - b", version, today);
  }

  lemma {:induction false} IndentAt(line: string, k: nat)
    requires k < |line| && line[k] != ' ' && forall i :: 0 <= i < k ==> line[i] == ' '
    ensures Indent(line) == k
    decreases k
  {
    if k > 0 { IndentAt(line[1..], k - 1); }
  }

  lemma BulletAt(line: string, k: nat)
    requires k + 1 < |line| && line[k] == '-' && line[k + 1] == ' ' && forall i :: 0 <= i < k ==> line[i] == ' '
    ensures Indent(line) == k && Bullet(line) && !Blank(line)
  {
    IndentAt(line, k);
    assert line[k..][0] == '-' && line[k..][1] == ' ';
    assert !IsSpace(line[k]);
  }

  lemma TitledAt(title: string, items: Forest, x: string)
    requires |items| == 1 && items[0].head == [x]
    ensures At(Titled(title, items), [title], HeadsBelow([[x]])) == Heads(items[0].children)
  {
    SubsAtSingle(Titled(title, items).subs[0], [title], HeadsBelow([[x]]));
    BelowSingle(items[0], [[x]]);
    assert items == [items[0]];
  }

  lemma ScanParagraphs(a: string, b: string)
    requires !Blank(a) && !Blank(b) && !Bullet(b)
    ensures ScanLines([a, b]).blocks == [[a, b]]
  {
    ScanFirst(a);
    assert [a, b][..1] == [a] && AppendToLast([[a]], b) == [[a] + [b]] && [a] + [b] == [a, b];
  }

  lemma TwoParagraphs(a: string, b: string)
    requires !Blank(a) && !Blank(b) && !Bullet(b)
    ensures ParseItems([a, b]) == [Item([a, b], [])]
  {
    ScanParagraphs(a, b);
    ParsedAt([a, b], 0);
    assert NestedFrom([a, b], 1) == 2 && [a, b][..2] == [a, b] && [a, b][2..] == [];
    TrimSolid([a, b]);
    assert ParseItems([]) == [];
  }

  lemma RenderParagraphs(a: string, b: string)
    ensures Render([Item([a], []), Item([b], [])]) == [a, b]
  {
    var items := [Item([a], []), Item([b], [])];
    assert items[..1] == [Item([a], [])] && [Item([a], [])][..0] == [];
  }

  /** Two entries that are paragraphs read back as one: the second does not start with a bullet. */
  lemma ParagraphsRunTogether(a: string, b: string)
    requires !Blank(a) && !Blank(b) && !Bullet(b)
    ensures var items := [Item([a], []), Item([b], [])];
      ParseItems(Render(items)) == [Item([a, b], [])] && !Printable(items)
  {
    var items := [Item([a], []), Item([b], [])];
    RenderParagraphs(a, b);
    TwoParagraphs(a, b);
    assert Segments(items)[0] == [a] && Segments(items)[1] == [b];
  }
}
