/**
  Printing a section and parsing it again. The headings and the order of the
  subsections always read back; the items below them do exactly if the printed
  list is cut where the items are.
 */
module ChangelogPrinting {
  import opened Whitespace
  import opened ChangelogItems
  import opened ChangelogSections
  import opened ChangelogRoundTrip
  import S = Sorting

  // ----- blank lines around a list

  lemma {:induction false} ParseBlocksSize(blocks: seq<Lines>, a: nat, b: nat)
    requires forall i :: 0 <= i < |blocks| ==> blocks[i] != [] && |blocks[i]| <= a && |blocks[i]| <= b
    ensures ParseBlocks(blocks, a) == ParseBlocks(blocks, b)
    decreases |blocks|
  {
    if blocks != [] { ParseBlocksSize(blocks[..|blocks| - 1], a, b); }
  }

  /** Equal blocks make equal items. */
  lemma SameScanSameItems(a: Lines, b: Lines)
    requires ScanLines(a).blocks == ScanLines(b).blocks
    ensures ParseItems(a) == ParseItems(b)
  {
    var blocks := ScanLines(a).blocks;
    ScanKeepsText(a);
    ScanKeepsText(b);
    forall i | 0 <= i < |blocks| ensures |blocks[i]| <= |a| && |blocks[i]| <= |b| { BlockIsShort(blocks, i); }
    ParseBlocksSize(blocks, |a|, |b|);
  }

  /** A blank line in front changes the scan only until it has a block. */
  ghost predicate SameScan(s: Scan, t: Scan) {
    s.blocks == t.blocks && s.base == t.base && (s.blocks != [] ==> s == t)
  }

  lemma {:induction false} LeadingBlankScan(blank: string, lines: Lines)
    requires Blank(blank)
    ensures SameScan(ScanLines([blank] + lines), ScanLines(lines))
  {
    if lines == [] {
      assert [blank] + lines == [blank] && [blank][..0] == [];
    } else {
      var n := |lines| - 1;
      assert ([blank] + lines)[..|[blank] + lines| - 1] == [blank] + lines[..n];
      LeadingBlankScan(blank, lines[..n]);
    }
  }

  lemma LeadingBlank(blank: string, lines: Lines)
    requires Blank(blank)
    ensures ParseItems([blank] + lines) == ParseItems(lines)
  {
    LeadingBlankScan(blank, lines);
    SameScanSameItems([blank] + lines, lines);
  }

  lemma {:induction false} IndentOfBullet(line: string)
    requires Bullet(line)
    ensures !Blank(line)
  {
    var k := Min(Indent(line), |line|);
    assert line[k..][0] == line[k];
  }

  /** A blank line at the end of a block nests nothing. */
  lemma {:induction false} NestedBeforeBlank(block: Lines, blank: string, i: nat)
    requires block != [] && Blank(blank) && 1 <= i <= |block|
    ensures NestedFrom(block + [blank], i)
      == if NestedFrom(block, i) == |block| then |block| + 1 else NestedFrom(block, i)
    decreases |block| - i
  {
    var longer := block + [blank];
    if i == |block| {
      if Bullet(longer[i]) { IndentOfBullet(longer[i]); }
      assert NestedFrom(longer, i) == NestedFrom(longer, i + 1);
    } else {
      assert longer[i] == block[i] && longer[0] == block[0];
      NestedBeforeBlank(block, blank, i + 1);
    }
  }

  lemma TrimBlankEnd(lines: Lines, blank: string)
    requires lines != [] && !Blank(lines[0]) && Blank(blank)
    ensures Trim(lines + [blank]) == Trim(lines)
  {
    TrimStartOf(lines);
    TrimStartOf(lines + [blank]);
    assert (lines + [blank])[..|lines|] == lines;
  }

  lemma {:induction false} TrailingBlankBlock(block: Lines, blank: string)
    requires block != [] && !Blank(block[0]) && Blank(blank)
    ensures var n, m := NestedFrom(block, 1), NestedFrom(block + [blank], 1);
      && Trim((block + [blank])[..m]) == Trim(block[..n])
      && ParseItems((block + [blank])[m..]) == ParseItems(block[n..])
    decreases |block|, 0
  {
    var n, longer := NestedFrom(block, 1), block + [blank];
    NestedBeforeBlank(block, blank, 1);
    if n == |block| {
      assert longer[..n + 1] == block + [blank] && block[..n] == block;
      TrimBlankEnd(block, blank);
      assert longer[n + 1..] == [] && block[n..] == [];
    } else {
      assert longer[..n] == block[..n] && longer[n..] == block[n..] + [blank];
      TrailingBlank(block[n..], blank);
    }
  }

  /** A blank line behind a list is no part of it. */
  lemma {:induction false} TrailingBlank(lines: Lines, blank: string)
    requires Blank(blank)
    ensures ParseItems(lines + [blank]) == ParseItems(lines)
    decreases |lines|, 1
  {
    var more := lines + [blank];
    assert more[..|lines|] == lines;
    var blocks := ScanLines(lines).blocks;
    ScanKeepsText(lines);
    if blocks == [] {
      SameScanSameItems(more, lines);
    } else {
      var n := |blocks| - 1;
      BlockIsShort(blocks, n);
      TrailingBlankBlock(blocks[n], blank);
      assert ScanLines(more).blocks == AppendToLast(blocks, blank);
      ParsedAt(lines, n);
      ParsedAt(more, n);
      var a, b := ParseItems(more), ParseItems(lines);
      forall i | 0 <= i < |blocks| ensures a[i] == b[i] {
        ParsedAt(lines, i);
        ParsedAt(more, i);
      }
      assert a == b;
    }
  }

  // ----- splitting a text at its headings

  lemma {:induction false} HashesAre(level: nat)
    ensures |Hashes(level)| == level && forall i :: 0 <= i < level ==> Hashes(level)[i] == '#'
  {
    if level > 0 { HashesAre(level - 1); }
  }

  /** No line is a heading of this level. */
  ghost predicate Plain(lines: Lines, level: nat) {
    forall i :: 0 <= i < |lines| ==> !(Prefix(level) <= lines[i])
  }

  lemma BlankIsPlain(blank: string, level: nat)
    requires Blank(blank) && level >= 1
    ensures Plain([blank], level)
  {
    HashesAre(level);
    assert Prefix(level)[0] == '#';
  }

  /** The split after more lines that are no headings. */
  function Follow(s: Split, more: Lines): Split {
    if s.parts == [] then s.(body := s.body + more)
    else
      var n := |s.parts| - 1;
      s.(parts := s.parts[n := (s.parts[n].0, s.parts[n].1 + more)])
  }

  lemma FollowMore(s: Split, more: Lines, line: string, level: nat)
    requires !(Prefix(level) <= line)
    ensures SplitLine(Follow(s, more), line, Prefix(level)) == Follow(s, more + [line])
  {
    if s.parts == [] {
      assert (s.body + more) + [line] == s.body + (more + [line]);
    } else {
      var last := s.parts[|s.parts| - 1];
      assert (last.1 + more) + [line] == last.1 + (more + [line]);
    }
  }

  lemma FollowNothing(s: Split)
    ensures Follow(s, []) == s
  {
    if s.parts == [] {
      assert s.body + [] == s.body;
    } else {
      var n := |s.parts| - 1;
      assert s.parts[n].1 + [] == s.parts[n].1;
      assert s.parts[n := s.parts[n]] == s.parts;
    }
  }

  lemma {:induction false} SplitPlain(a: Lines, b: Lines, level: nat)
    requires Plain(b, level)
    ensures SplitLines(a + b, Prefix(level)) == Follow(SplitLines(a, Prefix(level)), b)
  {
    if b == [] {
      assert a + b == a;
      FollowNothing(SplitLines(a, Prefix(level)));
    } else {
      var n := |b| - 1;
      assert (a + b)[..|a + b| - 1] == a + b[..n];
      SplitPlain(a, b[..n], level);
      FollowMore(SplitLines(a, Prefix(level)), b[..n], b[n], level);
      assert b[..n] + [b[n]] == b;
    }
  }

  lemma HeadingTitle(title: string, level: nat)
    ensures Prefix(level) <= Heading(title, level) && Heading(title, level)[|Prefix(level)|..] == title
  {
  }

  lemma SplitHeading(a: Lines, title: string, b: Lines, level: nat)
    requires Plain(b, level) && Strip(title) == title
    ensures var s := SplitLines(a, Prefix(level));
      SplitLines(a + [Heading(title, level)] + b, Prefix(level)) == Split(s.body, s.parts + [(title, b)])
  {
    var h := Heading(title, level);
    HeadingTitle(title, level);
    assert (a + [h])[..|a|] == a;
    assert SplitLines(a + [h], Prefix(level)) == SplitLine(SplitLines(a, Prefix(level)), h, Prefix(level));
    SplitPlain(a + [h], b, level);
    assert [] + b == b;
  }

  lemma {:induction false} ParsePartsSize(parts: seq<(string, Lines)>, level: nat, a: nat, b: nat)
    requires forall i :: 0 <= i < |parts| ==> |parts[i].1| < a && |parts[i].1| < b
    ensures ParseParts(parts, level, a) == ParseParts(parts, level, b)
    decreases |parts|
  {
    if parts != [] { ParsePartsSize(parts[..|parts| - 1], level, a, b); }
  }

  /** A heading and what follows it become one more subsection. */
  lemma ParseHeading(a: Lines, title: string, b: Lines, level: nat)
    requires Plain(b, level) && Strip(title) == title
    ensures var s := ParseSection(a, level);
      ParseSection(a + [Heading(title, level)] + b, level)
        == Section(s.items, s.subs + [Sub(title, ParseSection(b, level + 1))])
  {
    var lines := a + [Heading(title, level)] + b;
    var before, after := SplitLines(a, Prefix(level)), SplitLines(lines, Prefix(level));
    SplitHeading(a, title, b, level);
    assert after.parts[..|before.parts|] == before.parts;
    ParsePartsSize(before.parts, level + 1, |a|, |lines|);
  }

  lemma PlainSection(lines: Lines, level: nat)
    requires Plain(lines, level)
    ensures ParseSection(lines, level) == Section(ParseItems(lines), [])
  {
    SplitPlain([], lines, level);
    assert [] + lines == lines;
  }

  lemma {:induction false} ParsePartsAt(parts: seq<(string, Lines)>, level: nat, size: nat, i: nat)
    requires (forall j :: 0 <= j < |parts| ==> |parts[j].1| < size) && i < |parts|
    ensures ParseParts(parts, level, size)[i] == Sub(parts[i].0, ParseSection(parts[i].1, level))
    decreases |parts|
  {
    var n := |parts| - 1;
    if i < n {
      ParsePartsAt(parts[..n], level, size, i);
      assert ParseParts(parts, level, size)[i] == ParseParts(parts[..n], level, size)[i];
    }
  }

  function ReadSplit(s: Split, level: nat, size: nat): Section
    requires forall i :: 0 <= i < |s.parts| ==> |s.parts[i].1| < size
  {
    Section(ParseItems(s.body), ParseParts(s.parts, level + 1, size))
  }

  lemma SectionOfSplit(lines: Lines, level: nat)
    ensures ParseSection(lines, level) == ReadSplit(SplitLines(lines, Prefix(level)), level, |lines|)
  {
  }

  ghost predicate BlankIsNoPart(lines: Lines, blank: string, level: nat) {
    ParseSection(lines + [blank], level) == ParseSection(lines, level)
  }

  /** With one more line the split reads as before. */
  ghost predicate SameRead(s: Split, t: Split, level: nat, size: nat) {
    && (forall i :: 0 <= i < |s.parts| ==> |s.parts[i].1| < size)
    && (forall i :: 0 <= i < |t.parts| ==> |t.parts[i].1| < size + 1)
    && ReadSplit(t, level, size + 1) == ReadSplit(s, level, size)
  }

  lemma BlankFollows(s: Split, blank: string, level: nat, size: nat)
    requires Blank(blank) && forall i :: 0 <= i < |s.parts| ==> |s.parts[i].1| < size
    requires s.parts != [] ==> BlankIsNoPart(s.parts[|s.parts| - 1].1, blank, level + 1)
    ensures SameRead(s, Follow(s, [blank]), level, size)
  {
    if s.parts == [] {
      TrailingBlank(s.body, blank);
    } else {
      PartFollows(s, s.parts[|s.parts| - 1].1 + [blank], level, size);
    }
  }

  /** A last part that reads the same makes a split that reads the same. */
  lemma PartFollows(s: Split, last: Lines, level: nat, size: nat)
    requires s.parts != [] && (forall i :: 0 <= i < |s.parts| ==> |s.parts[i].1| < size) && |last| <= size
    requires ParseSection(last, level + 1) == ParseSection(s.parts[|s.parts| - 1].1, level + 1)
    ensures SameRead(s, s.(parts := s.parts[|s.parts| - 1 := (s.parts[|s.parts| - 1].0, last)]), level, size)
  {
    var n := |s.parts| - 1;
    SameParts(s.parts, n, last, level + 1, size);
    PartsRead(s.body, s.parts, s.parts[n := (s.parts[n].0, last)], level, size);
  }

  lemma PartsRead(body: Lines, parts: seq<(string, Lines)>, changed: seq<(string, Lines)>, level: nat, size: nat)
    requires forall i :: 0 <= i < |parts| ==> |parts[i].1| < size
    requires forall i :: 0 <= i < |changed| ==> |changed[i].1| < size + 1
    requires ParseParts(changed, level + 1, size + 1) == ParseParts(parts, level + 1, size)
    ensures SameRead(Split(body, parts), Split(body, changed), level, size)
  {
  }

  lemma SameParts(a: seq<(string, Lines)>, n: nat, last: Lines, level: nat, size: nat)
    requires n < |a| && (forall i :: 0 <= i < |a| ==> |a[i].1| < size) && |last| <= size
    requires ParseSection(last, level) == ParseSection(a[n].1, level)
    ensures var b := a[n := (a[n].0, last)];
      && (forall i :: 0 <= i < |b| ==> |b[i].1| < size + 1)
      && ParseParts(b, level, size + 1) == ParseParts(a, level, size)
  {
    var b := a[n := (a[n].0, last)];
    var p, q := ParseParts(a, level, size), ParseParts(b, level, size + 1);
    forall i | 0 <= i < |a| ensures p[i] == q[i] {
      SamePart(a, b, level, size, i);
    }
    assert p == q;
  }

  lemma SamePart(a: seq<(string, Lines)>, b: seq<(string, Lines)>, level: nat, size: nat, i: nat)
    requires i < |a| == |b| && a[i].0 == b[i].0 && ParseSection(b[i].1, level) == ParseSection(a[i].1, level)
    requires (forall j :: 0 <= j < |a| ==> |a[j].1| < size) && forall j :: 0 <= j < |b| ==> |b[j].1| < size + 1
    ensures ParseParts(a, level, size)[i] == ParseParts(b, level, size + 1)[i]
  {
    ParsePartsAt(a, level, size, i);
    ParsePartsAt(b, level, size + 1, i);
  }

  lemma SplitBlank(lines: Lines, blank: string, level: nat)
    requires Blank(blank) && level >= 1
    ensures SplitLines(lines + [blank], Prefix(level)) == Follow(SplitLines(lines, Prefix(level)), [blank])
  {
    BlankIsPlain(blank, level);
    SplitPlain(lines, [blank], level);
  }

  /** A blank line at the end of a section is no part of it. */
  lemma {:induction false} TrailingBlankSection(lines: Lines, blank: string, level: nat)
    requires Blank(blank) && level >= 1
    ensures BlankIsNoPart(lines, blank, level)
    decreases |lines|, 1
  {
    BlankSplit(SplitLines(lines, Prefix(level)), blank, level, |lines|);
    BlankSection(lines, blank, level, SplitLines(lines, Prefix(level)),
                 Follow(SplitLines(lines, Prefix(level)), [blank]));
  }

  lemma {:induction false} BlankSplit(s: Split, blank: string, level: nat, size: nat)
    requires Blank(blank) && level >= 1 && forall i :: 0 <= i < |s.parts| ==> |s.parts[i].1| < size
    ensures SameRead(s, Follow(s, [blank]), level, size)
    decreases size, 0
  {
    if s.parts != [] { TrailingBlankSection(s.parts[|s.parts| - 1].1, blank, level + 1); }
    BlankFollows(s, blank, level, size);
  }

  lemma BlankSection(lines: Lines, blank: string, level: nat, s: Split, t: Split)
    requires Blank(blank) && level >= 1 && s == SplitLines(lines, Prefix(level)) && t == Follow(s, [blank])
    requires SameRead(s, t, level, |lines|)
    ensures BlankIsNoPart(lines, blank, level)
  {
    SplitBlank(lines, blank, level);
    SectionOfSplit(lines, level);
    SectionOfSplit(lines + [blank], level);
  }

  // ----- the shape of absorbed sections

  /** No heading of the levels 3 to `level`. */
  predicate NoHeading(x: string, level: nat) {
    level < 3 || (!(Prefix(level) <= x) && NoHeading(x, level - 1))
  }

  function Fine(ok: string -> bool, level: nat): string -> bool { x => ok(x) && NoHeading(x, level) }

  /** Sound items without headings of this level or above, and stripped titles, all the way down. */
  ghost predicate SoundSection(section: Section, level: nat, ok: string -> bool) {
    && Sound(section.items, Fine(ok, level))
    && forall i :: 0 <= i < |section.subs| ==>
         Strip(section.subs[i].title) == section.subs[i].title && SoundSection(section.subs[i].section, level + 1, ok)
  }

  lemma {:induction false} StripStartOf(s: string)
    ensures StripStart(s) != "" ==> !IsSpace(StripStart(s)[0])
  {
    if s != "" && IsSpace(s[0]) { StripStartOf(s[1..]); }
  }

  lemma {:induction false} StripEndOf(s: string)
    ensures StripEnd(s) <= s && (StripEnd(s) != "" ==> !IsSpace(StripEnd(s)[|StripEnd(s)| - 1]))
  {
    if s != "" && IsSpace(s[|s| - 1]) { StripEndOf(s[..|s| - 1]); }
  }

  lemma StripTwice(s: string)
    ensures Strip(Strip(s)) == Strip(s)
  {
    StripStartOf(s);
    StripEndOf(StripStart(s));
  }

  /** Titles are stripped, and neither the body nor a part holds a heading of the level. */
  lemma {:induction false} SplitIsPlain(lines: Lines, level: nat)
    ensures var s := SplitLines(lines, Prefix(level));
      && Plain(s.body, level)
      && forall i :: 0 <= i < |s.parts| ==> Plain(s.parts[i].1, level) && Strip(s.parts[i].0) == s.parts[i].0
  {
    if lines != [] {
      var n := |lines| - 1;
      SplitIsPlain(lines[..n], level);
      if Prefix(level) <= lines[n] { StripTwice(lines[n][|Prefix(level)|..]); }
    }
  }

  lemma FineIfPlain(lines: Lines, all: Lines, ok: string -> bool, level: nat)
    requires level >= 3 && AllOk(all, Fine(ok, level - 1)) && Plain(lines, level) && forall x :: x in lines ==> x in all
    ensures AllOk(lines, Fine(ok, level))
  {
  }

  lemma {:induction false} AbsorbPartsSound(subs: seq<Sub>, parts: seq<(string, Lines)>, level: nat, size: nat,
                                            ok: string -> bool)
    requires level >= 4 && SoundSection(Section([], subs), level - 1, ok)
    requires forall i :: 0 <= i < |parts| ==>
      |parts[i].1| < size && AllOk(parts[i].1, Fine(ok, level - 1)) && Strip(parts[i].0) == parts[i].0
    ensures SoundSection(Section([], AbsorbParts(subs, parts, level, size)), level - 1, ok)
    decreases size, 0, |parts|
  {
    if parts != [] {
      var n := |parts| - 1;
      AbsorbPartsSound(subs, parts[..n], level, size, ok);
      var before := AbsorbParts(subs, parts[..n], level, size);
      var k := PositionIn(TitlesOf(before), parts[n].0);
      AbsorbSound(if k == |before| then EMPTY else before[k].section, parts[n].1, level, ok);
    }
  }

  lemma {:induction false} AbsorbSound(section: Section, lines: Lines, level: nat, ok: string -> bool)
    requires level >= 3 && SoundSection(section, level, ok) && AllOk(lines, Fine(ok, level - 1))
    ensures SoundSection(Absorb(section, lines, level), level, ok)
    decreases |lines|, 1
  {
    var split := SplitLines(lines, Prefix(level));
    SplitMembers(lines, Prefix(level));
    SplitIsPlain(lines, level);
    FineIfPlain(split.body, lines, ok, level);
    forall i | 0 <= i < |split.parts| ensures AllOk(split.parts[i].1, Fine(ok, level)) {
      FineIfPlain(split.parts[i].1, lines, ok, level);
    }
    ParseSound(split.body, Fine(ok, level));
    MergeItemsSound(section.items, ParseItems(split.body), Fine(ok, level));
    AbsorbPartsSound(section.subs, split.parts, level + 1, |lines|, ok);
  }

  // ----- the printed lines

  /** Neither items nor a subsection with items. */
  predicate Hollow(section: Section) {
    section.items == [] && forall i :: 0 <= i < |section.subs| ==> Hollow(section.subs[i].section)
  }

  function PrintedSubs(subs: seq<Sub>, owner: Section, level: nat): Lines
    requires forall sub :: sub in subs ==> sub in owner.subs
    decreases owner, 0, |subs|
  {
    if subs == [] then []
    else
      var n := |subs| - 1;
      assert subs[n] in subs;
      SubIsSmaller(owner, subs[n]);
      PrintedSubs(subs[..n], owner, level)
      + (if Hollow(subs[n].section) then []
         else ["", Heading(subs[n].title, level)] + PrintedSection(subs[n].section, level + 1))
  }

  function PrintedSub(sub: Sub, level: nat): Lines {
    if Hollow(sub.section) then [] else ["", Heading(sub.title, level)] + PrintedSection(sub.section, level + 1)
  }

  /**
    A blank line and the items, then, in rank order, each subsection that is not
    hollow: a blank line, its heading, its lines.
   */
  function PrintedSection(section: Section, level: nat): Lines
    decreases section, 1
  {
    (if section.items == [] then [] else [""] + Render(section.items))
      + PrintedSubs(Ranked(section.subs), section, level)
  }

  function Piece(block: Lines): Lines { if block == [] then [""] else block }

  /** Blocks, each behind a blank line. */
  function Spread(blocks: seq<Lines>): Lines {
    if blocks == [] then []
    else Spread(blocks[..|blocks| - 1]) + [""] + Piece(blocks[|blocks| - 1])
  }

  lemma {:induction false} SpreadConcat(a: seq<Lines>, b: seq<Lines>)
    ensures Spread(a + b) == Spread(a) + Spread(b)
  {
    if b == [] {
      assert a + b == a;
    } else {
      var n := |b| - 1;
      assert (a + b)[..|a + b| - 1] == a + b[..n];
      SpreadConcat(a, b[..n]);
    }
  }

  lemma SpreadSingle(block: Lines)
    ensures Spread([block]) == [""] + Piece(block)
  {
    assert [block][..0] == [];
  }

  lemma {:induction false} SubBlocksPrint(subs: seq<Sub>, owner: Section, level: nat, ok: string -> bool)
    requires SoundSection(owner, level, ok) && forall sub :: sub in subs ==> sub in owner.subs
    ensures Spread(SubBlocks(subs, owner, level)) == PrintedSubs(subs, owner, level)
    ensures SubBlocks(subs, owner, level) == [] <==> AllHollow(subs)
    decreases owner, 0, |subs|
  {
    if subs != [] {
      var n := |subs| - 1;
      assert subs[n] in subs;
      SubIsSmaller(owner, subs[n]);
      SubBlocksPrint(subs[..n], owner, level, ok);
      BlocksPrint(subs[n].section, level + 1, ok);
      var before, below := SubBlocks(subs[..n], owner, level), Blocks(subs[n].section, level + 1);
      var lines, hollow := PrintedSection(subs[n].section, level + 1), Hollow(subs[n].section);
      OneMoreSub(before, Heading(subs[n].title, level), below, lines, hollow);
      AllHollowStep(subs);
    }
  }

  lemma OneMoreSub(before: seq<Lines>, heading: string, below: seq<Lines>, lines: Lines, hollow: bool)
    requires Spread(below) == lines && (below == [] <==> hollow)
    ensures var more := before + (if below == [] then [] else [[heading]] + below);
      && Spread(more) == Spread(before) + (if hollow then [] else ["", heading] + lines)
      && (more == [] <==> before == [] && hollow)
  {
    if hollow {
      assert before + [] == before;
    } else {
      SpreadSub(before, heading, below);
    }
  }

  ghost predicate AllHollow(subs: seq<Sub>) { forall i :: 0 <= i < |subs| ==> Hollow(subs[i].section) }

  lemma AllHollowStep(subs: seq<Sub>)
    requires subs != []
    ensures AllHollow(subs) <==> AllHollow(subs[..|subs| - 1]) && Hollow(subs[|subs| - 1].section)
  {
  }

  lemma SpreadSub(before: seq<Lines>, heading: string, below: seq<Lines>)
    ensures Spread(before + ([[heading]] + below)) == Spread(before) + (["", heading] + Spread(below))
  {
    SpreadConcat(before, [[heading]] + below);
    SpreadConcat([[heading]], below);
    SpreadSingle([heading]);
  }

  /** The blocks, spread, are the printed lines. */
  lemma {:induction false} BlocksPrint(section: Section, level: nat, ok: string -> bool)
    requires SoundSection(section, level, ok)
    ensures Spread(Blocks(section, level)) == PrintedSection(section, level)
    ensures Blocks(section, level) == [] <==> Hollow(section)
    decreases section, 1
  {
    var first := if section.items == [] then [] else [Render(section.items)];
    SubBlocksPrint(Ranked(section.subs), section, level, ok);
    RenderOk(section.items, Fine(ok, level));
    SpreadConcat(first, SubBlocks(Ranked(section.subs), section, level));
    SpreadSingle(Render(section.items));
    RankedHollow(section.subs);
  }

  lemma RankedHollow(subs: seq<Sub>)
    ensures AllHollow(Ranked(subs)) <==> AllHollow(subs)
  {
    RankedSame(subs);
    assert forall i :: 0 <= i < |subs| ==> subs[i] in subs;
    assert forall i :: 0 <= i < |Ranked(subs)| ==> Ranked(subs)[i] in Ranked(subs);
  }

  /** Ranking keeps the subsections. */
  lemma RankedSame(subs: seq<Sub>)
    ensures forall sub :: sub in Ranked(subs) <==> sub in subs
  {
    RankedInOrder(subs);
    forall sub ensures sub in Ranked(subs) <==> sub in subs {
      S.PermutationMembership(Ranked(subs), subs, sub);
    }
  }

  // ----- parsing the printed lines

  function ReprintSubs(subs: seq<Sub>, owner: Section): seq<Sub>
    requires forall sub :: sub in subs ==> sub in owner.subs
    decreases owner, 0, |subs|
  {
    if subs == [] then []
    else
      var n := |subs| - 1;
      assert subs[n] in subs;
      SubIsSmaller(owner, subs[n]);
      ReprintSubs(subs[..n], owner)
      + (if Hollow(subs[n].section) then [] else [Sub(subs[n].title, Reprint(subs[n].section))])
  }

  /**
    What the printed lines read as: the items as they read back, the subsections in
    rank order without the hollow ones.
   */
  function Reprint(section: Section): Section
    decreases section, 1
  {
    Section(ParseItems(Render(section.items)), ReprintSubs(Ranked(section.subs), section))
  }

  lemma SoundSub(owner: Section, sub: Sub, level: nat, ok: string -> bool)
    requires SoundSection(owner, level, ok) && sub in owner.subs
    ensures Strip(sub.title) == sub.title && SoundSection(sub.section, level + 1, ok)
  {
  }

  lemma {:induction false} PrintedSubsStep(subs: seq<Sub>, owner: Section, level: nat)
    requires subs != [] && forall sub :: sub in subs ==> sub in owner.subs
    ensures var n := |subs| - 1;
      PrintedSubs(subs, owner, level)
      == PrintedSubs(subs[..n], owner, level) + PrintedSub(subs[n], level)
  {
  }

  /** Blank lines and section headings are ok. */
  ghost predicate Accepts(ok: string -> bool) {
    ok("") && forall title, level :: level >= 3 ==> ok(Heading(title, level))
  }

  lemma {:induction false} HeadingIsFine(title: string, level: nat, below: nat)
    requires below < level
    ensures NoHeading(Heading(title, level), below)
  {
    if below >= 3 {
      HeadingIsFine(title, level, below - 1);
      HashesAre(level);
      HashesAre(below);
      assert Prefix(below)[below] == ' ' && Heading(title, level)[below] == '#';
    }
  }

  lemma {:induction false} EmptyIsFine(level: nat)
    ensures NoHeading("", level)
  {
    if level >= 3 { EmptyIsFine(level - 1); }
  }

  lemma {:induction false} PrintedSubsFine(subs: seq<Sub>, owner: Section, level: nat, ok: string -> bool)
    requires level >= 3 && Accepts(ok) && SoundSection(owner, level, ok)
      && forall sub :: sub in subs ==> sub in owner.subs
    ensures AllOk(PrintedSubs(subs, owner, level), Fine(ok, level - 1))
    decreases owner, 0, |subs|
  {
    if subs != [] {
      var n := |subs| - 1;
      assert subs[n] in subs;
      PrintedSubsFine(subs[..n], owner, level, ok);
      PrintedSubFine(subs[n], owner, level, ok);
      PrintedSubsStep(subs, owner, level);
      JoinedFine(PrintedSubs(subs[..n], owner, level), PrintedSub(subs[n], level), Fine(ok, level - 1));
    }
  }

  lemma {:induction false} PrintedSubFine(sub: Sub, owner: Section, level: nat, ok: string -> bool)
    requires level >= 3 && Accepts(ok) && SoundSection(owner, level, ok) && sub in owner.subs
    ensures AllOk(PrintedSub(sub, level), Fine(ok, level - 1))
    decreases owner, 0, 0
  {
    SubIsSmaller(owner, sub);
    SoundSub(owner, sub, level, ok);
    PrintedFine(sub.section, level + 1, ok);
    OneMoreFine([], sub.title, PrintedSection(sub.section, level + 1), level, ok);
    assert [] + PrintedSub(sub, level) == PrintedSub(sub, level);
  }

  lemma JoinedFine(a: Lines, b: Lines, ok: string -> bool)
    requires AllOk(a, ok) && AllOk(b, ok)
    ensures AllOk(a + b, ok)
  {
  }

  lemma OneMoreFine(before: Lines, title: string, lines: Lines, level: nat, ok: string -> bool)
    requires level >= 3 && Accepts(ok) && AllOk(before, Fine(ok, level - 1)) && AllOk(lines, Fine(ok, level))
    ensures AllOk(before + (["", Heading(title, level)] + lines), Fine(ok, level - 1))
  {
    HeadingIsFine(title, level, level - 1);
    EmptyIsFine(level - 1);
  }

  /** No printed line is a heading above the section's own. */
  lemma {:induction false} PrintedFine(section: Section, level: nat, ok: string -> bool)
    requires level >= 3 && Accepts(ok) && SoundSection(section, level, ok)
    ensures AllOk(PrintedSection(section, level), Fine(ok, level - 1))
    decreases section, 1
  {
    RenderOk(section.items, Fine(ok, level));
    EmptyIsFine(level - 1);
    PrintedSubsFine(Ranked(section.subs), section, level, ok);
  }

  lemma FineIsPlain(lines: Lines, ok: string -> bool, level: nat)
    requires level >= 3 && AllOk(lines, Fine(ok, level))
    ensures Plain(lines, level)
  {
    forall i | 0 <= i < |lines| ensures !(Prefix(level) <= lines[i]) { assert lines[i] in lines; }
  }

  function Reprinted(sub: Sub): seq<Sub> {
    if Hollow(sub.section) then [] else [Sub(sub.title, Reprint(sub.section))]
  }

  lemma {:induction false} ReprintSubsStep(subs: seq<Sub>, owner: Section)
    requires subs != [] && forall sub :: sub in subs ==> sub in owner.subs
    ensures var n := |subs| - 1;
      ReprintSubs(subs, owner) == ReprintSubs(subs[..n], owner) + Reprinted(subs[n])
  {
  }

  /** A printed subsection behind other lines reads as one more subsection. */
  lemma OneMoreRead(before: Lines, title: string, lines: Lines, level: nat)
    requires level >= 1 && Plain(lines, level) && Strip(title) == title
    ensures var s := ParseSection(before, level);
      ParseSection(before + (["", Heading(title, level)] + lines), level)
      == Section(s.items, s.subs + [Sub(title, ParseSection(lines, level + 1))])
  {
    assert before + (["", Heading(title, level)] + lines) == (before + [""]) + [Heading(title, level)] + lines;
    ParseHeading(before + [""], title, lines, level);
    TrailingBlankSection(before, "", level);
  }

  /** Behind `before`, the lines read as these further subsections. */
  ghost predicate ReadsBehind(before: Lines, lines: Lines, level: nat, read: seq<Sub>) {
    var s := ParseSection(before, level);
    ParseSection(before + lines, level) == Section(s.items, s.subs + read)
  }

  /** Lines without headings of this level that read, one level down, as this section. */
  ghost predicate ReadsAs(lines: Lines, level: nat, section: Section) {
    Plain(lines, level) && ParseSection(lines, level + 1) == section
  }

  lemma OneMorePrinted(before: Lines, printed: Lines, read: seq<Sub>, title: string, lines: Lines, section: Section,
                       level: nat, hollow: bool)
    requires level >= 1 && ReadsBehind(before, printed, level, read) && Strip(title) == title
      && ReadsAs(lines, level, section)
    ensures ReadsBehind(before, printed + (if hollow then [] else ["", Heading(title, level)] + lines), level,
                        read + (if hollow then [] else [Sub(title, section)]))
  {
    if hollow {
      assert printed + [] == printed && read + [] == read;
    } else {
      OneMoreBehind(before, printed, read, title, lines, section, level);
    }
  }

  lemma OneMoreBehind(before: Lines, printed: Lines, read: seq<Sub>, title: string, lines: Lines, section: Section,
                      level: nat)
    requires level >= 1 && ReadsBehind(before, printed, level, read) && Strip(title) == title
      && ReadsAs(lines, level, section)
    ensures ReadsBehind(before, printed + (["", Heading(title, level)] + lines), level, read + [Sub(title, section)])
  {
    var s := ParseSection(before, level);
    OneMoreRead(before + printed, title, lines, level);
    Reassociate(before, printed, ["", Heading(title, level)] + lines);
    Reassociate(s.subs, read, [Sub(title, section)]);
  }

  lemma Reassociate<T>(a: seq<T>, b: seq<T>, c: seq<T>)
    ensures a + (b + c) == (a + b) + c
  {
  }

  lemma ReadsNothing(before: Lines, level: nat)
    ensures ReadsBehind(before, [], level, [])
  {
    assert before + [] == before;
  }

  /** Behind any lines the printed subsections read as themselves. */
  lemma {:induction false} ParsePrintedSubs(before: Lines, subs: seq<Sub>, owner: Section, level: nat,
                                            ok: string -> bool)
    requires level >= 3 && Accepts(ok) && SoundSection(owner, level, ok)
      && forall sub :: sub in subs ==> sub in owner.subs
    ensures ReadsBehind(before, PrintedSubs(subs, owner, level), level, ReprintSubs(subs, owner))
    decreases owner, 0, |subs|
  {
    if subs == [] {
      ReadsNothing(before, level);
    } else {
      var n := |subs| - 1;
      var section := subs[n].section;
      ReprintSubsStep(subs, owner);
      ParsePrintedSubs(before, subs[..n], owner, level, ok);
      assert subs[n] in subs;
      SubIsSmaller(owner, subs[n]);
      PrintedReads(section, level, ok);
      OneMorePrinted(before, PrintedSubs(subs[..n], owner, level), ReprintSubs(subs[..n], owner), subs[n].title,
                     PrintedSection(section, level + 1), Reprint(section), level, Hollow(section));
    }
  }

  lemma {:induction false} PrintedReads(section: Section, level: nat, ok: string -> bool)
    requires level >= 3 && Accepts(ok) && SoundSection(section, level + 1, ok)
    ensures ReadsAs(PrintedSection(section, level + 1), level, Reprint(section))
    decreases section, 2
  {
    PrintedFine(section, level + 1, ok);
    FineIsPlain(PrintedSection(section, level + 1), ok, level);
    ParsePrinted(section, level + 1, ok);
  }

  /** The printed lines read as the section, its items as they read back. */
  lemma {:induction false} ParsePrinted(section: Section, level: nat, ok: string -> bool)
    requires level >= 3 && Accepts(ok) && SoundSection(section, level, ok)
    ensures ParseSection(PrintedSection(section, level), level) == Reprint(section)
    decreases section, 1
  {
    var before := if section.items == [] then [] else [""] + Render(section.items);
    ItemsRead(section.items, level, ok);
    ParsePrintedSubs(before, Ranked(section.subs), section, level, ok);
  }

  lemma ItemsRead(items: Forest, level: nat, ok: string -> bool)
    requires level >= 3 && Sound(items, Fine(ok, level))
    ensures ParseSection(if items == [] then [] else [""] + Render(items), level)
      == Section(ParseItems(Render(items)), [])
  {
    if items == [] {
      PlainSection([], level);
    } else {
      RenderOk(items, Fine(ok, level));
      FineIsPlain(Render(items), ok, level);
      BlankIsPlain("", level);
      PlainSection([""] + Render(items), level);
      LeadingBlank("", Render(items));
    }
  }

  // ----- when the text answers as the section does

  /** Every list of items in the section is cut where it prints. */
  predicate PrintableSection(section: Section) {
    Printable(section.items) && forall i :: 0 <= i < |section.subs| ==> PrintableSection(section.subs[i].section)
  }

  /** Two sections with the same heads at every subsection and below every path. */
  ghost predicate SameEntries(a: Section, b: Section) {
    forall titles, path :: At(a, titles, HeadsBelow(path)) == At(b, titles, HeadsBelow(path))
  }

  ghost predicate DistinctTitles(subs: seq<Sub>) {
    forall i, j :: 0 <= i < j < |subs| ==> subs[i].title != subs[j].title
  }

  lemma {:induction false} CountDistinct(subs: seq<Sub>, x: Sub)
    requires DistinctTitles(subs)
    ensures S.Count(subs, x) <= 1
  {
    if subs != [] {
      var n := |subs| - 1;
      CountDistinct(subs[..n], x);
      S.CountMembership(subs[..n], x);
    }
  }

  lemma {:induction false} CountTwice(subs: seq<Sub>, i: nat, j: nat)
    requires i < j < |subs| && subs[i] == subs[j]
    ensures S.Count(subs, subs[i]) >= 2
  {
    var n := |subs| - 1;
    if j == n {
      assert subs[..n][i] in subs[..n];
      S.CountMembership(subs[..n], subs[i]);
    } else {
      CountTwice(subs[..n], i, j);
    }
  }

  lemma RankedDistinct(subs: seq<Sub>)
    requires DistinctTitles(subs)
    ensures DistinctTitles(Ranked(subs))
  {
    var r := Ranked(subs);
    RankedInOrder(subs);
    RankedSame(subs);
    forall i, j | 0 <= i < j < |r| ensures r[i].title != r[j].title {
      assert r[i] in r && r[j] in r;
      if r[i] == r[j] {
        CountTwice(r, i, j);
        CountDistinct(subs, r[i]);
      }
    }
  }

  lemma {:induction false} ReprintSubsConcat(a: seq<Sub>, b: seq<Sub>, owner: Section)
    requires (forall sub :: sub in a ==> sub in owner.subs) && forall sub :: sub in b ==> sub in owner.subs
    ensures ReprintSubs(a + b, owner) == ReprintSubs(a, owner) + ReprintSubs(b, owner)
    decreases |b|
  {
    if b == [] {
      assert a + b == a;
    } else {
      var n := |b| - 1;
      assert (a + b)[..|a + b| - 1] == a + b[..n];
      assert (a + b)[|a + b| - 1] == b[n];
      ReprintSubsConcat(a, b[..n], owner);
      ReprintSubsStep(a + b, owner);
      ReprintSubsStep(b, owner);
      Reassociate(ReprintSubs(a, owner), ReprintSubs(b[..n], owner), Reprinted(b[n]));
    }
  }

  /** Among parts that say nothing, one says it all. */
  lemma SaysAmong(a: seq<Sub>, b: seq<Sub>, c: seq<Sub>, titles: seq<string>, query: Query)
    requires titles != [] && SubsAt(a, titles, query) == [] && SubsAt(c, titles, query) == []
    ensures SubsAt(a + b + c, titles, query) == SubsAt(b, titles, query)
  {
    SubsAtConcat(a + b, c, titles, query);
    SubsAtConcat(a, b, titles, query);
  }

  /** What the printed subsections say along a title: what its subsection says, nothing if that is hollow. */
  lemma ReprintSubsAt(subs: seq<Sub>, owner: Section, titles: seq<string>, query: Query, k: nat)
    requires DistinctTitles(subs) && titles != [] && k < |subs| && subs[k].title == titles[0]
    requires forall sub :: sub in subs ==> sub in owner.subs
    ensures SubsAt(ReprintSubs(subs, owner), titles, query)
         == if Hollow(subs[k].section) then [] else At(Reprint(subs[k].section), titles[1..], query)
  {
    var a, b, c := subs[..k], [subs[k]], subs[k + 1..];
    assert subs == a + b + c && subs[k] in subs;
    ReprintSubsThree(a, b, c, owner);
    ReprintSubsNone(a, owner, titles, query);
    ReprintSubsNone(c, owner, titles, query);
    SaysAmong(ReprintSubs(a, owner), ReprintSubs(b, owner), ReprintSubs(c, owner), titles, query);
    ReprintOne(subs[k], owner, titles, query);
  }

  lemma ReprintSubsThree(a: seq<Sub>, b: seq<Sub>, c: seq<Sub>, owner: Section)
    requires forall sub :: sub in a + b + c ==> sub in owner.subs
    ensures (forall sub :: sub in a ==> sub in owner.subs) && (forall sub :: sub in b ==> sub in owner.subs)
    ensures forall sub :: sub in c ==> sub in owner.subs
    ensures ReprintSubs(a + b + c, owner) == ReprintSubs(a, owner) + ReprintSubs(b, owner) + ReprintSubs(c, owner)
  {
    assert forall sub :: sub in a + b + c <==> sub in a || sub in b || sub in c;
    ReprintSubsConcat(a + b, c, owner);
    ReprintSubsConcat(a, b, owner);
  }

  lemma ReprintOne(sub: Sub, owner: Section, titles: seq<string>, query: Query)
    requires sub in owner.subs && titles != [] && sub.title == titles[0]
    ensures SubsAt(ReprintSubs([sub], owner), titles, query)
         == if Hollow(sub.section) then [] else At(Reprint(sub.section), titles[1..], query)
  {
    assert [sub][..0] == [];
    ReprintSubsAnswer([sub], owner, titles, query);
  }

  lemma ReprintSubsAnswer(subs: seq<Sub>, owner: Section, titles: seq<string>, query: Query)
    requires subs != [] && titles != [] && forall sub :: sub in subs ==> sub in owner.subs
    ensures var n := |subs| - 1;
      SubsAt(ReprintSubs(subs, owner), titles, query)
      == SubsAt(ReprintSubs(subs[..n], owner), titles, query)
         + (if Hollow(subs[n].section) || subs[n].title != titles[0] then []
            else At(Reprint(subs[n].section), titles[1..], query))
  {
    var n := |subs| - 1;
    ReprintSubsStep(subs, owner);
    OneMoreAnswer(ReprintSubs(subs[..n], owner), Sub(subs[n].title, Reprint(subs[n].section)), Hollow(subs[n].section),
                  titles, query);
  }

  lemma {:induction false} ReprintSubsNone(subs: seq<Sub>, owner: Section, titles: seq<string>, query: Query)
    requires titles != [] && (forall i :: 0 <= i < |subs| ==> subs[i].title != titles[0])
    requires forall sub :: sub in subs ==> sub in owner.subs
    ensures SubsAt(ReprintSubs(subs, owner), titles, query) == []
    decreases |subs|
  {
    if subs != [] {
      ReprintSubsNone(subs[..|subs| - 1], owner, titles, query);
      ReprintSubsAnswer(subs, owner, titles, query);
    }
  }

  lemma OneMoreAnswer(before: seq<Sub>, sub: Sub, hollow: bool, titles: seq<string>, query: Query)
    requires titles != []
    ensures SubsAt(before + (if hollow then [] else [sub]), titles, query)
         == SubsAt(before, titles, query)
            + (if hollow || sub.title != titles[0] then [] else At(sub.section, titles[1..], query))
  {
    if hollow {
      assert before + [] == before;
    } else {
      SubsAtConcat(before, [sub], titles, query);
      SubsAtSingle(sub, titles, query);
    }
  }

  lemma {:induction false} HollowSays(section: Section, titles: seq<string>, path: Path)
    requires Hollow(section)
    ensures At(section, titles, HeadsBelow(path)) == []
    decreases |titles|, 1
  {
    if titles == [] { BelowNothing(path); } else { HollowSubsSay(section.subs, titles, path); }
  }

  lemma {:induction false} HollowSubsSay(subs: seq<Sub>, titles: seq<string>, path: Path)
    requires AllHollow(subs) && titles != []
    ensures SubsAt(subs, titles, HeadsBelow(path)) == []
    decreases |titles|, 0, |subs|
  {
    if subs != [] {
      HollowSubsSay(subs[..|subs| - 1], titles, path);
      HollowSays(subs[|subs| - 1].section, titles[1..], path);
    }
  }

  lemma HollowReprint(section: Section)
    requires Hollow(section)
    ensures Hollow(Reprint(section))
  {
    PlainSection([], 3);
    HollowSubsReprint(Ranked(section.subs), section);
  }

  lemma {:induction false} HollowSubsReprint(subs: seq<Sub>, owner: Section)
    requires Hollow(owner) && forall sub :: sub in subs ==> sub in owner.subs
    ensures ReprintSubs(subs, owner) == []
  {
    if subs != [] {
      assert subs[|subs| - 1] in subs;
      ReprintSubsStep(subs, owner);
      HollowSubsReprint(subs[..|subs| - 1], owner);
    }
  }

  /** Along the title of a subsection, section and text answer what that subsection and its text do. */
  lemma SubAnswers(section: Section, k: nat, titles: seq<string>, path: Path)
    requires MergedSection(section) && k < |section.subs| && titles != [] && section.subs[k].title == titles[0]
    ensures At(section, titles, HeadsBelow(path)) == At(section.subs[k].section, titles[1..], HeadsBelow(path))
    ensures At(Reprint(section), titles, HeadsBelow(path))
      == At(Reprint(section.subs[k].section), titles[1..], HeadsBelow(path))
  {
    var subs, query := section.subs, HeadsBelow(path);
    SubsAtUnique(subs, k, titles, query);
    RankedDistinct(subs);
    RankedSame(subs);
    assert subs[k] in Ranked(subs);
    var j :| 0 <= j < |Ranked(subs)| && Ranked(subs)[j] == subs[k];
    ReprintSubsAt(Ranked(subs), section, titles, query, j);
    if Hollow(subs[k].section) {
      HollowReprint(subs[k].section);
      HollowSays(Reprint(subs[k].section), titles[1..], path);
    }
  }

  lemma NoSubAnswers(section: Section, titles: seq<string>, path: Path)
    requires titles != [] && forall i :: 0 <= i < |section.subs| ==> section.subs[i].title != titles[0]
    ensures At(section, titles, HeadsBelow(path)) == [] && At(Reprint(section), titles, HeadsBelow(path)) == []
  {
    SubsAtAbsent(section.subs, titles, HeadsBelow(path));
    RankedSame(section.subs);
    forall i | 0 <= i < |Ranked(section.subs)| ensures Ranked(section.subs)[i].title != titles[0] {
      assert Ranked(section.subs)[i] in Ranked(section.subs);
    }
    ReprintSubsNone(Ranked(section.subs), section, titles, HeadsBelow(path));
  }

  lemma SameItems(a: Section, b: Section)
    requires SameEntries(a, b)
    ensures SameHeads(a.items, b.items)
  {
    forall path ensures Below(a.items, path) == Below(b.items, path) {
      assert At(a, [], HeadsBelow(path)) == At(b, [], HeadsBelow(path));
    }
  }

  lemma SameSub(section: Section, k: nat)
    requires MergedSection(section) && SameEntries(Reprint(section), section) && k < |section.subs|
    ensures SameEntries(Reprint(section.subs[k].section), section.subs[k].section)
  {
    var sub := section.subs[k];
    forall titles, path
      ensures At(Reprint(sub.section), titles, HeadsBelow(path)) == At(sub.section, titles, HeadsBelow(path))
    {
      SameSubAt(section, k, [sub.title] + titles, titles, path);
    }
  }

  lemma SameSubAt(section: Section, k: nat, longer: seq<string>, titles: seq<string>, path: Path)
    requires MergedSection(section) && SameEntries(Reprint(section), section) && k < |section.subs|
    requires longer == [section.subs[k].title] + titles
    ensures At(Reprint(section.subs[k].section), titles, HeadsBelow(path))
      == At(section.subs[k].section, titles, HeadsBelow(path))
  {
    assert longer[1..] == titles;
    SubAnswers(section, k, longer, path);
    assert At(Reprint(section), longer, HeadsBelow(path)) == At(section, longer, HeadsBelow(path));
  }

  lemma SameFromParts(section: Section)
    requires MergedSection(section) && SameHeads(Reprint(section).items, section.items)
    requires forall k :: 0 <= k < |section.subs| ==>
      SameEntries(Reprint(section.subs[k].section), section.subs[k].section)
    ensures SameEntries(Reprint(section), section)
  {
    forall titles, path
      ensures At(Reprint(section), titles, HeadsBelow(path)) == At(section, titles, HeadsBelow(path))
    {
      if titles == [] {
        assert Below(Reprint(section).items, path) == Below(section.items, path);
      } else if k :| 0 <= k < |section.subs| && section.subs[k].title == titles[0] {
        SubAnswers(section, k, titles, path);
      } else {
        NoSubAnswers(section, titles, path);
      }
    }
  }

  /**
    The printed section has the section's heads, at every subsection and below
    every path, if and only if each of its lists is cut where it prints.
   */
  lemma {:induction false} ReprintExact(section: Section, level: nat, ok: string -> bool)
    requires MergedSection(section) && SoundSection(section, level, ok)
    ensures SameEntries(Reprint(section), section) <==> PrintableSection(section)
    decreases section
  {
    ReadsBackExact(section.items, Fine(ok, level));
    forall k | 0 <= k < |section.subs|
      ensures SameEntries(Reprint(section.subs[k].section), section.subs[k].section)
        <==> PrintableSection(section.subs[k].section)
    {
      ReprintExact(section.subs[k].section, level + 1, ok);
    }
    if SameEntries(Reprint(section), section) {
      SameItems(Reprint(section), section);
      forall k | 0 <= k < |section.subs|
        ensures SameEntries(Reprint(section.subs[k].section), section.subs[k].section)
      {
        SameSub(section, k);
      }
    }
    if PrintableSection(section) {
      SameFromParts(section);
    }
  }
}
