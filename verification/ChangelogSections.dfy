/**
  Changelog sections: items directly below a heading, and titled subsections.
  Release bodies are absorbed one after the other, oldest first, into one
  section, which is then printed with its subsections in rank order.
 */
module ChangelogSections {
  import opened Whitespace
  import opened ChangelogItems
  import S = Sorting

  datatype Section = Section(items: Forest, subs: seq<Sub>)
  datatype Sub = Sub(title: string, section: Section)

  const EMPTY := Section([], [])

  // ----- splitting at headings

  function Hashes(level: nat): string { if level == 0 then "" else Hashes(level - 1) + "#" }

  function Prefix(level: nat): string { Hashes(level) + " " }

  /** The lines before the first heading, and the titled parts after it. */
  datatype Split = Split(body: Lines, parts: seq<(string, Lines)>)

  function SplitLine(s: Split, line: string, prefix: string): Split {
    if prefix <= line then s.(parts := s.parts + [(Strip(line[|prefix|..]), [])])
    else if s.parts == [] then s.(body := s.body + [line])
    else
      var n := |s.parts| - 1;
      s.(parts := s.parts[n := (s.parts[n].0, s.parts[n].1 + [line])])
  }

  function SplitLines(lines: Lines, prefix: string): (r: Split)
    ensures |r.body| <= |lines| && forall i :: 0 <= i < |r.parts| ==> |r.parts[i].1| < |lines|
  {
    if lines == [] then Split([], [])
    else SplitLine(SplitLines(lines[..|lines| - 1], prefix), lines[|lines| - 1], prefix)
  }

  /** Every line of a part is a line of the text. */
  lemma {:induction false} SplitMembers(lines: Lines, prefix: string)
    ensures var s := SplitLines(lines, prefix);
      && (forall x :: x in s.body ==> x in lines)
      && (forall i, x :: 0 <= i < |s.parts| && x in s.parts[i].1 ==> x in lines)
  {
    if lines != [] {
      var n := |lines| - 1;
      SplitMembers(lines[..n], prefix);
      assert lines == lines[..n] + [lines[n]];
    }
  }

  // ----- what one body says, repetitions included

  function ParseParts(parts: seq<(string, Lines)>, level: nat, size: nat): (r: seq<Sub>)
    requires forall i :: 0 <= i < |parts| ==> |parts[i].1| < size
    ensures |r| == |parts| && forall i :: 0 <= i < |r| ==> r[i].title == parts[i].0
    decreases size, 0, |parts|
  {
    if parts == [] then []
    else
      var n := |parts| - 1;
      ParseParts(parts[..n], level, size) + [Sub(parts[n].0, ParseSection(parts[n].1, level))]
  }

  function ParseSection(lines: Lines, level: nat): Section
    decreases |lines|, 1
  {
    var split := SplitLines(lines, Prefix(level));
    Section(ParseItems(split.body), ParseParts(split.parts, level + 1, |lines|))
  }

  // ----- absorbing

  function AbsorbPart(subs: seq<Sub>, title: string, part: Lines, level: nat): seq<Sub>
    decreases |part|, 2
  {
    var k := PositionIn(TitlesOf(subs), title);
    if k == |subs| then subs + [Sub(title, Absorb(EMPTY, part, level))]
    else subs[k := Sub(title, Absorb(subs[k].section, part, level))]
  }

  function AbsorbParts(subs: seq<Sub>, parts: seq<(string, Lines)>, level: nat, size: nat): seq<Sub>
    requires forall i :: 0 <= i < |parts| ==> |parts[i].1| < size
    decreases size, 0, |parts|
  {
    if parts == [] then subs
    else
      var n := |parts| - 1;
      AbsorbPart(AbsorbParts(subs, parts[..n], level, size), parts[n].0, parts[n].1, level)
  }

  /** Merges a body's items and subsections into the section. */
  function Absorb(section: Section, lines: Lines, level: nat): Section
    decreases |lines|, 1
  {
    var split := SplitLines(lines, Prefix(level));
    Section(MergeItems(section.items, ParseItems(split.body)),
            AbsorbParts(section.subs, split.parts, level + 1, |lines|))
  }

  // ----- what a section contains

  /** Asks a section for the heads below a path of heads, or for its titles. */
  datatype Query = HeadsBelow(path: Path) | Titles

  function TitleLines(subs: seq<Sub>): (r: seq<Lines>)
    ensures |r| == |subs| && forall i :: 0 <= i < |r| ==> r[i] == [subs[i].title]
  {
    seq(|subs|, i requires 0 <= i < |subs| => [subs[i].title])
  }

  function SubsAt(subs: seq<Sub>, titles: seq<string>, query: Query): seq<Lines>
    requires titles != []
    decreases |titles|, 0, |subs|
  {
    if subs == [] then []
    else
      var n := |subs| - 1;
      SubsAt(subs[..n], titles, query)
        + (if subs[n].title == titles[0] then At(subs[n].section, titles[1..], query) else [])
  }

  /** The answer in every subsection reached by `titles`, in order. */
  function At(section: Section, titles: seq<string>, query: Query): seq<Lines>
    decreases |titles|, 1, 0
  {
    if titles != [] then SubsAt(section.subs, titles, query)
    else match query
      case HeadsBelow(path) => Below(section.items, path)
      case Titles => TitleLines(section.subs)
  }

  ghost predicate MergedSection(section: Section) {
    && Merged(section.items)
    && (forall i, j :: 0 <= i < j < |section.subs| ==> section.subs[i].title != section.subs[j].title)
    && (forall i :: 0 <= i < |section.subs| ==> MergedSection(section.subs[i].section))
  }

  ghost predicate MergedSubs(subs: seq<Sub>) { MergedSection(Section([], subs)) }

  lemma {:induction false} SubsAtConcat(a: seq<Sub>, b: seq<Sub>, titles: seq<string>, query: Query)
    requires titles != []
    ensures SubsAt(a + b, titles, query) == SubsAt(a, titles, query) + SubsAt(b, titles, query)
  {
    if b == [] {
      assert a + b == a;
    } else {
      var n := |b| - 1;
      assert (a + b)[..|a + b| - 1] == a + b[..n];
      SubsAtConcat(a, b[..n], titles, query);
    }
  }

  lemma SubsAtSingle(sub: Sub, titles: seq<string>, query: Query)
    requires titles != []
    ensures SubsAt([sub], titles, query) == if sub.title == titles[0] then At(sub.section, titles[1..], query) else []
  {
  }

  lemma {:induction false} SubsAtAbsent(subs: seq<Sub>, titles: seq<string>, query: Query)
    requires titles != [] && forall i :: 0 <= i < |subs| ==> subs[i].title != titles[0]
    ensures SubsAt(subs, titles, query) == []
  {
    if subs != [] {
      SubsAtAbsent(subs[..|subs| - 1], titles, query);
    }
  }

  lemma SubsAtUnique(subs: seq<Sub>, k: nat, titles: seq<string>, query: Query)
    requires k < |subs| && titles != [] && subs[k].title == titles[0]
    requires forall i :: 0 <= i < |subs| && i != k ==> subs[i].title != titles[0]
    ensures SubsAt(subs, titles, query) == At(subs[k].section, titles[1..], query)
  {
    assert subs == subs[..k] + [subs[k]] + subs[k + 1..];
    SubsAtAbsent(subs[..k], titles, query);
    SubsAtAbsent(subs[k + 1..], titles, query);
    SubsAtAmong(subs[..k], subs[k], subs[k + 1..], titles, query);
  }

  lemma SubsAtAmong(before: seq<Sub>, sub: Sub, after: seq<Sub>, titles: seq<string>, query: Query)
    requires titles != [] && sub.title == titles[0]
    requires SubsAt(before, titles, query) == [] && SubsAt(after, titles, query) == []
    ensures SubsAt(before + [sub] + after, titles, query) == At(sub.section, titles[1..], query)
  {
    SubsAtConcat(before + [sub], after, titles, query);
    SubsAtConcat(before, [sub], titles, query);
    SubsAtSingle(sub, titles, query);
  }

  lemma SubsAtReplaced(subs: seq<Sub>, k: nat, sub: Sub, titles: seq<string>, query: Query)
    requires k < |subs| && subs[k].title == sub.title && titles != [] && titles[0] != sub.title
    ensures SubsAt(subs[k := sub], titles, query) == SubsAt(subs, titles, query)
  {
    var before, after := subs[..k], subs[k + 1..];
    assert subs == before + [subs[k]] + after && subs[k := sub] == before + [sub] + after;
    SubsAtConcat(before + [subs[k]], after, titles, query);
    SubsAtConcat(before, [subs[k]], titles, query);
    SubsAtConcat(before + [sub], after, titles, query);
    SubsAtConcat(before, [sub], titles, query);
    SubsAtSingle(subs[k], titles, query);
    SubsAtSingle(sub, titles, query);
  }

  lemma AtNothing(titles: seq<string>, query: Query)
    ensures At(EMPTY, titles, query) == []
  {
  }

  /** Absorbing one titled part is exact at every subsection. */
  lemma {:induction false} AbsorbPartAt(subs: seq<Sub>, title: string, part: Lines, level: nat, titles: seq<string>,
                                        query: Query)
    requires MergedSubs(subs) && titles != []
    ensures SubsAt(AbsorbPart(subs, title, part, level), titles, query)
         == Extend(SubsAt(subs, titles, query), SubsAt([Sub(title, ParseSection(part, level))], titles, query))
    decreases |part|, 2
  {
    var k, parsed := PositionIn(TitlesOf(subs), title), Sub(title, ParseSection(part, level));
    var before := if k == |subs| then EMPTY else subs[k].section;
    var after := Sub(title, Absorb(before, part, level));
    if titles[0] == title { AbsorbAt(before, part, level, titles[1..], query); }
    if k == |subs| {
      AtNothing(titles[1..], query);
      AddedSubAt(subs, after, parsed, titles, query);
    } else {
      JoinedSubAt(subs, k, after, parsed, titles, query);
    }
  }

  /** A new title goes to the end. */
  lemma AddedSubAt(subs: seq<Sub>, after: Sub, parsed: Sub, titles: seq<string>, query: Query)
    requires titles != [] && after.title == parsed.title && forall i :: 0 <= i < |subs| ==> subs[i].title != after.title
    requires titles[0] == after.title ==>
      At(after.section, titles[1..], query) == Extend([], At(parsed.section, titles[1..], query))
    ensures SubsAt(subs + [after], titles, query)
      == Extend(SubsAt(subs, titles, query), SubsAt([parsed], titles, query))
  {
    SubsAtSingle(parsed, titles, query);
    SubsAtConcat(subs, [after], titles, query);
    SubsAtSingle(after, titles, query);
    if titles[0] == after.title { SubsAtAbsent(subs, titles, query); }
  }

  /** A title that is there takes in what is new. */
  lemma JoinedSubAt(subs: seq<Sub>, k: nat, after: Sub, parsed: Sub, titles: seq<string>, query: Query)
    requires titles != [] && after.title == parsed.title && k < |subs| && subs[k].title == after.title
    requires forall i :: 0 <= i < |subs| && i != k ==> subs[i].title != after.title
    requires titles[0] == after.title ==>
      At(after.section, titles[1..], query)
      == Extend(At(subs[k].section, titles[1..], query), At(parsed.section, titles[1..], query))
    ensures SubsAt(subs[k := after], titles, query)
      == Extend(SubsAt(subs, titles, query), SubsAt([parsed], titles, query))
  {
    SubsAtSingle(parsed, titles, query);
    if titles[0] == after.title {
      SubsAtUnique(subs, k, titles, query);
      SubsAtUnique(subs[k := after], k, titles, query);
    } else {
      SubsAtReplaced(subs, k, after, titles, query);
    }
  }

  lemma AbsorbPartTitles(subs: seq<Sub>, title: string, part: Lines, level: nat)
    ensures TitleLines(AbsorbPart(subs, title, part, level)) == Extend(TitleLines(subs), [[title]])
  {
    AddTitle(subs, title);
  }

  /** A title is added at the end, unless it is there. */
  lemma AddTitle(subs: seq<Sub>, title: string)
    ensures Extend(TitleLines(subs), [[title]])
         == if PositionIn(TitlesOf(subs), title) == |subs| then TitleLines(subs) + [[title]] else TitleLines(subs)
  {
    var k := PositionIn(TitlesOf(subs), title);
    assert [[title]][..0] == [];
    if k < |subs| {
      assert TitleLines(subs)[k] == [title];
    } else {
      assert forall i :: 0 <= i < |subs| ==> TitleLines(subs)[i][0] == TitlesOf(subs)[i];
    }
  }

  lemma {:induction false} AbsorbPartsAt(subs: seq<Sub>, parts: seq<(string, Lines)>, level: nat, size: nat,
                                         titles: seq<string>, query: Query)
    requires MergedSubs(subs) && titles != [] && forall i :: 0 <= i < |parts| ==> |parts[i].1| < size
    ensures SubsAt(AbsorbParts(subs, parts, level, size), titles, query)
         == Extend(SubsAt(subs, titles, query), SubsAt(ParseParts(parts, level, size), titles, query))
    decreases size, 0, |parts|
  {
    if parts != [] {
      var n := |parts| - 1;
      var before := AbsorbParts(subs, parts[..n], level, size);
      var parsed, last := ParseParts(parts[..n], level, size), Sub(parts[n].0, ParseSection(parts[n].1, level));
      AbsorbPartsAt(subs, parts[..n], level, size, titles, query);
      AbsorbPartsMerged(subs, parts[..n], level, size);
      AbsorbPartAt(before, parts[n].0, parts[n].1, level, titles, query);
      SubsAtConcat(parsed, [last], titles, query);
      ExtendConcat(SubsAt(subs, titles, query), SubsAt(parsed, titles, query), SubsAt([last], titles, query));
    }
  }

  lemma ParsePartsTitles(parts: seq<(string, Lines)>, level: nat, size: nat)
    requires parts != [] && forall i :: 0 <= i < |parts| ==> |parts[i].1| < size
    ensures var n := |parts| - 1;
      TitleLines(ParseParts(parts, level, size)) == TitleLines(ParseParts(parts[..n], level, size)) + [[parts[n].0]]
  {
  }

  lemma {:induction false} AbsorbPartsTitles(subs: seq<Sub>, parts: seq<(string, Lines)>, level: nat, size: nat)
    requires forall i :: 0 <= i < |parts| ==> |parts[i].1| < size
    ensures TitleLines(AbsorbParts(subs, parts, level, size))
      == Extend(TitleLines(subs), TitleLines(ParseParts(parts, level, size)))
  {
    if parts != [] {
      var n := |parts| - 1;
      AbsorbPartsTitles(subs, parts[..n], level, size);
      var before, parsed := AbsorbParts(subs, parts[..n], level, size), ParseParts(parts[..n], level, size);
      AbsorbPartTitles(before, parts[n].0, parts[n].1, level);
      assert AbsorbParts(subs, parts, level, size) == AbsorbPart(before, parts[n].0, parts[n].1, level);
      ParsePartsTitles(parts, level, size);
      ExtendConcat(TitleLines(subs), TitleLines(parsed), [[parts[n].0]]);
    }
  }

  /**
    Absorbing a body is exact: at every subsection and below every path the
    section shows what it had, then what the body adds, in order of appearance.
   */
  lemma {:induction false} AbsorbAt(section: Section, lines: Lines, level: nat, titles: seq<string>, query: Query)
    requires MergedSection(section)
    ensures At(Absorb(section, lines, level), titles, query)
         == Extend(At(section, titles, query), At(ParseSection(lines, level), titles, query))
    decreases |lines|, 1
  {
    var split := SplitLines(lines, Prefix(level));
    var after, parsed := Absorb(section, lines, level), ParseSection(lines, level);
    if titles != [] {
      AbsorbPartsAt(section.subs, split.parts, level + 1, |lines|, titles, query);
      assert At(after, titles, query) == SubsAt(after.subs, titles, query);
      assert At(parsed, titles, query) == SubsAt(parsed.subs, titles, query);
    } else if query.Titles? {
      AbsorbPartsTitles(section.subs, split.parts, level + 1, |lines|);
    } else {
      MergeItemsBelow(section.items, ParseItems(split.body), query.path);
    }
  }

  lemma {:induction false} AbsorbPartMerged(subs: seq<Sub>, title: string, part: Lines, level: nat)
    requires MergedSubs(subs)
    ensures MergedSubs(AbsorbPart(subs, title, part, level))
    decreases |part|, 2
  {
    var k := PositionIn(TitlesOf(subs), title);
    AbsorbMerged(if k == |subs| then EMPTY else subs[k].section, part, level);
  }

  lemma {:induction false} AbsorbPartsMerged(subs: seq<Sub>, parts: seq<(string, Lines)>, level: nat, size: nat)
    requires MergedSubs(subs) && forall i :: 0 <= i < |parts| ==> |parts[i].1| < size
    ensures MergedSubs(AbsorbParts(subs, parts, level, size))
    decreases size, 0, |parts|
  {
    if parts != [] {
      var n := |parts| - 1;
      AbsorbPartsMerged(subs, parts[..n], level, size);
      AbsorbPartMerged(AbsorbParts(subs, parts[..n], level, size), parts[n].0, parts[n].1, level);
    }
  }

  /** Absorbing keeps siblings distinct, at every depth. */
  lemma {:induction false} AbsorbMerged(section: Section, lines: Lines, level: nat)
    requires MergedSection(section)
    ensures MergedSection(Absorb(section, lines, level))
    decreases |lines|, 1
  {
    var split := SplitLines(lines, Prefix(level));
    MergeItemsMerged(section.items, ParseItems(split.body));
    AbsorbPartsMerged(section.subs, split.parts, level + 1, |lines|);
  }

  // ----- printing

  const ORDER := ["Added", "Changed", "Deprecated", "Removed", "Fixed", "Security"]
  const LAST_SUBSECTION := "Helm chart"

  function TitlesOf(subs: seq<Sub>): (r: seq<string>)
    ensures |r| == |subs| && forall i :: 0 <= i < |r| ==> r[i] == subs[i].title
  {
    seq(|subs|, i requires 0 <= i < |subs| => subs[i].title)
  }

  /** The well-known titles first, then the others as they came, the chart's last. */
  function Rank(title: string, titles: seq<string>): (int, int) {
    if title == LAST_SUBSECTION then (2, 0)
    else if title in ORDER then (0, PositionIn(ORDER, title))
    else (1, PositionIn(titles, title))
  }

  function ByRank(titles: seq<string>): (Sub, Sub) -> bool {
    (a: Sub, b: Sub) =>
      var x, y := Rank(a.title, titles), Rank(b.title, titles);
      x.0 < y.0 || (x.0 == y.0 && x.1 <= y.1)
  }

  lemma ByRankIsPreorder(titles: seq<string>)
    ensures S.TotalPreorder(ByRank(titles))
  {
  }

  function Ranked(subs: seq<Sub>): (r: seq<Sub>)
    ensures forall sub :: sub in r ==> sub in subs
  {
    S.SortByPermutes(subs, ByRank(TitlesOf(subs)));
    var r := S.SortBy(subs, ByRank(TitlesOf(subs)));
    assert forall sub :: sub in r ==> sub in subs by {
      forall sub | sub in r ensures sub in subs { S.PermutationMembership(r, subs, sub); }
    }
    r
  }

  function Heading(title: string, level: nat): string { Hashes(level) + " " + title }

  lemma SubIsSmaller(owner: Section, sub: Sub)
    requires sub in owner.subs
    ensures sub.section < owner
  {
    var k :| 0 <= k < |owner.subs| && owner.subs[k] == sub;
    assert owner.subs[k].section < owner;
  }

  function SubBlocks(subs: seq<Sub>, owner: Section, level: nat): seq<Lines>
    requires forall sub :: sub in subs ==> sub in owner.subs
    decreases owner, 0, |subs|
  {
    if subs == [] then []
    else
      var n := |subs| - 1;
      assert subs[n] in subs;
      SubIsSmaller(owner, subs[n]);
      var below := Blocks(subs[n].section, level + 1);
      SubBlocks(subs[..n], owner, level) + (if below == [] then [] else [[Heading(subs[n].title, level)]] + below)
  }

  /** The section as blocks of lines; subsections without any entry vanish. */
  function Blocks(section: Section, level: nat): seq<Lines>
    decreases section, 1
  {
    (if section.items == [] then [] else [Render(section.items)]) + SubBlocks(Ranked(section.subs), section, level)
  }

  /** `a` stands before `b` in the list, or is it; of several places the first counts. */
  ghost predicate NotAfter(list: seq<string>, a: string, b: string) {
    exists i, j :: 0 <= i <= j < |list| && list[i] == a && list[j] == b && a !in list[..i] && b !in list[..j]
  }

  /**
    The order of printing: the well-known titles first, in this order, then the
    others as they appeared, and the chart's at the end.
   */
  ghost predicate PrintsBefore(a: string, b: string, titles: seq<string>) {
    var known := ["Added", "Changed", "Deprecated", "Removed", "Fixed", "Security"];
    || b == "Helm chart"
    || (a in known && b !in known && a != "Helm chart")
    || (a in known && b in known && NotAfter(known, a, b))
    || (a !in known && b !in known && a != "Helm chart" && NotAfter(titles, a, b))
  }

  lemma NotAfterAt(list: seq<string>, a: string, b: string)
    requires a in list && b in list && PositionIn(list, a) <= PositionIn(list, b)
    ensures NotAfter(list, a, b)
  {
    var i, j := PositionIn(list, a), PositionIn(list, b);
    assert list[i] == a && list[j] == b && a !in list[..i] && b !in list[..j];
  }

  lemma RankExact(a: Sub, b: Sub, titles: seq<string>)
    requires ByRank(titles)(a, b) && a.title in titles && b.title in titles
    ensures PrintsBefore(a.title, b.title, titles)
  {
    if a.title in ORDER && b.title in ORDER && b.title != LAST_SUBSECTION {
      NotAfterAt(ORDER, a.title, b.title);
    }
    if a.title !in ORDER && b.title !in ORDER && b.title != LAST_SUBSECTION {
      NotAfterAt(titles, a.title, b.title);
    }
  }

  /** The printed subsections are those of the section, in the order of printing. */
  lemma RankedInOrder(subs: seq<Sub>)
    ensures S.SortedBy(Ranked(subs), ByRank(TitlesOf(subs))) && S.Permutation(Ranked(subs), subs)
    ensures forall i, j :: 0 <= i < j < |Ranked(subs)| ==>
      PrintsBefore(Ranked(subs)[i].title, Ranked(subs)[j].title, TitlesOf(subs))
  {
    var r, titles := Ranked(subs), TitlesOf(subs);
    ByRankIsPreorder(titles);
    S.SortBySorted(subs, ByRank(titles));
    S.SortByPermutes(subs, ByRank(titles));
    forall i, j | 0 <= i < j < |r| ensures PrintsBefore(r[i].title, r[j].title, titles) {
      assert r[i] in subs && r[j] in subs;
      var p :| 0 <= p < |subs| && subs[p] == r[i];
      var q :| 0 <= q < |subs| && subs[q] == r[j];
      assert titles[p] == r[i].title && titles[q] == r[j].title;
      RankExact(r[i], r[j], titles);
    }
  }
}
