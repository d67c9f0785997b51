/**
  The nested lists of a changelog: parsing a body into items with children,
  merging items by their heads, and printing them again. Text is a sequence of
  lines without line breaks.
 */
module ChangelogItems {
  import opened Whitespace

  type Lines = seq<string>

  /** A list item: its own lines, and the items nested below it. */
  datatype Item = Item(head: Lines, children: seq<Item>)

  type Forest = seq<Item>

  // ----- lines

  function Indent(line: string): nat {
    if line != "" && line[0] == ' ' then 1 + Indent(line[1..]) else 0
  }

  predicate Bullet(line: string) {
    var rest := line[Min(Indent(line), |line|)..];
    |rest| >= 2 && (rest[0] == '-' || rest[0] == '*' || rest[0] == '+') && rest[1] == ' '
  }

  function Min(a: nat, b: nat): nat { if a < b then a else b }

  function TrimStart(lines: Lines): Lines {
    if lines != [] && Blank(lines[0]) then TrimStart(lines[1..]) else lines
  }

  function TrimEnd(lines: Lines): Lines {
    if lines != [] && Blank(lines[|lines| - 1]) then TrimEnd(lines[..|lines| - 1]) else lines
  }

  function Trim(lines: Lines): Lines { TrimEnd(TrimStart(lines)) }

  /** The lines that carry text. */
  function Text(lines: Lines): Lines {
    if lines == [] then []
    else
      var n := |lines| - 1;
      Text(lines[..n]) + (if Blank(lines[n]) then [] else [lines[n]])
  }

  lemma {:induction false} TextConcat(a: Lines, b: Lines)
    ensures Text(a + b) == Text(a) + Text(b)
  {
    if b == [] {
      assert a + b == a;
    } else {
      var n := |b| - 1;
      assert (a + b)[..|a + b| - 1] == a + b[..n];
      TextConcat(a, b[..n]);
    }
  }

  lemma {:induction false} TrimStartText(lines: Lines)
    ensures Text(TrimStart(lines)) == Text(lines)
  {
    if lines != [] && Blank(lines[0]) {
      TrimStartText(lines[1..]);
      assert lines == [lines[0]] + lines[1..];
      TextConcat([lines[0]], lines[1..]);
      assert [lines[0]][..0] == [];
    }
  }

  lemma {:induction false} TrimEndText(lines: Lines)
    ensures Text(TrimEnd(lines)) == Text(lines)
  {
    if lines != [] && Blank(lines[|lines| - 1]) {
      TrimEndText(lines[..|lines| - 1]);
    }
  }

  lemma TrimText(lines: Lines)
    ensures Text(Trim(lines)) == Text(lines)
  {
    TrimStartText(lines);
    TrimEndText(TrimStart(lines));
  }

  // ----- blocks

  /** The scan's state: the blocks so far, the list's indent, and whether the last line was blank. */
  datatype Scan = Scan(blocks: seq<Lines>, base: int, blank: bool)

  const NO_BASE := -1

  function Step(s: Scan, line: string): Scan {
    if Blank(line) then
      if s.blocks == [] then s.(blank := true)
      else s.(blank := true, blocks := AppendToLast(s.blocks, line))
    else
      var base := if s.base == NO_BASE then Indent(line) else s.base;
      if s.blocks == [] || (Indent(line) <= base && (s.blank || Bullet(line))) then
        Scan(s.blocks + [[line]], base, false)
      else Scan(AppendToLast(s.blocks, line), base, false)
  }

  function AppendToLast(blocks: seq<Lines>, line: string): seq<Lines>
    requires blocks != []
  {
    blocks[|blocks| - 1 := blocks[|blocks| - 1] + [line]]
  }

  function ScanLines(lines: Lines): Scan {
    if lines == [] then Scan([], NO_BASE, false) else Step(ScanLines(lines[..|lines| - 1]), lines[|lines| - 1])
  }

  function Joined(blocks: seq<Lines>): Lines {
    if blocks == [] then [] else Joined(blocks[..|blocks| - 1]) + blocks[|blocks| - 1]
  }

  ghost predicate GoodBlocks(blocks: seq<Lines>) {
    forall i :: 0 <= i < |blocks| ==> blocks[i] != [] && !Blank(blocks[i][0])
  }

  /** One line joins the last block or starts a new one; only leading blanks are dropped. */
  lemma StepJoins(s: Scan, line: string)
    requires GoodBlocks(s.blocks)
    ensures GoodBlocks(Step(s, line).blocks)
    ensures Joined(Step(s, line).blocks) == Joined(s.blocks) + (if s.blocks == [] && Blank(line) then [] else [line])
  {
  }

  /** The scan loses no text, and starts every block with a line of text. */
  lemma {:induction false} ScanKeepsText(lines: Lines)
    ensures var s := ScanLines(lines);
      && GoodBlocks(s.blocks) && Text(Joined(s.blocks)) == Text(lines)
      && |Joined(s.blocks)| <= |lines|
  {
    if lines != [] {
      var n := |lines| - 1;
      ScanKeepsText(lines[..n]);
      StepJoins(ScanLines(lines[..n]), lines[n]);
    }
  }

  lemma {:induction false} BlockIsShort(blocks: seq<Lines>, i: nat)
    requires i < |blocks|
    ensures |blocks[i]| <= |Joined(blocks)|
  {
    if i < |blocks| - 1 {
      BlockIsShort(blocks[..|blocks| - 1], i);
    }
  }

  /** The body's blocks, by the loop that fills them. */
  method SplitBlocks(lines: Lines) returns (blocks: seq<Lines>)
    ensures blocks == ScanLines(lines).blocks
    ensures GoodBlocks(blocks) && Text(Joined(blocks)) == Text(lines)
  {
    blocks := [];
    var base, blank := NO_BASE, false;
    for i := 0 to |lines|
      invariant Scan(blocks, base, blank) == ScanLines(lines[..i])
    {
      var line := lines[i];
      assert lines[..i + 1][..i] == lines[..i];
      if Blank(line) {
        blank := true;
        if blocks != [] {
          blocks := AppendToLast(blocks, line);
        }
        continue;
      }
      if base == NO_BASE {
        base := Indent(line);
      }
      if blocks == [] || (Indent(line) <= base && (blank || Bullet(line))) {
        blocks := blocks + [[line]];
      } else {
        blocks := AppendToLast(blocks, line);
      }
      blank := false;
    }
    assert lines[..|lines|] == lines;
    ScanKeepsText(lines);
  }

  // ----- items

  /** The first line after the block's own at which a nested list begins. */
  function NestedFrom(block: Lines, i: nat): (r: nat)
    requires block != [] && 1 <= i <= |block|
    ensures i <= r <= |block|
    decreases |block| - i
  {
    if i == |block| then i
    else if Bullet(block[i]) && Indent(block[i]) > Indent(block[0]) then i
    else NestedFrom(block, i + 1)
  }

  function ParseBlocks(blocks: seq<Lines>, size: nat): Forest
    requires forall i :: 0 <= i < |blocks| ==> blocks[i] != [] && |blocks[i]| <= size
    decreases size, 0, |blocks|
  {
    if blocks == [] then []
    else
      var n := |blocks| - 1;
      var nested := NestedFrom(blocks[n], 1);
      ParseBlocks(blocks[..n], size)
      + [Item(Trim(blocks[n][..nested]), ParseItems(blocks[n][nested..]))]
  }

  /** A Markdown list as items with their children. */
  function ParseItems(lines: Lines): Forest
    decreases |lines|, 1
  {
    ScanKeepsText(lines);
    var blocks := ScanLines(lines).blocks;
    assert forall i :: 0 <= i < |blocks| ==> |blocks[i]| <= |lines| by {
      forall i | 0 <= i < |blocks| ensures |blocks[i]| <= |lines| { BlockIsShort(blocks, i); }
    }
    ParseBlocks(blocks, |lines|)
  }

  function Render(items: Forest): Lines {
    if items == [] then []
    else
      var n := |items| - 1;
      Render(items[..n]) + items[n].head + Render(items[n].children)
  }

  lemma RenderLastText(items: Forest, item: Item)
    ensures Text(Render(items + [item])) == Text(Render(items)) + Text(item.head) + Text(Render(item.children))
  {
    assert (items + [item])[..|items|] == items;
    TextConcat(Render(items) + item.head, Render(item.children));
    TextConcat(Render(items), item.head);
  }

  lemma JoinedLastText(blocks: seq<Lines>, block: Lines, nested: nat)
    requires nested <= |block|
    ensures Text(Joined(blocks + [block])) == Text(Joined(blocks)) + Text(block[..nested]) + Text(block[nested..])
  {
    assert (blocks + [block])[..|blocks|] == blocks;
    assert block == block[..nested] + block[nested..];
    TextConcat(block[..nested], block[nested..]);
    TextConcat(Joined(blocks), block);
  }

  lemma {:induction false} ParseBlocksKeepsText(blocks: seq<Lines>, size: nat)
    requires forall i :: 0 <= i < |blocks| ==> blocks[i] != [] && |blocks[i]| <= size
    ensures Text(Render(ParseBlocks(blocks, size))) == Text(Joined(blocks))
    decreases size, 0, |blocks|
  {
    if blocks != [] {
      var n := |blocks| - 1;
      var block := blocks[n];
      var nested := NestedFrom(block, 1);
      ParseBlocksKeepsText(blocks[..n], size);
      ParseKeepsText(block[nested..]);
      TrimText(block[..nested]);
      RenderLastText(ParseBlocks(blocks[..n], size), Item(Trim(block[..nested]), ParseItems(block[nested..])));
      assert blocks == blocks[..n] + [block];
      JoinedLastText(blocks[..n], block, nested);
    }
  }

  /** Parsing and printing again keeps every line of text, in order. */
  lemma {:induction false} ParseKeepsText(lines: Lines)
    ensures Text(Render(ParseItems(lines))) == Text(lines)
    decreases |lines|, 1
  {
    ScanKeepsText(lines);
    var blocks := ScanLines(lines).blocks;
    forall i | 0 <= i < |blocks| ensures |blocks[i]| <= |lines| { BlockIsShort(blocks, i); }
    ParseBlocksKeepsText(blocks, |lines|);
  }

  // ----- merging

  /** Where `x` first occurs, or the length. */
  function PositionIn<T(==)>(s: seq<T>, x: T): (k: nat)
    ensures k <= |s| && (k < |s| ==> s[k] == x) && forall i :: 0 <= i < k ==> s[i] != x
  {
    if s == [] || s[0] == x then 0 else 1 + PositionIn(s[1..], x)
  }

  function MergeItem(into: Forest, item: Item): Forest
    decreases item, 0
  {
    var k := PositionIn(Heads(into), item.head);
    if k == |into| then into + [Item(item.head, MergeItems([], item.children))]
    else into[k := Item(item.head, MergeItems(into[k].children, item.children))]
  }

  /** Merges items into a list: equal heads become one item, new heads go to the end. */
  function MergeItems(into: Forest, items: Forest): Forest
    decreases items, 1
  {
    if items == [] then into
    else
      var n := |items| - 1;
      MergeItem(MergeItems(into, items[..n]), items[n])
  }

  // ----- what a forest contains

  type Path = seq<Lines>

  function Heads(items: Forest): (r: seq<Lines>)
    ensures |r| == |items| && forall i :: 0 <= i < |r| ==> r[i] == items[i].head
  {
    seq(|items|, i requires 0 <= i < |items| => items[i].head)
  }

  /** The heads found below every item reached by `path`, in order, repeated if reached repeatedly. */
  function Below(items: Forest, path: Path): seq<Lines>
    decreases |path|, |items|
  {
    if path == [] then Heads(items)
    else if items == [] then []
    else
      var n := |items| - 1;
      Below(items[..n], path) + (if items[n].head == path[0] then Below(items[n].children, path[1..]) else [])
  }

  /** No two siblings, at any depth, have the same head. */
  ghost predicate Merged(items: Forest) {
    && (forall i, j :: 0 <= i < j < |items| ==> items[i].head != items[j].head)
    && (forall i :: 0 <= i < |items| ==> Merged(items[i].children))
  }

  /** Appends what is new, in order of first appearance. */
  function Extend<T(==)>(seen: seq<T>, more: seq<T>): seq<T> {
    if more == [] then seen
    else
      var before := Extend(seen, more[..|more| - 1]);
      if more[|more| - 1] in before then before else before + [more[|more| - 1]]
  }

  lemma {:induction false} ExtendConcat<T>(seen: seq<T>, a: seq<T>, b: seq<T>)
    ensures Extend(seen, a + b) == Extend(Extend(seen, a), b)
  {
    if b == [] {
      assert a + b == a;
    } else {
      var n := |b| - 1;
      assert (a + b)[..|a + b| - 1] == a + b[..n];
      ExtendConcat(seen, a, b[..n]);
    }
  }

  /** Everything once: what was there and what came, and nothing else. */
  lemma {:induction false} ExtendExact<T>(seen: seq<T>, more: seq<T>)
    requires forall i, j :: 0 <= i < j < |seen| ==> seen[i] != seen[j]
    ensures var r := Extend(seen, more);
      && (forall x :: x in r <==> x in seen || x in more)
      && (forall i, j :: 0 <= i < j < |r| ==> r[i] != r[j])
      && seen <= r
  {
    if more != [] {
      var n := |more| - 1;
      ExtendExact(seen, more[..n]);
      assert more == more[..n] + [more[n]];
    }
  }

  lemma {:induction false} BelowConcat(a: Forest, b: Forest, path: Path)
    ensures Below(a + b, path) == Below(a, path) + Below(b, path)
  {
    if path == [] {
      assert Heads(a + b) == Heads(a) + Heads(b);
    } else if b == [] {
      assert a + b == a;
    } else {
      var n := |b| - 1;
      assert (a + b)[..|a + b| - 1] == a + b[..n];
      BelowConcat(a, b[..n], path);
    }
  }

  lemma BelowSingle(item: Item, path: Path)
    ensures Below([item], path)
         == if path == [] then [item.head] else if item.head == path[0] then Below(item.children, path[1..]) else []
  {
  }

  /** A head that is not there leads nowhere. */
  lemma {:induction false} BelowAbsent(items: Forest, path: Path)
    requires path != [] && forall i :: 0 <= i < |items| ==> items[i].head != path[0]
    ensures Below(items, path) == []
  {
    if items != [] {
      BelowAbsent(items[..|items| - 1], path);
    }
  }

  /** In a merged list one item answers for each head. */
  lemma BelowUnique(items: Forest, k: nat, path: Path)
    requires k < |items| && path != [] && items[k].head == path[0]
    requires forall i :: 0 <= i < |items| && i != k ==> items[i].head != path[0]
    ensures Below(items, path) == Below(items[k].children, path[1..])
  {
    assert items == items[..k] + [items[k]] + items[k + 1..];
    BelowAbsent(items[..k], path);
    BelowAbsent(items[k + 1..], path);
    BelowAmong(items[..k], items[k], items[k + 1..], path);
  }

  lemma BelowAmong(before: Forest, item: Item, after: Forest, path: Path)
    requires path != [] && item.head == path[0] && Below(before, path) == [] && Below(after, path) == []
    ensures Below(before + [item] + after, path) == Below(item.children, path[1..])
  {
    BelowConcat(before + [item], after, path);
    BelowConcat(before, [item], path);
    BelowSingle(item, path);
  }

  /** Replacing an item by one with the same head changes nothing along other heads. */
  lemma BelowReplaced(items: Forest, k: nat, item: Item, path: Path)
    requires k < |items| && items[k].head == item.head && (path == [] || path[0] != item.head)
    ensures Below(items[k := item], path) == Below(items, path)
  {
    var before, after := items[..k], items[k + 1..];
    assert items == before + [items[k]] + after && items[k := item] == before + [item] + after;
    BelowConcat(before + [items[k]], after, path);
    BelowConcat(before, [items[k]], path);
    BelowConcat(before + [item], after, path);
    BelowConcat(before, [item], path);
    BelowSingle(items[k], path);
    BelowSingle(item, path);
  }

  lemma {:induction false} MergeItemBelow(into: Forest, item: Item, path: Path)
    requires Merged(into)
    ensures Below(MergeItem(into, item), path) == Extend(Below(into, path), Below([item], path))
    decreases item, 0
  {
    var k := PositionIn(Heads(into), item.head);
    if path != [] && path[0] == item.head {
      MergeItemsBelow(if k == |into| then [] else into[k].children, item.children, path[1..]);
    }
    if k == |into| {
      assert forall i :: 0 <= i < |into| ==> Heads(into)[i] != item.head;
      AddedBelow(into, item, MergeItems([], item.children), path);
    } else {
      JoinedBelow(into, k, item, MergeItems(into[k].children, item.children), path);
    }
  }

  /** A new head goes to the end. */
  lemma AddedBelow(into: Forest, item: Item, children: Forest, path: Path)
    requires forall i :: 0 <= i < |into| ==> into[i].head != item.head
    requires path != [] && path[0] == item.head ==>
      Below(children, path[1..]) == Extend(Below([], path[1..]), Below(item.children, path[1..]))
    ensures Below(into + [Item(item.head, children)], path) == Extend(Below(into, path), Below([item], path))
  {
    var added := Item(item.head, children);
    BelowSingle(item, path);
    BelowConcat(into, [added], path);
    BelowSingle(added, path);
    if path != [] && path[0] == item.head {
      BelowAbsent(into, path);
      BelowNothing(path[1..]);
    }
  }

  /** A head that is there takes in the children. */
  lemma JoinedBelow(into: Forest, k: nat, item: Item, children: Forest, path: Path)
    requires Merged(into) && k < |into| && into[k].head == item.head
    requires path != [] && path[0] == item.head ==>
      Below(children, path[1..]) == Extend(Below(into[k].children, path[1..]), Below(item.children, path[1..]))
    ensures Below(into[k := Item(item.head, children)], path) == Extend(Below(into, path), Below([item], path))
  {
    var joined := Item(item.head, children);
    BelowSingle(item, path);
    if path == [] {
      BelowReplaced(into, k, joined, path);
      assert into[k].head in Heads(into) by { assert Heads(into)[k] == item.head; }
      assert [item.head][..0] == [];
    } else if path[0] == item.head {
      BelowUnique(into, k, path);
      BelowUnique(into[k := joined], k, path);
    } else {
      BelowReplaced(into, k, joined, path);
    }
  }

  lemma BelowNothing(path: Path)
    ensures Below([], path) == []
  {
  }

  /**
    Merging is exact: below every path the merged list shows what was there,
    then what is new, each once and in order of first appearance.
   */
  lemma {:induction false} MergeItemsBelow(into: Forest, items: Forest, path: Path)
    requires Merged(into)
    ensures Below(MergeItems(into, items), path) == Extend(Below(into, path), Below(items, path))
    decreases items, 1
  {
    if items == [] {
      BelowNothing(path);
    } else {
      var n := |items| - 1;
      var before := MergeItems(into, items[..n]);
      MergeItemsBelow(into, items[..n], path);
      MergeItemsMerged(into, items[..n]);
      MergeItemBelow(before, items[n], path);
      assert items == items[..n] + [items[n]];
      BelowConcat(items[..n], [items[n]], path);
      ExtendConcat(Below(into, path), Below(items[..n], path), Below([items[n]], path));
    }
  }

  lemma {:induction false} MergeItemMerged(into: Forest, item: Item)
    requires Merged(into)
    ensures Merged(MergeItem(into, item))
    decreases item, 0
  {
    var k := PositionIn(Heads(into), item.head);
    MergeItemsMerged(if k == |into| then [] else into[k].children, item.children);
  }

  lemma {:induction false} MergeItemsMerged(into: Forest, items: Forest)
    requires Merged(into)
    ensures Merged(MergeItems(into, items))
    decreases items, 1
  {
    if items != [] {
      var n := |items| - 1;
      MergeItemsMerged(into, items[..n]);
      MergeItemMerged(MergeItems(into, items[..n]), items[n]);
    }
  }
}
