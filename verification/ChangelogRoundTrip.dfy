/**
  Printing a list of items and parsing it again. The printed list reads back as
  the same items exactly if its lines are cut where the items are: every item
  but the first starts with a bullet at most as deep as the first, no other line
  does, and children stand deeper than the item they belong to.
 */
module ChangelogRoundTrip {
  import opened Whitespace
  import opened ChangelogItems

  // ----- the shape of parsed items

  ghost predicate AllOk(lines: Lines, ok: string -> bool) { forall x :: x in lines ==> ok(x) }

  /** The first and the last line carry text. */
  ghost predicate Solid(lines: Lines) { lines != [] && !Blank(lines[0]) && !Blank(lines[|lines| - 1]) }

  /** Every head is solid and consists of lines that are `ok`. */
  ghost predicate Sound(items: Forest, ok: string -> bool) {
    forall i :: 0 <= i < |items| ==> Solid(items[i].head) && AllOk(items[i].head, ok) && Sound(items[i].children, ok)
  }

  lemma {:induction false} TrimStartOf(lines: Lines)
    ensures (forall x :: x in TrimStart(lines) ==> x in lines)
      && (lines != [] && !Blank(lines[0]) ==> TrimStart(lines) == lines)
  {
    if lines != [] && Blank(lines[0]) { TrimStartOf(lines[1..]); }
  }

  lemma {:induction false} TrimEndOf(lines: Lines)
    ensures TrimEnd(lines) <= lines
    ensures TrimEnd(lines) != [] ==> !Blank(TrimEnd(lines)[|TrimEnd(lines)| - 1])
    ensures forall i :: |TrimEnd(lines)| <= i < |lines| ==> Blank(lines[i])
  {
    if lines != [] && Blank(lines[|lines| - 1]) { TrimEndOf(lines[..|lines| - 1]); }
  }

  lemma TrimOf(lines: Lines)
    ensures forall x :: x in Trim(lines) ==> x in lines
    ensures lines != [] && !Blank(lines[0]) ==> Solid(Trim(lines)) && Trim(lines) <= lines
  {
    TrimStartOf(lines);
    TrimEndOf(TrimStart(lines));
  }

  lemma TrimSolid(lines: Lines)
    requires Solid(lines)
    ensures Trim(lines) == lines
  {
    TrimStartOf(lines);
  }

  lemma {:induction false} ScanOk(lines: Lines, ok: string -> bool)
    requires AllOk(lines, ok)
    ensures forall i :: 0 <= i < |ScanLines(lines).blocks| ==> AllOk(ScanLines(lines).blocks[i], ok)
  {
    if lines != [] {
      assert lines[|lines| - 1] in lines;
      ScanOk(lines[..|lines| - 1], ok);
    }
  }

  lemma {:induction false} ParseBlocksSound(blocks: seq<Lines>, size: nat, ok: string -> bool)
    requires GoodBlocks(blocks) && forall i :: 0 <= i < |blocks| ==> |blocks[i]| <= size && AllOk(blocks[i], ok)
    ensures Sound(ParseBlocks(blocks, size), ok)
    decreases size, 0, |blocks|
  {
    if blocks != [] {
      var n := |blocks| - 1;
      var block, nested := blocks[n], NestedFrom(blocks[n], 1);
      ParseBlocksSound(blocks[..n], size, ok);
      TrimOf(block[..nested]);
      ParseSound(block[nested..], ok);
    }
  }

  lemma {:induction false} ParseSound(lines: Lines, ok: string -> bool)
    requires AllOk(lines, ok)
    ensures Sound(ParseItems(lines), ok)
    decreases |lines|, 1
  {
    ScanKeepsText(lines);
    ScanOk(lines, ok);
    var blocks := ScanLines(lines).blocks;
    forall i | 0 <= i < |blocks| ensures |blocks[i]| <= |lines| { BlockIsShort(blocks, i); }
    ParseBlocksSound(blocks, |lines|, ok);
  }

  lemma {:induction false} MergeItemSound(into: Forest, item: Item, ok: string -> bool)
    requires Sound(into, ok) && Solid(item.head) && AllOk(item.head, ok) && Sound(item.children, ok)
    ensures Sound(MergeItem(into, item), ok)
    decreases item, 0
  {
    var k := PositionIn(Heads(into), item.head);
    MergeItemsSound(if k == |into| then [] else into[k].children, item.children, ok);
  }

  lemma {:induction false} MergeItemsSound(into: Forest, items: Forest, ok: string -> bool)
    requires Sound(into, ok) && Sound(items, ok)
    ensures Sound(MergeItems(into, items), ok)
    decreases items, 1
  {
    if items != [] {
      var n := |items| - 1;
      MergeItemsSound(into, items[..n], ok);
      MergeItemSound(MergeItems(into, items[..n]), items[n], ok);
    }
  }

  lemma {:induction false} RenderOk(items: Forest, ok: string -> bool)
    requires Sound(items, ok)
    ensures AllOk(Render(items), ok)
    ensures items != [] ==> Render(items) != [] && !Blank(Render(items)[0])
  {
    if items != [] {
      var n := |items| - 1;
      RenderOk(items[..n], ok);
      RenderOk(items[n].children, ok);
    }
  }

  // ----- blocks that are cut where the scan cuts

  /** Whether the scan starts a new block at this line, once it has one. */
  predicate Starts(previous: string, line: string, base: int) {
    !Blank(line) && Indent(line) <= base && (Blank(previous) || Bullet(line))
  }

  function Last(lines: Lines): string
    requires lines != []
  {
    lines[|lines| - 1]
  }

  /** The first line of each block but the first, and no other, starts one. */
  predicate Fits(blocks: seq<Lines>, base: int) {
    && (forall j :: 0 <= j < |blocks| ==> blocks[j] != [])
    && (forall j :: 0 < j < |blocks| ==> Starts(Last(blocks[j - 1]), blocks[j][0], base))
    && (forall j, k :: 0 <= j < |blocks| && 0 < k < |blocks[j]| ==> !Starts(blocks[j][k - 1], blocks[j][k], base))
  }

  function LastLine(blocks: seq<Lines>): string
    requires blocks != [] && blocks[|blocks| - 1] != []
  {
    Last(blocks[|blocks| - 1])
  }

  lemma FitsNew(blocks: seq<Lines>, line: string, base: int)
    requires blocks != [] && blocks[|blocks| - 1] != []
    ensures Fits(blocks + [[line]], base) <==> Fits(blocks, base) && Starts(LastLine(blocks), line, base)
  {
    var more, n := blocks + [[line]], |blocks|;
    assert forall j :: 0 <= j < n ==> more[j] == blocks[j];
    if Fits(more, base) {
      assert Starts(Last(more[n - 1]), more[n][0], base);
    }
  }

  lemma FitsMore(blocks: seq<Lines>, line: string, base: int)
    requires blocks != [] && blocks[|blocks| - 1] != []
    ensures Fits(AppendToLast(blocks, line), base) <==> Fits(blocks, base) && !Starts(LastLine(blocks), line, base)
  {
    var more, n := AppendToLast(blocks, line), |blocks| - 1;
    var k := |blocks[n]|;
    assert more[n][k - 1] == LastLine(blocks) && more[n][k] == line;
    assert forall i :: 0 <= i < k ==> more[n][i] == blocks[n][i];
    assert forall j :: 0 <= j < n ==> more[j] == blocks[j];
    if Fits(more, base) {
      assert !Starts(more[n][k - 1], more[n][k], base);
      forall j, i | 0 <= j < |blocks| && 0 < i < |blocks[j]| ensures !Starts(blocks[j][i - 1], blocks[j][i], base) {
        assert !Starts(more[j][i - 1], more[j][i], base);
      }
      forall j | 0 < j < |blocks| ensures Starts(Last(blocks[j - 1]), blocks[j][0], base) {
        assert Starts(Last(more[j - 1]), more[j][0], base);
      }
    }
  }

  lemma JoinedNew(blocks: seq<Lines>, line: string)
    ensures Joined(blocks + [[line]]) == Joined(blocks) + [line]
  {
    assert (blocks + [[line]])[..|blocks|] == blocks;
  }

  lemma JoinedMore(blocks: seq<Lines>, line: string)
    requires blocks != []
    ensures Joined(AppendToLast(blocks, line)) == Joined(blocks) + [line]
  {
    var n := |blocks| - 1;
    assert AppendToLast(blocks, line)[..n] == blocks[..n];
  }

  /** A scan that has begun: its blocks fit, and hold the lines so far. */
  ghost predicate Scanning(s: Scan, lines: Lines) {
    && lines != [] && s.blocks != [] && Fits(s.blocks, s.base) && Joined(s.blocks) == lines
    && s.base == Indent(lines[0]) && LastLine(s.blocks) == Last(lines) && s.blank == Blank(Last(lines))
  }

  lemma StepScans(s: Scan, lines: Lines, line: string)
    requires Scanning(s, lines)
    ensures Scanning(Step(s, line), lines + [line])
    ensures Step(s, line).blocks
      == if Starts(Last(lines), line, s.base) then s.blocks + [[line]] else AppendToLast(s.blocks, line)
  {
    if Starts(Last(lines), line, s.base) {
      StartScans(s, lines, line);
    } else {
      FitsMore(s.blocks, line, s.base);
      JoinedMore(s.blocks, line);
    }
  }

  lemma StartScans(s: Scan, lines: Lines, line: string)
    requires Scanning(s, lines) && Starts(Last(lines), line, s.base)
    ensures Scanning(Step(s, line), lines + [line]) && Step(s, line).blocks == s.blocks + [[line]]
  {
    FitsNew(s.blocks, line, s.base);
    JoinedNew(s.blocks, line);
  }

  lemma ScanFirst(line: string)
    requires !Blank(line)
    ensures Scanning(ScanLines([line]), [line]) && ScanLines([line]).blocks == [[line]]
  {
    assert [line][..0] == [];
    assert [[line]][..0] == [];
  }

  lemma ScanOneMore(lines: Lines, line: string)
    requires Scanning(ScanLines(lines), lines)
    ensures Scanning(ScanLines(lines + [line]), lines + [line])
  {
    StepScans(ScanLines(lines), lines, line);
    assert (lines + [line])[..|lines|] == lines;
  }

  lemma {:induction false} ScanFits(lines: Lines)
    requires lines != [] && !Blank(lines[0])
    ensures Scanning(ScanLines(lines), lines)
  {
    var n := |lines| - 1;
    if n == 0 {
      assert lines == [lines[0]];
      ScanFirst(lines[0]);
    } else {
      ScanFits(lines[..n]);
      ScanOneMore(lines[..n], lines[n]);
      assert lines == lines[..n] + [lines[n]];
    }
  }

  lemma {:induction false} FirstLineOf(blocks: seq<Lines>)
    requires blocks != [] && blocks[0] != []
    ensures Joined(blocks) != [] && Joined(blocks)[0] == blocks[0][0]
  {
    if |blocks| > 1 { FirstLineOf(blocks[..|blocks| - 1]); } else { assert blocks[..0] == []; }
  }

  /** Blocks that fit are the ones the scan finds. */
  lemma {:induction false} FitsIsScan(blocks: seq<Lines>)
    requires blocks != [] && blocks[0] != [] && !Blank(blocks[0][0]) && Fits(blocks, Indent(blocks[0][0]))
    ensures ScanLines(Joined(blocks)).blocks == blocks
    decreases |Joined(blocks)|
  {
    var n, base := |blocks| - 1, Indent(blocks[0][0]);
    var m := |blocks[n]| - 1;
    var line := blocks[n][m];
    if n == 0 && m == 0 {
      assert blocks[..0] == [] && blocks[0] == [line] && blocks == [[line]];
      assert Joined(blocks) == [line];
      ScanFirst(line);
    } else if m == 0 {
      var fewer := blocks[..n];
      assert blocks[n] == [line];
      assert blocks == fewer + [[line]];
      JoinedNew(fewer, line);
      FitsNew(fewer, line, base);
      ScanGrows(fewer, line, base);
    } else {
      var fewer := blocks[n := blocks[n][..m]];
      assert blocks[n] == blocks[n][..m] + [line];
      assert blocks == AppendToLast(fewer, line);
      JoinedMore(fewer, line);
      FitsMore(fewer, line, base);
      ScanGrows(fewer, line, base);
    }
  }

  lemma ScanGrows(fewer: seq<Lines>, line: string, base: int)
    requires fewer != [] && fewer[0] != [] && !Blank(fewer[0][0]) && base == Indent(fewer[0][0]) && Fits(fewer, base)
    ensures ScanLines(Joined(fewer) + [line]).blocks
         == if Starts(LastLine(fewer), line, base) then fewer + [[line]] else AppendToLast(fewer, line)
    decreases |Joined(fewer)| + 1, 0
  {
    FirstLineOf(fewer);
    FitsIsScan(fewer);
    ScanFits(Joined(fewer));
    StepScans(ScanLines(Joined(fewer)), Joined(fewer), line);
    assert (Joined(fewer) + [line])[..|Joined(fewer)|] == Joined(fewer);
  }

  // ----- items that read back

  /** The lines an item prints to: its own, then its children's. */
  function Segment(item: Item): Lines { item.head + Render(item.children) }

  function Segments(items: Forest): (r: seq<Lines>)
    ensures |r| == |items| && forall i :: 0 <= i < |r| ==> r[i] == Segment(items[i])
  {
    seq(|items|, i requires 0 <= i < |items| => Segment(items[i]))
  }

  lemma {:induction false} JoinedSegments(items: Forest)
    ensures Joined(Segments(items)) == Render(items)
  {
    if items != [] {
      var n := |items| - 1;
      JoinedSegments(items[..n]);
      assert Segments(items)[..n] == Segments(items[..n]);
    }
  }

  /** The list is cut at its items, and below each item at its children, all the way down. */
  predicate Printable(items: Forest) {
    && (items != [] && items[0].head != [] ==> Fits(Segments(items), Indent(items[0].head[0])))
    && forall i :: 0 <= i < |items| && items[i].head != [] ==>
         NestedFrom(Segment(items[i]), 1) == |items[i].head| && Printable(items[i].children)
  }

  lemma {:induction false} ParseBlocksAt(blocks: seq<Lines>, size: nat, i: nat)
    requires (forall j :: 0 <= j < |blocks| ==> blocks[j] != [] && |blocks[j]| <= size) && i < |blocks|
    ensures |ParseBlocks(blocks, size)| == |blocks|
    ensures var nested := NestedFrom(blocks[i], 1);
      ParseBlocks(blocks, size)[i] == Item(Trim(blocks[i][..nested]), ParseItems(blocks[i][nested..]))
    decreases |blocks|
  {
    var n := |blocks| - 1;
    ParseBlocksLast(blocks, size);
    if n > 0 { ParseBlocksAt(blocks[..n], size, if i < n then i else 0); }
  }

  lemma ParseBlocksLast(blocks: seq<Lines>, size: nat)
    requires (forall j :: 0 <= j < |blocks| ==> blocks[j] != [] && |blocks[j]| <= size) && blocks != []
    ensures var last := blocks[|blocks| - 1];
      var nested := NestedFrom(last, 1);
      ParseBlocks(blocks, size)
      == ParseBlocks(blocks[..|blocks| - 1], size) + [Item(Trim(last[..nested]), ParseItems(last[nested..]))]
  {
  }

  /** What parsing makes of the block at `i`. */
  lemma ParsedAt(lines: Lines, i: nat)
    requires i < |ScanLines(lines).blocks|
    ensures var block := ScanLines(lines).blocks[i];
      && block != [] && !Blank(block[0]) && |ParseItems(lines)| == |ScanLines(lines).blocks|
      && var nested := NestedFrom(block, 1);
         ParseItems(lines)[i] == Item(Trim(block[..nested]), ParseItems(block[nested..]))
  {
    ScanKeepsText(lines);
    var blocks := ScanLines(lines).blocks;
    forall j | 0 <= j < |blocks| ensures |blocks[j]| <= |lines| { BlockIsShort(blocks, j); }
    ParseBlocksAt(blocks, |lines|, i);
  }

  lemma SoundStart(items: Forest, ok: string -> bool)
    requires Sound(items, ok) && items != []
    ensures items[0].head != [] && Segments(items)[0] != [] && !Blank(Segments(items)[0][0])
    ensures Segments(items)[0][0] == items[0].head[0] && GoodBlocks(Segments(items))
  {
  }

  lemma {:induction false} PrintableReadsBack(items: Forest, ok: string -> bool)
    requires Sound(items, ok) && Printable(items)
    ensures ParseItems(Render(items)) == items
  {
    if items != [] {
      SoundStart(items, ok);
      JoinedSegments(items);
      FitsIsScan(Segments(items));
      forall i | 0 <= i < |items|
        ensures |ParseItems(Render(items))| == |items| && ParseItems(Render(items))[i] == items[i]
      {
        ParsedAt(Render(items), i);
        PrintableReadsBack(items[i].children, ok);
        ItemReadsBack(items[i]);
      }
    }
  }

  lemma ItemReadsBack(item: Item)
    requires Solid(item.head) && ParseItems(Render(item.children)) == item.children
    requires NestedFrom(Segment(item), 1) == |item.head|
    ensures var block, nested := Segment(item), |item.head|;
      Item(Trim(block[..nested]), ParseItems(block[nested..])) == item
  {
    var block, nested := Segment(item), |item.head|;
    assert block[..nested] == item.head && block[nested..] == Render(item.children);
    TrimSolid(item.head);
  }

  // ----- and only those

  lemma TextOfStart(lines: Lines, more: Lines)
    requires lines != [] && !Blank(lines[0])
    ensures |Text(lines + more)| > |Text(more)|
  {
    TextConcat(lines, more);
    TextStarts(lines);
  }

  lemma {:induction false} TextStarts(lines: Lines)
    requires lines != [] && !Blank(lines[0])
    ensures Text(lines) != []
  {
    if |lines| > 1 { TextStarts(lines[..|lines| - 1]); }
  }

  /** Two ends of one text that both start with text and carry equally much are the same. */
  lemma SameEnd(a: Lines, b: Lines, c: Lines, d: Lines)
    requires a + b == c + d && |Text(b)| == |Text(d)|
    requires b != [] && !Blank(b[0]) && d != [] && !Blank(d[0])
    ensures b == d && a == c
  {
    if |b| > |d| {
      EndSplits(a, b, c, d);
    } else if |b| < |d| {
      EndSplits(c, d, a, b);
    } else {
      EqualEnds(a, b, c, d);
    }
  }

  lemma EqualEnds(a: Lines, b: Lines, c: Lines, d: Lines)
    requires a + b == c + d && |b| == |d|
    ensures b == d && a == c
  {
    assert b == (a + b)[|a|..] && d == (c + d)[|c|..];
    assert a == (a + b)[..|a|] && c == (c + d)[..|c|];
  }

  lemma EndSplits(a: Lines, b: Lines, c: Lines, d: Lines)
    requires a + b == c + d && |b| > |d| && b != [] && !Blank(b[0])
    ensures |Text(b)| > |Text(d)|
  {
    var k := |b| - |d|;
    assert d == (c + d)[|c|..] && b[k..] == (a + b)[|a| + k..];
    assert b == b[..k] + d;
    TextOfStart(b[..k], d);
  }

  /** Blocks are determined by their text and by how much of it each carries. */
  lemma {:induction false} SameBlocks(b: seq<Lines>, c: seq<Lines>)
    requires GoodBlocks(b) && GoodBlocks(c) && SameAmounts(b, c) && Joined(b) == Joined(c)
    ensures b == c
    decreases |b|
  {
    if b != [] {
      var n := |b| - 1;
      SameAmountsInit(b, c);
      SameEnd(Joined(b[..n]), b[n], Joined(c[..n]), c[n]);
      SameBlocks(b[..n], c[..n]);
      SameFromInit(b, c);
    }
  }

  lemma SameFromInit(b: seq<Lines>, c: seq<Lines>)
    requires |b| == |c| > 0 && b[..|b| - 1] == c[..|c| - 1] && b[|b| - 1] == c[|c| - 1]
    ensures b == c
  {
    assert b == b[..|b| - 1] + [b[|b| - 1]] && c == c[..|c| - 1] + [c[|c| - 1]];
  }

  ghost predicate SameAmounts(b: seq<Lines>, c: seq<Lines>) {
    |b| == |c| && forall i :: 0 <= i < |b| ==> |Text(b[i])| == |Text(c[i])|
  }

  lemma SameAmountsInit(b: seq<Lines>, c: seq<Lines>)
    requires SameAmounts(b, c) && GoodBlocks(b) && GoodBlocks(c) && b != []
    ensures var n := |b| - 1;
      && SameAmounts(b[..n], c[..n]) && GoodBlocks(b[..n]) && GoodBlocks(c[..n])
      && |Text(b[n])| == |Text(c[n])|
  {
  }

  /** The block that reads as an item carries the item's text. */
  lemma TextOfItem(block: Lines, nested: nat, item: Item)
    requires nested <= |block| && item == Item(Trim(block[..nested]), ParseItems(block[nested..]))
    ensures Text(block) == Text(Segment(item))
  {
    assert block == block[..nested] + block[nested..];
    TextConcat(block[..nested], block[nested..]);
    TextConcat(item.head, Render(item.children));
    TrimText(block[..nested]);
    ParseKeepsText(block[nested..]);
  }

  lemma NestedIsHead(item: Item, nested: nat, ok: string -> bool)
    requires Solid(item.head) && Sound(item.children, ok) && 1 <= nested <= |Segment(item)|
    requires Trim(Segment(item)[..nested]) == item.head
    ensures nested == |item.head|
  {
    var start := Segment(item)[..nested];
    TrimStartOf(start);
    TrimEndOf(start);
    RenderOk(item.children, ok);
    assert |item.head| < |Segment(item)| ==> !Blank(Segment(item)[|item.head|]);
  }

  /** Each item, printed alone, is cut at its children, and they read back. */
  ghost predicate ItemsCut(items: Forest) {
    forall i :: 0 <= i < |items| ==>
      && items[i].head != [] && NestedFrom(Segment(items[i]), 1) == |items[i].head|
      && ParseItems(Render(items[i].children)) == items[i].children
  }

  lemma ReadBackIsCut(items: Forest, ok: string -> bool)
    requires Sound(items, ok) && items != [] && ParseItems(Render(items)) == items
    ensures items[0].head != [] && Fits(Segments(items), Indent(items[0].head[0])) && ItemsCut(items)
  {
    RenderOk(items, ok);
    SoundStart(items, ok);
    ReadBackBlocks(items, ok);
    ScanFits(Render(items));
    JoinedSegments(items);
    FirstLineOf(Segments(items));
    forall i | 0 <= i < |items|
      ensures NestedFrom(Segment(items[i]), 1) == |items[i].head|
        && ParseItems(Render(items[i].children)) == items[i].children
    {
      ParsedAt(Render(items), i);
      ItemIsCut(items[i], ok);
    }
  }

  lemma {:induction false} ReadsBackPrintable(items: Forest, ok: string -> bool)
    requires Sound(items, ok) && ParseItems(Render(items)) == items
    ensures Printable(items)
  {
    if items != [] {
      ReadBackIsCut(items, ok);
      forall i | 0 <= i < |items| ensures Printable(items[i].children) {
        ReadsBackPrintable(items[i].children, ok);
      }
    }
  }

  lemma ItemIsCut(item: Item, ok: string -> bool)
    requires Solid(item.head) && Sound(item.children, ok)
    requires var nested := NestedFrom(Segment(item), 1);
      item == Item(Trim(Segment(item)[..nested]), ParseItems(Segment(item)[nested..]))
    ensures NestedFrom(Segment(item), 1) == |item.head| && ParseItems(Render(item.children)) == item.children
  {
    var nested := NestedFrom(Segment(item), 1);
    NestedIsHead(item, nested, ok);
    assert Segment(item)[nested..] == Render(item.children);
  }

  lemma ReadBackBlocks(items: Forest, ok: string -> bool)
    requires Sound(items, ok) && items != [] && ParseItems(Render(items)) == items
    ensures ScanLines(Render(items)).blocks == Segments(items)
  {
    var lines := Render(items);
    var blocks := ScanLines(lines).blocks;
    RenderOk(items, ok);
    SoundStart(items, ok);
    ScanFits(lines);
    ScanKeepsText(lines);
    JoinedSegments(items);
    ParsedAt(lines, 0);
    forall i | 0 <= i < |items| ensures |Text(blocks[i])| == |Text(Segments(items)[i])| {
      ParsedAt(lines, i);
      TextOfItem(blocks[i], NestedFrom(blocks[i], 1), items[i]);
    }
    SameBlocks(blocks, Segments(items));
  }

  // ----- what questions can tell

  /** Two lists that have the same heads below every path. */
  ghost predicate SameHeads(a: Forest, b: Forest) { forall path :: Below(a, path) == Below(b, path) }

  lemma {:induction false} SameAnswers(a: Forest, b: Forest)
    requires Merged(b) && SameHeads(a, b)
    ensures a == b
    decreases b
  {
    assert Below(a, []) == Below(b, []);
    assert forall i :: 0 <= i < |b| ==> Heads(a)[i] == Heads(b)[i];
    forall i | 0 <= i < |b| ensures a[i] == b[i] {
      forall path: Path ensures Below(a[i].children, path) == Below(b[i].children, path) {
        var longer := [b[i].head] + path;
        assert longer[1..] == path;
        BelowUnique(a, i, longer);
        BelowUnique(b, i, longer);
      }
      SameAnswers(a[i].children, b[i].children);
    }
  }

  /**
    The printed list answers every question about heads as the merged items do
    if and only if it is cut where they are.
   */
  lemma ReadsBackExact(items: Forest, ok: string -> bool)
    requires Merged(items) && Sound(items, ok)
    ensures SameHeads(ParseItems(Render(items)), items) <==> Printable(items)
  {
    var again := ParseItems(Render(items));
    if SameHeads(again, items) {
      SameAnswers(again, items);
      ReadsBackPrintable(items, ok);
    }
    if Printable(items) {
      PrintableReadsBack(items, ok);
    }
  }
}
