/**
  What the parser makes of its lines, told from their positions alone: which
  lines start an item, what is an item's own text, where its nested list
  begins, and how headings cut a body into parts.
 */
module ChangelogGrammar {
  import opened Whitespace
  import opened ChangelogItems
  import opened ChangelogRoundTrip
  import opened ChangelogSections

  // ----- lines

  /** The first `k` characters are spaces, and no more. */
  ghost predicate IsIndent(line: string, k: nat) {
    k <= |line| && (forall i :: 0 <= i < k ==> line[i] == ' ') && (k < |line| ==> line[k] != ' ')
  }

  lemma {:induction false} IndentExact(line: string)
    ensures IsIndent(line, Indent(line))
  {
    if line != "" && line[0] == ' ' {
      IndentExact(line[1..]);
      assert forall i :: 0 < i <= Indent(line[1..]) ==> line[i] == line[1..][i - 1];
    }
  }

  /** Spaces, one of the three bullets, and another space. */
  ghost predicate StartsWithBullet(line: string) {
    exists k: nat :: IsIndent(line, k) && k + 1 < |line| && line[k] in ['-', '*', '+'] && line[k + 1] == ' '
  }

  lemma BulletExact(line: string)
    ensures Bullet(line) <==> StartsWithBullet(line)
  {
    IndentExact(line);
    var k := Indent(line);
    assert forall j: nat :: IsIndent(line, j) ==> j == k;
    assert Bullet(line) <==> k + 1 < |line| && line[k] in ['-', '*', '+'] && line[k + 1] == ' ';
  }

  ghost predicate AllBlank(lines: Lines) { forall i :: 0 <= i < |lines| ==> Blank(lines[i]) }

  /** `t` is what stands between the first and the last line with text. */
  ghost predicate IsTrimmed(lines: Lines, t: Lines) {
    exists i, j :: 0 <= i <= j <= |lines| && t == lines[i..j] && AllBlank(lines[..i]) && AllBlank(lines[j..])
                   && (t != [] ==> !Blank(t[0]) && !Blank(t[|t| - 1]))
  }

  lemma {:induction false} TrimStartExact(lines: Lines)
    ensures var t := TrimStart(lines);
      && |t| <= |lines| && t == lines[|lines| - |t|..] && AllBlank(lines[..|lines| - |t|])
      && (t != [] ==> !Blank(t[0]))
  {
    if lines != [] && Blank(lines[0]) {
      TrimStartExact(lines[1..]);
      var k := |lines| - |TrimStart(lines)|;
      assert lines[..k] == [lines[0]] + lines[1..][..k - 1];
    }
  }

  lemma {:induction false} TrimEndExact(lines: Lines)
    ensures var t := TrimEnd(lines);
      && t <= lines && AllBlank(lines[|t|..]) && (t != [] ==> !Blank(t[|t| - 1]))
  {
    if lines != [] && Blank(lines[|lines| - 1]) {
      var n := |lines| - 1;
      TrimEndExact(lines[..n]);
      var k := |TrimEnd(lines)|;
      assert lines[k..] == lines[..n][k..] + [lines[n]];
    }
  }

  lemma TrimExact(lines: Lines)
    ensures IsTrimmed(lines, Trim(lines))
  {
    var rest := TrimStart(lines);
    TrimStartExact(lines);
    TrimEndExact(rest);
    var t := Trim(lines);
    var i := |lines| - |rest|;
    var j := i + |t|;
    assert t == lines[i..j] && lines[j..] == rest[|t|..];
    assert t != [] ==> t[0] == rest[0];
  }

  // ----- where items start

  /** `f` is the first line with text. */
  ghost predicate FirstText(lines: Lines, f: nat) {
    f < |lines| && !Blank(lines[f]) && forall i :: 0 <= i < f ==> Blank(lines[i])
  }

  /**
    A line of text starts an item if it is the first, or stands no deeper than
    the first and is a bullet or follows a blank line.
   */
  ghost predicate StartsItem(lines: Lines, i: nat) {
    && i < |lines| && !Blank(lines[i])
    && exists f: nat :: FirstText(lines, f)
         && (i == f || (i > f && Indent(lines[i]) <= Indent(lines[f]) && (Blank(lines[i - 1]) || Bullet(lines[i]))))
  }

  function EndOf(lines: Lines, starts: seq<nat>, k: nat): nat {
    if k + 1 < |starts| then starts[k + 1] else |lines|
  }

  /** Cut at every line that starts an item, and only there, the lines fall into these blocks. */
  ghost predicate Cuts(lines: Lines, starts: seq<nat>, blocks: seq<Lines>) {
    && |starts| == |blocks| && (forall k, l :: 0 <= k < l < |starts| ==> starts[k] < starts[l])
    && (forall i: nat :: i in starts <==> StartsItem(lines, i))
    && (forall k :: 0 <= k < |starts| ==>
        starts[k] < EndOf(lines, starts, k) <= |lines| && blocks[k] == lines[starts[k]..EndOf(lines, starts, k)])
  }

  /** What the scan remembers of the lines so far. */
  ghost predicate Remembers(s: Scan, lines: Lines) {
    && (s.blank <==> lines != [] && Blank(lines[|lines| - 1]))
    && (s.base == NO_BASE <==> AllBlank(lines)) && (s.blocks == [] <==> AllBlank(lines))
    && (forall f: nat :: FirstText(lines, f) ==> s.base == Indent(lines[f]))
  }

  lemma {:induction false} TextExists(lines: Lines) returns (f: nat)
    requires !AllBlank(lines)
    ensures FirstText(lines, f)
  {
    if Blank(lines[0]) {
      f := TextExists(lines[1..]);
      assert forall i :: 0 < i <= f ==> lines[i] == lines[1..][i - 1];
      f := f + 1;
    } else {
      f := 0;
    }
  }

  lemma FirstTextStays(lines: Lines, line: string, f: nat)
    ensures FirstText(lines + [line], f) <==>
      FirstText(lines, f) || (f == |lines| && AllBlank(lines) && !Blank(line))
  {
    var more := lines + [line];
    assert forall i :: 0 <= i < |lines| ==> more[i] == lines[i];
  }

  lemma StartsStay(lines: Lines, line: string, i: nat)
    requires i < |lines|
    ensures StartsItem(lines + [line], i) <==> StartsItem(lines, i)
  {
    var more := lines + [line];
    assert forall k :: 0 <= k < |lines| ==> more[k] == lines[k];
    forall f: nat ensures FirstText(more, f) && f < |lines| <==> FirstText(lines, f) { FirstTextStays(lines, line, f); }
    if !Blank(lines[i]) {
      var f := TextExists(lines);
      FirstTextStays(lines, line, f);
      assert forall g: nat :: FirstText(more, g) ==> g == f;
    }
  }

  /** Whether one more line starts an item, as the scan decides it. */
  lemma LastStarts(s: Scan, lines: Lines, line: string)
    requires Remembers(s, lines)
    ensures StartsItem(lines + [line], |lines|) <==>
      !Blank(line) && (s.blocks == [] || (Indent(line) <= s.base && (s.blank || Bullet(line))))
  {
    var more := lines + [line];
    if AllBlank(lines) {
      FirstTextStays(lines, line, |lines|);
    } else {
      var f := TextExists(lines);
      FirstTextStays(lines, line, f);
      assert forall g: nat :: FirstText(more, g) ==> g == f;
      assert more[f] == lines[f] && more[|lines| - 1] == lines[|lines| - 1];
    }
  }

  lemma StepRemembers(s: Scan, lines: Lines, line: string)
    requires Remembers(s, lines)
    ensures Remembers(Step(s, line), lines + [line])
  {
    var more := lines + [line];
    assert AllBlank(more) <==> AllBlank(lines) && Blank(line) by {
      assert forall i :: 0 <= i < |lines| ==> more[i] == lines[i];
      assert more[|lines|] == line;
    }
    forall f: nat | FirstText(more, f) ensures Step(s, line).base == Indent(more[f]) {
      FirstTextStays(lines, line, f);
      if f == |lines| { assert s.base == NO_BASE; }
    }
    if !Blank(line) && s.base == NO_BASE { FirstTextStays(lines, line, |lines|); }
  }

  /** A block more for a line that starts an item. */
  lemma CutsNew(lines: Lines, line: string, starts: seq<nat>, blocks: seq<Lines>)
    requires Cuts(lines, starts, blocks) && StartsItem(lines + [line], |lines|)
    ensures Cuts(lines + [line], starts + [|lines|], blocks + [[line]])
  {
    var more, starts' := lines + [line], starts + [|lines|];
    forall i: nat ensures i in starts' <==> StartsItem(more, i) {
      if i < |lines| { StartsStay(lines, line, i); }
    }
    forall k | 0 <= k < |starts'|
      ensures starts'[k] < EndOf(more, starts', k) <= |more|
        && (blocks + [[line]])[k] == more[starts'[k]..EndOf(more, starts', k)]
    {
      if k < |starts| { assert EndOf(more, starts', k) == EndOf(lines, starts, k); }
    }
  }

  /** A longer last block for one that does not. */
  lemma CutsMore(lines: Lines, line: string, starts: seq<nat>, blocks: seq<Lines>)
    requires Cuts(lines, starts, blocks) && !StartsItem(lines + [line], |lines|) && blocks != []
    ensures Cuts(lines + [line], starts, AppendToLast(blocks, line))
  {
    var more, n := lines + [line], |starts| - 1;
    forall i: nat ensures i in starts <==> StartsItem(more, i) {
      if i < |lines| { StartsStay(lines, line, i); }
    }
    forall k | 0 <= k < |starts|
      ensures starts[k] < EndOf(more, starts, k) <= |more|
        && AppendToLast(blocks, line)[k] == more[starts[k]..EndOf(more, starts, k)]
    {
      assert starts[k] < EndOf(lines, starts, k);
    }
  }

  lemma CutsNone(lines: Lines, line: string)
    requires AllBlank(lines) && Blank(line)
    ensures Cuts(lines + [line], [], [])
  {
    var more := lines + [line];
    forall i: nat | i < |more| ensures Blank(more[i]) { if i < |lines| { assert more[i] == lines[i]; } }
  }

  /** The scan cuts the lines exactly where items start. */
  lemma {:induction false} ScanExact(lines: Lines) returns (starts: seq<nat>)
    ensures Cuts(lines, starts, ScanLines(lines).blocks) && Remembers(ScanLines(lines), lines)
  {
    starts := [];
    if lines != [] {
      var n := |lines| - 1;
      var before, line := lines[..n], lines[n];
      var s := ScanLines(before);
      starts := ScanExact(before);
      assert lines == before + [line] && ScanLines(lines) == Step(s, line);
      LastStarts(s, before, line);
      StepRemembers(s, before, line);
      if StartsItem(lines, n) {
        CutsNew(before, line, starts, s.blocks);
        starts := starts + [n];
      } else if s.blocks != [] {
        CutsMore(before, line, starts, s.blocks);
      } else {
        CutsNone(before, line);
      }
    }
  }

  // ----- what an item holds

  /** The nested list of a block begins at the first deeper bullet after its first line, or nowhere. */
  ghost predicate NestsFrom(block: Lines, n: nat) {
    && 1 <= n <= |block|
    && (forall i :: 1 <= i < n ==> !(Bullet(block[i]) && Indent(block[i]) > Indent(block[0])))
    && (n < |block| ==> Bullet(block[n]) && Indent(block[n]) > Indent(block[0]))
  }

  lemma {:induction false} NestedFromExact(block: Lines, i: nat)
    requires block != [] && 1 <= i <= |block|
    requires forall j :: 1 <= j < i ==> !(Bullet(block[j]) && Indent(block[j]) > Indent(block[0]))
    ensures NestsFrom(block, NestedFrom(block, i))
    decreases |block| - i
  {
    if i < |block| && !(Bullet(block[i]) && Indent(block[i]) > Indent(block[0])) { NestedFromExact(block, i + 1); }
  }

  /** An item of a block: its text up to the nested list, and that list's items. */
  ghost predicate IsItemOf(block: Lines, item: Item) {
    exists n: nat :: NestsFrom(block, n) && IsTrimmed(block[..n], item.head) && item.children == ParseItems(block[n..])
  }

  /**
    Parsing, told from positions: one item for each line that starts one, made
    of the lines up to the next.
   */
  lemma ParseExact(lines: Lines) returns (starts: seq<nat>, blocks: seq<Lines>)
    ensures Cuts(lines, starts, blocks) && |ParseItems(lines)| == |blocks|
    ensures forall k :: 0 <= k < |blocks| ==> IsItemOf(blocks[k], ParseItems(lines)[k])
  {
    starts := ScanExact(lines);
    blocks := ScanLines(lines).blocks;
    if blocks == [] {
      assert ParseItems(lines) == [];
    }
    forall k | 0 <= k < |blocks|
      ensures |ParseItems(lines)| == |blocks| && IsItemOf(blocks[k], ParseItems(lines)[k])
    {
      ParsedAt(lines, k);
      NestedFromExact(blocks[k], 1);
      TrimExact(blocks[k][..NestedFrom(blocks[k], 1)]);
    }
  }

  // ----- sections

  ghost predicate NoneStartsWith(lines: Lines, prefix: string) {
    forall i :: 0 <= i < |lines| ==> !(prefix <= lines[i])
  }

  /** The body and the parts, each behind its heading. */
  ghost function Unsplit(body: Lines, headings: seq<string>, parts: seq<(string, Lines)>): Lines
    requires |headings| == |parts|
  {
    if parts == [] then body
    else
      var n := |parts| - 1;
      Unsplit(body, headings[..n], parts[..n]) + [headings[n]] + parts[n].1
  }

  /** Cut at exactly the lines with the prefix, the lines are these parts, titled by what stands behind it. */
  ghost predicate SplitsInto(lines: Lines, prefix: string, s: Split, headings: seq<string>) {
    && |headings| == |s.parts| && lines == Unsplit(s.body, headings, s.parts) && NoneStartsWith(s.body, prefix)
    && (forall k :: 0 <= k < |headings| ==>
        && prefix <= headings[k] && IsStripped(headings[k][|prefix|..], s.parts[k].0)
        && NoneStartsWith(s.parts[k].1, prefix))
  }

  lemma SplitsNew(lines: Lines, line: string, prefix: string, s: Split, headings: seq<string>)
    requires SplitsInto(lines, prefix, s, headings) && prefix <= line
    ensures SplitsInto(lines + [line], prefix, SplitLine(s, line, prefix), headings + [line])
  {
    var t := SplitLine(s, line, prefix);
    StripExact(line[|prefix|..]);
    assert t.parts[..|s.parts|] == s.parts && (headings + [line])[..|headings|] == headings;
    assert Unsplit(t.body, headings + [line], t.parts) == lines + [line] + [];
  }

  lemma SplitsMore(lines: Lines, line: string, prefix: string, s: Split, headings: seq<string>)
    requires SplitsInto(lines, prefix, s, headings) && !(prefix <= line)
    ensures SplitsInto(lines + [line], prefix, SplitLine(s, line, prefix), headings)
  {
    var t := SplitLine(s, line, prefix);
    if s.parts != [] {
      var n := |s.parts| - 1;
      assert t.parts[..n] == s.parts[..n];
      assert t.parts[n].1 == s.parts[n].1 + [line];
    }
  }

  lemma {:induction false} SplitExact(lines: Lines, prefix: string) returns (headings: seq<string>)
    ensures SplitsInto(lines, prefix, SplitLines(lines, prefix), headings)
  {
    headings := [];
    if lines != [] {
      var n := |lines| - 1;
      var before, line := lines[..n], lines[n];
      headings := SplitExact(before, prefix);
      var s := SplitLines(before, prefix);
      assert lines == before + [line] && SplitLines(lines, prefix) == SplitLine(s, line, prefix);
      if prefix <= line {
        SplitsNew(before, line, prefix, s, headings);
        headings := headings + [line];
      } else {
        SplitsMore(before, line, prefix, s, headings);
      }
    }
  }
}
