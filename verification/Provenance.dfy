/**
  Which template lines a rendered line came from. The raw render is covered by
  consecutive spans, each with the include stack it was emitted under; a single
  pass over the bytes gives every line one breadcrumb chain.
 */
module Provenance {
  import opened Common

  datatype Frame = Frame(path: string, line: int)
  datatype Span = Span(length: nat, frames: seq<Frame>, isText: bool)
  datatype Crumb = Crumb(name: string, line: int)

  type Chain = seq<Crumb>
  type BaseLines = map<string, int>

  /** The frames of known templates, innermost first; a text span's innermost line moves on by `sub`. */
  function FramesToChain(frames: seq<Frame>, isText: bool, sub: nat, base: BaseLines): Chain {
    if frames == [] then []
    else
      var n := |frames| - 1;
      var f := frames[n];
      var line := f.line + (if isText && n == 0 then sub else 0);
      FramesToChain(frames[..n], isText, sub, base)
      + (if f.path in base && line > 0 then [Crumb(f.path, base[f.path] + line)] else [])
  }

  /** Where frame `k` points, if it points anywhere. */
  ghost function CrumbOf(frames: seq<Frame>, k: nat, isText: bool, sub: nat, base: BaseLines): Option<Crumb>
    requires k < |frames|
  {
    var line := frames[k].line + (if isText && k == 0 then sub else 0);
    if frames[k].path in base && line > 0 then Some(Crumb(frames[k].path, base[frames[k].path] + line)) else None
  }

  /** `from` are the frames that point somewhere, innermost first, and the chain is where they point. */
  ghost predicate Points(frames: seq<Frame>, isText: bool, sub: nat, base: BaseLines, chain: Chain, from: seq<nat>) {
    && |from| == |chain| && (forall i, j :: 0 <= i < j < |from| ==> from[i] < from[j])
    && (forall i :: 0 <= i < |from| ==>
        from[i] < |frames| && CrumbOf(frames, from[i], isText, sub, base) == Some(chain[i]))
    && (forall k :: 0 <= k < |frames| && CrumbOf(frames, k, isText, sub, base).Some? ==> k in from)
  }

  /** The chain built frame by frame: one crumb for each frame that points somewhere, in order. */
  method BuildChain(frames: seq<Frame>, isText: bool, sub: nat, base: BaseLines)
    returns (chain: Chain, ghost from: seq<nat>)
    ensures chain == FramesToChain(frames, isText, sub, base)
    ensures Points(frames, isText, sub, base, chain, from)
  {
    chain, from := [], [];
    for k := 0 to |frames|
      invariant chain == FramesToChain(frames[..k], isText, sub, base)
      invariant Points(frames[..k], isText, sub, base, chain, from)
    {
      ChainNext(frames, k, isText, sub, base);
      PointsNext(frames, k, isText, sub, base, chain, from);
      var f := frames[k];
      var line := f.line;
      if isText && k == 0 {
        line := line + sub;
      }
      ghost var crumb := CrumbOf(frames, k, isText, sub, base);
      if f.path in base && line > 0 {
        assert crumb == Some(Crumb(f.path, base[f.path] + line));
        chain, from := chain + [Crumb(f.path, base[f.path] + line)], from + [k];
      } else {
        assert crumb == None;
      }
    }
    assert frames[..|frames|] == frames;
  }

  lemma ChainNext(frames: seq<Frame>, k: nat, isText: bool, sub: nat, base: BaseLines)
    requires k < |frames|
    ensures FramesToChain(frames[..k + 1], isText, sub, base)
      == FramesToChain(frames[..k], isText, sub, base)
         + (var crumb := CrumbOf(frames, k, isText, sub, base); if crumb.Some? then [crumb.value] else [])
  {
    assert frames[..k + 1][..k] == frames[..k];
  }

  lemma PointsNext(frames: seq<Frame>, k: nat, isText: bool, sub: nat, base: BaseLines, chain: Chain, from: seq<nat>)
    requires k < |frames| && Points(frames[..k], isText, sub, base, chain, from)
    ensures var crumb := CrumbOf(frames, k, isText, sub, base);
      if crumb.Some? then Points(frames[..k + 1], isText, sub, base, chain + [crumb.value], from + [k])
      else Points(frames[..k + 1], isText, sub, base, chain, from)
  {
    forall j | 0 <= j < k
      ensures CrumbOf(frames[..k], j, isText, sub, base) == CrumbOf(frames[..k + 1], j, isText, sub, base)
    {
    }
    assert CrumbOf(frames[..k + 1], k, isText, sub, base) == CrumbOf(frames, k, isText, sub, base);
  }

  ghost predicate IsInk(c: char) { c != '\n' && c != ' ' && c != '\t' && c != '\r' }

  // ----- positions

  function Newlines(s: string): nat {
    if s == "" then 0 else Newlines(s[..|s| - 1]) + (if s[|s| - 1] == '\n' then 1 else 0)
  }

  lemma NewlinesNext(s: string, from: nat, i: nat)
    requires from <= i < |s|
    ensures Newlines(s[from..i + 1]) == Newlines(s[from..i]) + (if s[i] == '\n' then 1 else 0)
  {
    var t := s[from..i + 1];
    assert t[..|t| - 1] == s[from..i] && t[|t| - 1] == s[i];
  }

  lemma {:induction false} NewlinesMonotone(s: string, i: nat, j: nat)
    requires i <= j <= |s|
    ensures Newlines(s[..i]) <= Newlines(s[..j])
    decreases j
  {
    if i < j {
      NewlinesMonotone(s, i, j - 1);
      assert s[..j][..j - 1] == s[..j - 1];
    }
  }

  /** The line a byte stands on; a newline belongs to the line it ends. */
  function LineOf(raw: string, i: nat): nat
    requires i <= |raw|
  {
    Newlines(raw[..i])
  }

  /** Where span k begins; spans beyond the end of the text are empty. */
  function Start(raw: string, spans: seq<Span>, k: nat): nat
    requires k <= |spans|
    ensures Start(raw, spans, k) <= |raw|
  {
    if k == 0 then 0
    else
      var end := Start(raw, spans, k - 1) + spans[k - 1].length;
      if end > |raw| then |raw| else end
  }

  lemma {:induction false} StartMonotone(raw: string, spans: seq<Span>, j: nat, k: nat)
    requires j <= k <= |spans|
    ensures Start(raw, spans, j) <= Start(raw, spans, k)
    decreases k
  {
    if j < k {
      StartMonotone(raw, spans, j, k - 1);
    }
  }

  function Lengths(spans: seq<Span>): nat {
    if spans == [] then 0 else Lengths(spans[..|spans| - 1]) + spans[|spans| - 1].length
  }

  /** Spans follow one another, up to the end of the text. */
  lemma {:induction false} StartExact(raw: string, spans: seq<Span>, k: nat)
    requires k <= |spans|
    ensures Start(raw, spans, k) == if Lengths(spans[..k]) <= |raw| then Lengths(spans[..k]) else |raw|
  {
    if k > 0 {
      StartExact(raw, spans, k - 1);
      assert spans[..k][..k - 1] == spans[..k - 1];
    }
  }

  /** How many bytes the spans cover. */
  function Covered(raw: string, spans: seq<Span>): nat { Start(raw, spans, |spans|) }

  ghost predicate InSpan(raw: string, spans: seq<Span>, k: nat, i: nat) {
    k < |spans| && Start(raw, spans, k) <= i < Start(raw, spans, k + 1)
  }

  ghost function SpanOf(raw: string, spans: seq<Span>, i: nat, k: nat): (r: nat)
    requires k < |spans| && Start(raw, spans, k) <= i < Covered(raw, spans)
    ensures InSpan(raw, spans, r, i)
    decreases |spans| - k
  {
    if i < Start(raw, spans, k + 1) then k else SpanOf(raw, spans, i, k + 1)
  }

  lemma SpanUnique(raw: string, spans: seq<Span>, i: nat, j: nat, k: nat)
    requires InSpan(raw, spans, j, i) && InSpan(raw, spans, k, i)
    ensures j == k
  {
    if j < k {
      StartMonotone(raw, spans, j + 1, k);
    } else if k < j {
      StartMonotone(raw, spans, k + 1, j);
    }
  }

  /** The chain of byte i: its span's frames, with the newlines since the span began. */
  ghost function ChainAt(raw: string, spans: seq<Span>, base: BaseLines, i: nat): Chain
    requires i < Covered(raw, spans)
  {
    var k := SpanOf(raw, spans, i, 0);
    FramesToChain(spans[k].frames, spans[k].isText,
                  if spans[k].isText then Newlines(raw[Start(raw, spans, k)..i]) else 0, base)
  }

  // ----- what decides a line

  ghost predicate OnLine(raw: string, line: nat, i: nat) { i < |raw| && LineOf(raw, i) == line }

  /** Byte i is the first before `bound` on its line, or the first with ink. */
  ghost predicate First(raw: string, line: nat, bound: nat, i: nat, ink: bool) {
    && i < bound <= |raw| && OnLine(raw, line, i) && (ink ==> IsInk(raw[i]))
    && forall j: nat :: j < i && OnLine(raw, line, j) ==> ink && !IsInk(raw[j])
  }

  ghost predicate NoneOn(raw: string, line: nat, bound: nat, ink: bool) {
    forall j: nat :: j < bound && OnLine(raw, line, j) ==> ink && !IsInk(raw[j])
  }

  /** The line's chain is that of its first ink byte, else of its first byte, else it has none. */
  ghost predicate Decided(raw: string, spans: seq<Span>, base: BaseLines, line: nat, bound: nat, chain: Option<Chain>,
                          locked: bool)
    requires bound <= Covered(raw, spans)
  {
    if locked then exists i: nat :: First(raw, line, bound, i, true) && chain == Some(ChainAt(raw, spans, base, i))
    else
      && NoneOn(raw, line, bound, true)
      && (if chain.Some? then
            exists i: nat :: First(raw, line, bound, i, false) && chain == Some(ChainAt(raw, spans, base, i))
          else NoneOn(raw, line, bound, false))
  }

  /** What the whole render says about a line. */
  ghost predicate LineChain(raw: string, spans: seq<Span>, base: BaseLines, line: nat, chain: Option<Chain>) {
    || Decided(raw, spans, base, line, Covered(raw, spans), chain, true)
    || Decided(raw, spans, base, line, Covered(raw, spans), chain, false)
  }

  ghost predicate AllDecided(raw: string, spans: seq<Span>, base: BaseLines, bound: nat, out: seq<Option<Chain>>,
                             locked: seq<bool>)
    requires bound <= Covered(raw, spans) && |out| == |locked|
  {
    forall line: nat :: line < |out| ==> Decided(raw, spans, base, line, bound, out[line], locked[line])
  }

  /** What one byte does to the line it stands on. */
  lemma ThisLineStep(raw: string, spans: seq<Span>, base: BaseLines, i: nat, chain: Option<Chain>, locked: bool)
    requires i < Covered(raw, spans) && Decided(raw, spans, base, LineOf(raw, i), i, chain, locked)
    ensures var line, here := LineOf(raw, i), Some(ChainAt(raw, spans, base, i));
      if locked then Decided(raw, spans, base, line, i + 1, chain, true)
      else if IsInk(raw[i]) then Decided(raw, spans, base, line, i + 1, here, true)
      else Decided(raw, spans, base, line, i + 1, if chain.Some? then chain else here, false)
  {
  }

  lemma ByteStep(raw: string, spans: seq<Span>, base: BaseLines, i: nat, out: seq<Option<Chain>>, locked: seq<bool>,
                 out': seq<Option<Chain>>, locked': seq<bool>)
    requires i < Covered(raw, spans) && |out| == |locked| && LineOf(raw, i) < |out|
    requires AllDecided(raw, spans, base, i, out, locked)
    requires var line, here := LineOf(raw, i), Some(ChainAt(raw, spans, base, i));
      out' == out[line := if !locked[line] && (IsInk(raw[i]) || out[line].None?) then here else out[line]]
      && locked' == locked[line := locked[line] || IsInk(raw[i])]
    ensures AllDecided(raw, spans, base, i + 1, out', locked')
  {
    forall line: nat | line < |out'| ensures Decided(raw, spans, base, line, i + 1, out'[line], locked'[line]) {
      if line == LineOf(raw, i) {
        ThisLineStep(raw, spans, base, i, out[line], locked[line]);
      }
    }
  }

  /** Lets byte i decide its line, if the line is still open. */
  method ScanByte(raw: string, ghost spans: seq<Span>, base: BaseLines, ghost k: nat, sp: Span, i: nat, line: nat,
                  sub: nat, chains: array<Option<Chain>>, fixed: array<bool>)
    requires InSpan(raw, spans, k, i) && i < Covered(raw, spans) && sp == spans[k]
    requires line == LineOf(raw, i) && sub == (if sp.isText then Newlines(raw[Start(raw, spans, k)..i]) else 0)
    requires chains.Length == fixed.Length == Newlines(raw) + 1
    requires AllDecided(raw, spans, base, i, chains[..], fixed[..])
    modifies chains, fixed
    ensures AllDecided(raw, spans, base, i + 1, chains[..], fixed[..])
  {
    ghost var before, wasFixed := chains[..], fixed[..];
    var c := raw[i];
    HereIsChain(raw, spans, base, k, i);
    LineInRange(raw, i);
    if line < chains.Length && !fixed[line] {
      if c != '\n' && c != ' ' && c != '\t' && c != '\r' {
        chains[line] := Some(FramesToChain(sp.frames, sp.isText, sub, base));
        fixed[line] := true;
      } else if chains[line].None? {
        chains[line] := Some(FramesToChain(sp.frames, sp.isText, sub, base));
      }
    }
    ByteStep(raw, spans, base, i, before, wasFixed, chains[..], fixed[..]);
  }

  /** Walks the bytes of one span, counting lines and the span's own newlines. */
  method ScanSpan(raw: string, ghost spans: seq<Span>, base: BaseLines, ghost k: nat, sp: Span, pos: nat, end: nat,
                  start: nat, chains: array<Option<Chain>>, fixed: array<bool>)
    returns (line: nat)
    requires k < |spans| && sp == spans[k] && pos == Start(raw, spans, k) && end == Start(raw, spans, k + 1)
    requires pos <= end <= Covered(raw, spans) && start == LineOf(raw, pos)
    requires chains.Length == fixed.Length == Newlines(raw) + 1
    requires AllDecided(raw, spans, base, pos, chains[..], fixed[..])
    modifies chains, fixed
    ensures line == LineOf(raw, end)
    ensures AllDecided(raw, spans, base, end, chains[..], fixed[..])
  {
    line := start;
    var sub := 0;
    assert raw[pos..pos] == "";
    for i := pos to end
      invariant line == LineOf(raw, i) && sub == (if sp.isText then Newlines(raw[pos..i]) else 0)
      invariant AllDecided(raw, spans, base, i, chains[..], fixed[..])
    {
      ScanByte(raw, spans, base, k, sp, i, line, sub, chains, fixed);
      NewlinesNext(raw, 0, i);
      assert raw[0..i] == raw[..i] && raw[0..i + 1] == raw[..i + 1];
      NewlinesNext(raw, pos, i);
      if raw[i] == '\n' {
        line := line + 1;
        if sp.isText {
          sub := sub + 1;
        }
      }
    }
  }

  /**
    Attributes each line of the raw render. Line by line, the chain is that of
    the first byte with ink, else of the first covered byte, else absent; its
    in-span offset is the number of newlines since the span began.
   */
  method RawLineChains(raw: string, spans: seq<Span>, base: BaseLines) returns (out: seq<Option<Chain>>)
    ensures |out| == Newlines(raw) + 1
    ensures forall line: nat :: line < |out| ==> LineChain(raw, spans, base, line, out[line])
  {
    var n := Newlines(raw) + 1;
    var chains := new Option<Chain>[n](_ => None);
    var fixed := new bool[n](_ => false);
    var line, pos := 0, 0;
    for k := 0 to |spans|
      invariant pos == Start(raw, spans, k) && pos <= Covered(raw, spans) && line == LineOf(raw, pos)
      invariant AllDecided(raw, spans, base, pos, chains[..], fixed[..])
    {
      var end := pos + spans[k].length;
      if end > |raw| {
        end := |raw|;
      }
      StartMonotone(raw, spans, k + 1, |spans|);
      line := ScanSpan(raw, spans, base, k, spans[k], pos, end, line, chains, fixed);
      pos := end;
    }
    out := chains[..];
    forall line: nat | line < |out| ensures LineChain(raw, spans, base, line, out[line]) {
      assert Decided(raw, spans, base, line, pos, chains[..][line], fixed[..][line]);
    }
  }

  lemma HereIsChain(raw: string, spans: seq<Span>, base: BaseLines, k: nat, i: nat)
    requires InSpan(raw, spans, k, i) && i < Covered(raw, spans)
    ensures ChainAt(raw, spans, base, i)
         == FramesToChain(spans[k].frames, spans[k].isText,
                          if spans[k].isText then Newlines(raw[Start(raw, spans, k)..i]) else 0, base)
  {
    SpanUnique(raw, spans, i, SpanOf(raw, spans, i, 0), k);
  }

  lemma LineInRange(raw: string, i: nat)
    requires i <= |raw|
    ensures LineOf(raw, i) <= Newlines(raw)
  {
    NewlinesMonotone(raw, i, |raw|);
    assert raw[..|raw|] == raw;
  }

  // ----- aligning the displayed output

  /** The lines of a text, split at newlines. */
  function Lines(s: string): (r: seq<string>)
    ensures |r| == Newlines(s) + 1
  {
    if s == "" then [""]
    else
      var rest := Lines(s[..|s| - 1]);
      if s[|s| - 1] == '\n' then rest + [""]
      else rest[..|rest| - 1] + [rest[|rest| - 1] + [s[|s| - 1]]]
  }

  ghost function Joined(lines: seq<string>): string
    requires lines != []
  {
    if |lines| == 1 then lines[0] else Joined(lines[..|lines| - 1]) + "\n" + lines[|lines| - 1]
  }

  /** Joined by newlines the lines are the text, and none holds a newline. */
  lemma {:induction false} LinesExact(s: string)
    ensures Joined(Lines(s)) == s && forall i :: 0 <= i < |Lines(s)| ==> '\n' !in Lines(s)[i]
  {
    if s != "" {
      var n := |s| - 1;
      var rest := Lines(s[..n]);
      LinesExact(s[..n]);
      assert s == s[..n] + [s[n]];
      if s[n] == '\n' {
        assert (rest + [""])[..|rest|] == rest;
        assert "\n" == [s[n]];
      } else {
        var m := |rest| - 1;
        var longer := rest[..m] + [rest[m] + [s[n]]];
        assert longer[..m] == rest[..m];
        if m > 0 {
          assert Joined(rest[..m]) + "\n" + (rest[m] + [s[n]]) == Joined(rest[..m]) + "\n" + rest[m] + [s[n]];
        }
      }
    }
  }

  /** How many of these lines are not blank. */
  function Inked(lines: seq<string>, blank: string -> bool): nat {
    if lines == [] then 0 else Inked(lines[..|lines| - 1], blank) + (if blank(lines[|lines| - 1]) then 0 else 1)
  }

  lemma {:induction false} InkedMonotone(lines: seq<string>, blank: string -> bool, i: nat, j: nat)
    requires i <= j <= |lines|
    ensures Inked(lines[..i], blank) <= Inked(lines[..j], blank)
    decreases j
  {
    if i < j {
      InkedMonotone(lines, blank, i, j - 1);
      assert lines[..j][..j - 1] == lines[..j - 1];
    }
  }

  lemma InkedNext(lines: seq<string>, blank: string -> bool, i: nat)
    requires i < |lines|
    ensures Inked(lines[..i + 1], blank) == Inked(lines[..i], blank) + (if blank(lines[i]) then 0 else 1)
  {
    assert lines[..i + 1][..i] == lines[..i];
  }

  /** Raw line r and final line f are both non-blank, with equally many non-blank lines before them. */
  ghost predicate Paired(rawLines: seq<string>, finalLines: seq<string>, blank: string -> bool, r: nat, f: nat) {
    && r < |rawLines| && f < |finalLines| && !blank(rawLines[r]) && !blank(finalLines[f])
    && Inked(rawLines[..r], blank) == Inked(finalLines[..f], blank)
  }

  ghost predicate Aligned(rawLines: seq<string>, finalLines: seq<string>, blank: string -> bool,
                          chains: seq<Option<Chain>>, f: nat, chain: Option<Chain>)
    requires |chains| == |rawLines|
  {
    && (forall r: nat :: Paired(rawLines, finalLines, blank, r, f) ==> chain == chains[r])
    && ((forall r: nat :: !Paired(rawLines, finalLines, blank, r, f)) ==> chain == None)
  }

  lemma PairedUnique(rawLines: seq<string>, finalLines: seq<string>, blank: string -> bool, r: nat, q: nat, f: nat)
    requires Paired(rawLines, finalLines, blank, r, f) && Paired(rawLines, finalLines, blank, q, f)
    ensures r == q
  {
    var a, b := if r < q then r else q, if r < q then q else r;
    if a < b {
      InkedNext(rawLines, blank, a);
      InkedMonotone(rawLines, blank, a + 1, b);
    }
  }

  /** The cursor: everything before it is paired with the final lines seen, or the raw lines ran out. */
  ghost predicate InStep(rawLines: seq<string>, finalLines: seq<string>, blank: string -> bool, rj: nat, f: nat)
    requires rj <= |rawLines| && f <= |finalLines|
  {
    || Inked(rawLines[..rj], blank) == Inked(finalLines[..f], blank)
    || (rj == |rawLines| && Inked(rawLines, blank) < Inked(finalLines[..f], blank))
  }

  lemma NoPartner(rawLines: seq<string>, finalLines: seq<string>, blank: string -> bool, f: nat)
    requires f < |finalLines| && Inked(rawLines, blank) <= Inked(finalLines[..f], blank)
    ensures forall r: nat :: !Paired(rawLines, finalLines, blank, r, f)
  {
    assert rawLines[..|rawLines|] == rawLines;
    forall r: nat ensures !Paired(rawLines, finalLines, blank, r, f) {
      if Paired(rawLines, finalLines, blank, r, f) {
        InkedNext(rawLines, blank, r);
        InkedMonotone(rawLines, blank, r + 1, |rawLines|);
      }
    }
  }

  /** Gives the k-th non-blank final line the chain of the k-th non-blank raw line. */
  method AlignedChains(raw: string, spans: seq<Span>, final: string, base: BaseLines, blank: string -> bool)
    returns (out: seq<Option<Chain>>, ghost chains: seq<Option<Chain>>)
    ensures |chains| == |Lines(raw)|
      && forall line: nat :: line < |chains| ==> LineChain(raw, spans, base, line, chains[line])
    ensures |out| == |Lines(final)|
    ensures forall f: nat :: f < |out| ==> Aligned(Lines(raw), Lines(final), blank, chains, f, out[f])
  {
    var rawChains := RawLineChains(raw, spans, base);
    chains := rawChains;
    var rawLines, finalLines := Lines(raw), Lines(final);
    out := seq(|finalLines|, _ => None);
    var rj := 0;
    for f := 0 to |finalLines|
      invariant rj <= |rawLines| && |out| == |finalLines|
      invariant InStep(rawLines, finalLines, blank, rj, f)
      invariant forall g: nat :: g < f ==> Aligned(rawLines, finalLines, blank, chains, g, out[g])
      invariant forall g: nat :: f <= g < |out| ==> out[g] == None
    {
      InkedNext(finalLines, blank, f);
      if blank(finalLines[f]) {
        continue;
      }
      while rj < |rawLines| && blank(rawLines[rj])
        invariant rj <= |rawLines| && InStep(rawLines, finalLines, blank, rj, f)
      {
        InkedNext(rawLines, blank, rj);
        rj := rj + 1;
      }
      assert rawLines[..|rawLines|] == rawLines;
      if rj >= |rawLines| {
        NoPartner(rawLines, finalLines, blank, f);
        continue;
      }
      InkedNext(rawLines, blank, rj);
      forall r: nat | Paired(rawLines, finalLines, blank, r, f) ensures r == rj {
        PairedUnique(rawLines, finalLines, blank, r, rj, f);
      }
      assert Paired(rawLines, finalLines, blank, rj, f);
      if rj < |rawChains| {
        out := out[f := rawChains[rj]];
      }
      rj := rj + 1;
    }
  }
}
