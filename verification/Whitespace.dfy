/** Whitespace at the ends of a line. */
module Whitespace {

  predicate IsSpace(c: char) { c == ' ' || c == '\t' || c == '\r' || c == '\n' }

  predicate Blank(line: string) {
    forall i :: 0 <= i < |line| ==> IsSpace(line[i])
  }

  function StripStart(s: string): string { if s != "" && IsSpace(s[0]) then StripStart(s[1..]) else s }
  function StripEnd(s: string): string { if s != "" && IsSpace(s[|s| - 1]) then StripEnd(s[..|s| - 1]) else s }
  function Strip(s: string): string { StripEnd(StripStart(s)) }

  /** `t` is what stands between the whitespace at both ends. */
  ghost predicate IsStripped(s: string, t: string) {
    exists i, j :: 0 <= i <= j <= |s| && t == s[i..j] && Blank(s[..i]) && Blank(s[j..])
                   && (t != "" ==> !IsSpace(t[0]) && !IsSpace(t[|t| - 1]))
  }

  lemma {:induction false} StripStartExact(s: string)
    ensures var t := StripStart(s);
      |t| <= |s| && t == s[|s| - |t|..] && Blank(s[..|s| - |t|]) && (t != "" ==> !IsSpace(t[0]))
  {
    if s != "" && IsSpace(s[0]) {
      StripStartExact(s[1..]);
      var k := |s| - |StripStart(s)|;
      assert s[..k] == [s[0]] + s[1..][..k - 1];
    }
  }

  lemma {:induction false} StripEndExact(s: string)
    ensures var t := StripEnd(s); t <= s && Blank(s[|t|..]) && (t != "" ==> !IsSpace(t[|t| - 1]))
  {
    if s != "" && IsSpace(s[|s| - 1]) {
      var n := |s| - 1;
      StripEndExact(s[..n]);
      var k := |StripEnd(s)|;
      assert s[k..] == s[..n][k..] + [s[n]];
    }
  }

  lemma StripExact(s: string)
    ensures IsStripped(s, Strip(s))
  {
    var rest := StripStart(s);
    StripStartExact(s);
    StripEndExact(rest);
    var t := Strip(s);
    var i := |s| - |rest|;
    var j := i + |t|;
    assert t == s[i..j] && s[j..] == rest[|t|..];
    assert t != "" ==> t[0] == rest[0];
  }
}
