/**
 * The Python string primitives the extractor relies on: the substring test
 * `pat in s`, `str.find`/`str.rfind` for one character, and `str.splitlines`
 * restricted to line-feed line breaks.
 */
module Text {

  /** `pat` occurs in `s` starting at index `i`. */
  predicate OccursAt(s: string, i: int, pat: string) {
    0 <= i && i + |pat| <= |s| && s[i..i + |pat|] == pat
  }

  /** Three patterns occurring back to back spell out their concatenation. */
  lemma OccursConcat(s: string, i: int, a: string, b: string, c: string)
    requires OccursAt(s, i, a) && OccursAt(s, i + |a|, b) && OccursAt(s, i + |a| + |b|, c)
    ensures OccursAt(s, i, a + b + c)
  {
    var j := i + |a|;
    var k := j + |b|;
    assert s[i..k + |c|] == s[i..j] + s[j..k] + s[k..k + |c|];
  }

  /** Python's `pat in s` on strings: `pat` occurs somewhere in `s`. */
  function Contains(s: string, pat: string): (r: bool)
    ensures r <==> exists i :: OccursAt(s, i, pat)
  {
    ContainsFrom(s, pat, 0)
  }

  /** `pat` occurs in `s` at some index from `from` on. */
  function ContainsFrom(s: string, pat: string, from: nat): (r: bool)
    requires from <= |s|
    ensures r <==> exists i :: from <= i && OccursAt(s, i, pat)
    decreases |s| - from
  {
    if from + |pat| > |s| then false
    else if OccursAt(s, from, pat) then true
    else ContainsFrom(s, pat, from + 1)
  }

  /** `s.find(c)`: the first index of `c` in `s`, or -1 when there is none. */
  function FindChar(s: string, c: char): (k: int)
    ensures -1 <= k < |s|
    ensures k == -1 ==> c !in s
    ensures 0 <= k ==> s[k] == c && c !in s[..k]
  {
    if s == [] then -1
    else if s[0] == c then 0
    else
      var k := FindChar(s[1..], c);
      if k == -1 then -1 else k + 1
  }

  /** `s.rfind(c)`: the last index of `c` in `s`, or -1 when there is none. */
  function LastIndexOf(s: string, c: char): (k: int)
    ensures -1 <= k < |s|
    ensures k == -1 ==> c !in s
    ensures 0 <= k ==> s[k] == c
    ensures forall j :: k < j < |s| ==> s[j] != c
  {
    if s == [] then -1
    else if s[|s| - 1] == c then |s| - 1
    else LastIndexOf(s[..|s| - 1], c)
  }

  /** Each line followed by a line feed, all concatenated: the text whose lines are `lines`. */
  function Unlines(lines: seq<string>): string {
    if lines == [] then [] else lines[0] + "\n" + Unlines(lines[1..])
  }

  /** `s` with a final line feed added unless it is empty or already ends with one. */
  function Terminated(s: string): string {
    if s == [] || s[|s| - 1] == '\n' then s else s + "\n"
  }

  /**
   * `s.splitlines()` for text whose only line break is the line feed: the
   * line feeds are removed and a final line feed does not start an empty line.
   */
  function SplitLines(s: string): (lines: seq<string>)
    ensures forall i :: 0 <= i < |lines| ==> '\n' !in lines[i]
    ensures Unlines(lines) == Terminated(s)
    decreases |s|
  {
    if s == [] then []
    else
      var k := FindChar(s, '\n');
      if k == -1 then
        assert Unlines([s]) == s + "\n";
        [s]
      else
        var rest := s[k + 1..];
        var tail := SplitLines(rest);
        var lines := [s[..k]] + tail;
        TerminatedAfterLineFeed(s, k);
        assert lines[0] == s[..k] && lines[1..] == tail;
        assert Unlines(lines) == s[..k] + "\n" + Terminated(rest);
        lines
  }

  /** Cutting `s` after a line feed at `k` leaves the termination of the rest unchanged. */
  lemma TerminatedAfterLineFeed(s: string, k: nat)
    requires k < |s| && s[k] == '\n'
    ensures Terminated(s) == s[..k] + "\n" + Terminated(s[k + 1..])
  {
    var rest := s[k + 1..];
    assert s == s[..k] + "\n" + rest;
    if rest != [] {
      assert rest[|rest| - 1] == s[|s| - 1];
    }
  }

  /** Splitting the text built from line-feed-free lines gives those lines back. */
  lemma {:induction false} SplitLinesOfUnlines(lines: seq<string>)
    requires forall i :: 0 <= i < |lines| ==> '\n' !in lines[i]
    ensures SplitLines(Unlines(lines)) == lines
  {
    if lines != [] {
      var s := Unlines(lines);
      var line := lines[0];
      assert s == line + ("\n" + Unlines(lines[1..]));
      assert s[..|line|] == line;
      assert s[|line|] == '\n';
      assert FindChar(s, '\n') == |line|;
      assert s[|line| + 1..] == Unlines(lines[1..]);
      SplitLinesOfUnlines(lines[1..]);
    }
  }

}
