/**
 * The one regular expression of the extractor,
 * `/System/Library/Frameworks/(.+?)\.framework`, searched with `re.search`:
 * the match starting leftmost in the line wins, and at that start the lazy
 * group takes the fewest characters (at least one, never a line feed, as
 * `.` does not match one) that are followed by `.framework`.
 */
module FrameworkPattern {
  import opened Wrappers
  import opened Text

  const Root: string := "/System/Library/Frameworks/"
  const Suffix: string := ".framework"

  /** A search hit: where the whole match starts and how long group 1 is. */
  datatype Match = Match(start: nat, groupLength: nat)

  /** No line feed in `line[lo..hi]`. */
  predicate NoLineFeed(line: string, lo: int, hi: int)
    requires 0 <= lo && hi <= |line|
  {
    forall i :: lo <= i < hi ==> line[i] != '\n'
  }

  /** A group of `len` characters at `from` can be followed by `.framework`. */
  predicate GroupFits(line: string, from: int, len: int) {
    0 <= from && from + len <= |line| &&
    NoLineFeed(line, from, from + len) &&
    OccursAt(line, from + len, Suffix)
  }

  /** The pattern matches `line` at `start` with a group of `len` characters. */
  predicate MatchesAt(line: string, start: int, len: int) {
    1 <= len && OccursAt(line, start, Root) && GroupFits(line, start + |Root|, len)
  }

  /** `m` is what `re.search` returns: a match, at the leftmost start, with the shortest group there. */
  ghost predicate IsSearchResult(line: string, m: Match) {
    MatchesAt(line, m.start, m.groupLength) &&
    (forall s, n :: 0 <= s < m.start ==> !MatchesAt(line, s, n)) &&
    (forall n :: n < m.groupLength ==> !MatchesAt(line, m.start, n))
  }

  /** `match.group(1)`: the captured framework name. */
  function Group(line: string, m: Match): (name: string)
    requires m.start + |Root| + m.groupLength <= |line|
    ensures |name| == m.groupLength
  {
    line[m.start + |Root|..m.start + |Root| + m.groupLength]
  }

  /** A matched group is a non-empty name without line feeds, and the line spells out its framework path. */
  lemma GroupOccurs(line: string, m: Match)
    requires MatchesAt(line, m.start, m.groupLength)
    ensures var name := Group(line, m);
      name != [] && '\n' !in name && OccursAt(line, m.start, Root + name + Suffix)
  {
    var from := m.start + |Root|;
    var name := Group(line, m);
    assert OccursAt(line, from, name);
    OccursConcat(line, m.start, Root, name, Suffix);
  }

  /** The fewest characters, `len` or more, that a group at `from` can take; None when no length fits. */
  function ShortestGroup(line: string, from: nat, len: nat): (r: Option<nat>)
    requires 1 <= len
    ensures r.Some? ==> len <= r.value && from + r.value <= |line|
    decreases |line| - (from + len)
  {
    if from + len > |line| then None
    else if line[from + len - 1] == '\n' then None
    else if OccursAt(line, from + len, Suffix) then Some(len)
    else ShortestGroup(line, from, len + 1)
  }

  /** `ShortestGroup` finds the shortest fitting group of at least `len` characters, or reports that none fits. */
  lemma {:induction false} ShortestGroupSpec(line: string, from: nat, len: nat)
    requires 1 <= len && from + len - 1 <= |line|
    requires NoLineFeed(line, from, from + len - 1)
    ensures var r := ShortestGroup(line, from, len);
      (r.Some? ==> GroupFits(line, from, r.value) && forall k :: len <= k < r.value ==> !GroupFits(line, from, k)) &&
      (r.None? ==> forall k :: len <= k ==> !GroupFits(line, from, k))
    decreases |line| - (from + len)
  {
    if from + len > |line| {
      forall k | len <= k ensures !GroupFits(line, from, k) {
      }
    } else if line[from + len - 1] == '\n' {
      forall k | len <= k ensures !GroupFits(line, from, k) {
        assert line[from + len - 1] == '\n';
      }
    } else {
      assert NoLineFeed(line, from, from + len);
      if !OccursAt(line, from + len, Suffix) {
        assert !GroupFits(line, from, len);
        ShortestGroupSpec(line, from, len + 1);
      }
    }
  }

  /** The leftmost match starting at `start` or later. */
  function SearchFrom(line: string, start: nat): (r: Option<Match>)
    ensures r.Some? ==> start <= r.value.start && r.value.start + |Root| + r.value.groupLength <= |line|
    decreases |line| - start
  {
    if start + |Root| > |line| then None
    else if OccursAt(line, start, Root) then
      match ShortestGroup(line, start + |Root|, 1)
      case Some(len) => Some(Match(start, len))
      case None => SearchFrom(line, start + 1)
    else SearchFrom(line, start + 1)
  }

  /** Where `SearchFrom` stops at `start`, the pattern matches there with the shortest group. */
  lemma HitAt(line: string, start: nat)
    requires OccursAt(line, start, Root)
    requires ShortestGroup(line, start + |Root|, 1).Some?
    ensures var len := ShortestGroup(line, start + |Root|, 1).value;
      MatchesAt(line, start, len) && forall n :: n < len ==> !MatchesAt(line, start, n)
  {
    var from := start + |Root|;
    ShortestGroupSpec(line, from, 1);
    var len := ShortestGroup(line, from, 1).value;
    forall n | n < len ensures !MatchesAt(line, start, n) {
      if 1 <= n {
        assert !GroupFits(line, from, n);
      }
    }
  }

  /** Where `SearchFrom` moves past `start`, the pattern matches nowhere at `start`. */
  lemma MissAt(line: string, start: nat)
    requires start + |Root| <= |line|
    requires !OccursAt(line, start, Root) || ShortestGroup(line, start + |Root|, 1).None?
    ensures forall n :: !MatchesAt(line, start, n)
  {
    var from := start + |Root|;
    if OccursAt(line, start, Root) {
      ShortestGroupSpec(line, from, 1);
      forall n ensures !MatchesAt(line, start, n) {
        if 1 <= n {
          assert !GroupFits(line, from, n);
        }
      }
    }
  }

  /** `SearchFrom` finds the leftmost match from `start` on, with the shortest group there. */
  lemma {:induction false} SearchFromSpec(line: string, start: nat)
    ensures var r := SearchFrom(line, start);
      (r.None? ==> forall s, n :: start <= s ==> !MatchesAt(line, s, n)) &&
      (r.Some? ==> MatchesAt(line, r.value.start, r.value.groupLength) &&
                   (forall s, n :: start <= s < r.value.start ==> !MatchesAt(line, s, n)) &&
                   (forall n :: n < r.value.groupLength ==> !MatchesAt(line, r.value.start, n)))
    decreases |line| - start
  {
    if start + |Root| > |line| {
      forall s, n | start <= s ensures !MatchesAt(line, s, n) {
      }
    } else if OccursAt(line, start, Root) && ShortestGroup(line, start + |Root|, 1).Some? {
      HitAt(line, start);
    } else {
      MissAt(line, start);
      SearchFromSpec(line, start + 1);
      var r := SearchFrom(line, start + 1);
      assert SearchFrom(line, start) == r;
      if r.Some? {
        forall s, n | start <= s < r.value.start ensures !MatchesAt(line, s, n) {
          if s == start {
            assert !MatchesAt(line, start, n);
          }
        }
      } else {
        forall s, n | start <= s ensures !MatchesAt(line, s, n) {
          if s == start {
            assert !MatchesAt(line, start, n);
          }
        }
      }
    }
  }

  /** `re.search(pattern, line)`. */
  function Search(line: string): (r: Option<Match>)
    ensures r.Some? ==> r.value.start + |Root| + r.value.groupLength <= |line|
  {
    SearchFrom(line, 0)
  }

  /** `re.search` fails exactly when the pattern matches nowhere, and otherwise returns the leftmost, shortest match. */
  lemma SearchSpec(line: string)
    ensures Search(line).None? <==> forall s, n :: !MatchesAt(line, s, n)
    ensures Search(line).Some? ==> IsSearchResult(line, Search(line).value)
  {
    SearchFromSpec(line, 0);
  }

  /**
   * The captured name is the shortest possible: no shorter non-empty prefix
   * of it is followed by `.framework` at the same position.
   */
  lemma GroupIsShortest(line: string, m: Match)
    requires IsSearchResult(line, m)
    ensures var name := Group(line, m);
      forall k :: 1 <= k < |name| ==>
        line[m.start..m.start + |Root| + k + |Suffix|] != Root + name[..k] + Suffix
  {
    var name := Group(line, m);
    var from := m.start + |Root|;
    forall k | 1 <= k < |name|
      ensures line[m.start..from + k + |Suffix|] != Root + name[..k] + Suffix
    {
      assert !MatchesAt(line, m.start, k);
      assert NoLineFeed(line, from, from + k);
    }
  }

}
