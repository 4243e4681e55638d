/** Glob patterns over path segments, and brace alternatives. */
module Glob {
  import opened Options
  import opened Text

  /** `path.Match` on one segment: true for a match, false for none or a malformed pattern. */
  type SegmentMatch = (string, string) -> bool

  const DOUBLE_STAR: string := "**"

  /** Pattern segment `a` may cover the path's segments from `from` up to `to`: any number for `**`, else one, which it matches. */
  predicate Covered(m: SegmentMatch, pattern: seq<string>, a: nat, path: seq<string>, from: nat, to: nat) {
    && a < |pattern| && from <= to <= |path|
    && (pattern[a] != DOUBLE_STAR ==> to == from + 1 && m(pattern[a], path[from]))
  }

  /** `cuts` lays the pattern's segments from `p` over the path's from `q`: segment `p + i` covers those from `cuts[i]` up to `cuts[i + 1]`. */
  predicate Covers(m: SegmentMatch, pattern: seq<string>, p: nat, path: seq<string>, q: nat, cuts: seq<nat>) {
    && p <= |pattern| && q <= |path| && |cuts| == |pattern| - p + 1
    && cuts[0] == q && cuts[|cuts| - 1] == |path|
    && forall i :: 0 <= i < |cuts| - 1 ==> Covered(m, pattern, p + i, path, cuts[i], cuts[i + 1])
  }

  ghost predicate Matches(m: SegmentMatch, pattern: seq<string>, p: nat, path: seq<string>, q: nat) {
    exists cuts :: Covers(m, pattern, p, path, q, cuts)
  }

  lemma MatchesEnd(m: SegmentMatch, pattern: seq<string>, path: seq<string>, q: nat)
    requires q <= |path|
    ensures Matches(m, pattern, |pattern|, path, q) <==> q == |path|
  {
    if q == |path| { assert Covers(m, pattern, |pattern|, path, q, [q]); }
  }

  lemma MatchesOne(m: SegmentMatch, pattern: seq<string>, p: nat, path: seq<string>, q: nat)
    requires p < |pattern| && q <= |path| && pattern[p] != DOUBLE_STAR
    ensures Matches(m, pattern, p, path, q) <==> q < |path| && m(pattern[p], path[q]) && Matches(m, pattern, p + 1, path, q + 1)
  {
    if Matches(m, pattern, p, path, q) {
      var cuts :| Covers(m, pattern, p, path, q, cuts);
      CoversTail(m, pattern, p, path, q, cuts);
    }
    if q < |path| && m(pattern[p], path[q]) && Matches(m, pattern, p + 1, path, q + 1) {
      var cuts :| Covers(m, pattern, p + 1, path, q + 1, cuts);
      CoversCons(m, pattern, p, path, q, q + 1, cuts);
    }
  }

  lemma CoversTail(m: SegmentMatch, pattern: seq<string>, p: nat, path: seq<string>, q: nat, cuts: seq<nat>)
    requires Covers(m, pattern, p, path, q, cuts) && p < |pattern|
    ensures Covered(m, pattern, p, path, q, cuts[1]) && Covers(m, pattern, p + 1, path, cuts[1], cuts[1..])
  {
    var rest := cuts[1..];
    assert Covered(m, pattern, p + 0, path, cuts[0], cuts[1]);
    forall i | 0 <= i < |rest| - 1
      ensures Covered(m, pattern, p + 1 + i, path, rest[i], rest[i + 1])
    {
      assert Covered(m, pattern, p + (i + 1), path, cuts[i + 1], cuts[i + 1 + 1]);
    }
  }

  lemma CoversCons(m: SegmentMatch, pattern: seq<string>, p: nat, path: seq<string>, q: nat, next: nat, cuts: seq<nat>)
    requires Covers(m, pattern, p + 1, path, next, cuts) && Covered(m, pattern, p, path, q, next)
    ensures Matches(m, pattern, p, path, q)
  {
    var all := [q] + cuts;
    forall i | 0 <= i < |all| - 1
      ensures Covered(m, pattern, p + i, path, all[i], all[i + 1])
    {
      if i > 0 { assert Covered(m, pattern, p + 1 + (i - 1), path, cuts[i - 1], cuts[i - 1 + 1]); }
    }
    assert Covers(m, pattern, p, path, q, all);
  }

  lemma MatchesStar(m: SegmentMatch, pattern: seq<string>, p: nat, below: nat, path: seq<string>, q: nat)
    requires p < |pattern| && q <= |path| && pattern[p] == DOUBLE_STAR && below == p + 1
    ensures Matches(m, pattern, p, path, q) <==> exists next :: q <= next <= |path| && Matches(m, pattern, below, path, next)
  {
    if Matches(m, pattern, p, path, q) {
      var cuts :| Covers(m, pattern, p, path, q, cuts);
      CoversTail(m, pattern, p, path, q, cuts);
      assert Matches(m, pattern, below, path, cuts[1]);
    }
    if next :| q <= next <= |path| && Matches(m, pattern, below, path, next) {
      var cuts :| Covers(m, pattern, below, path, next, cuts);
      CoversCons(m, pattern, p, path, q, next, cuts);
    }
  }

  /** The inner function of `daemonMatchGlobSegments`: a loop over plain segments, a recursive call below each `**`. */
  method MatchFrom(m: SegmentMatch, pattern: seq<string>, patternStart: nat, path: seq<string>, pathStart: nat) returns (r: bool)
    requires patternStart <= |pattern| && pathStart <= |path|
    ensures r <==> Matches(m, pattern, patternStart, path, pathStart)
    decreases |pattern| - patternStart
  {
    hide Matches;
    var p, q := patternStart, pathStart;
    while p < |pattern|
      invariant patternStart <= p <= |pattern| && 0 <= q <= |path|
      invariant Matches(m, pattern, patternStart, path, pathStart) <==> Matches(m, pattern, p, path, q)
    {
      if pattern[p] == DOUBLE_STAR {
        var below := p + 1;
        MatchesStar(m, pattern, p, below, path, q);
        if p == |pattern| - 1 {
          MatchesEnd(m, pattern, path, |path|);
          return true;
        }
        for next := q to |path| + 1
          invariant forall k :: q <= k < next ==> !Matches(m, pattern, below, path, k)
        {
          r := MatchFrom(m, pattern, below, path, next);
          if r { return; }
        }
        return false;
      }
      MatchesOne(m, pattern, p, path, q);
      if q >= |path| || !m(pattern[p], path[q]) { return false; }
      p, q := p + 1, q + 1;
    }
    MatchesEnd(m, pattern, path, q);
    r := q == |path|;
  }

  /** `daemonMatchGlobSegments`. */
  method MatchGlobSegments(m: SegmentMatch, pattern: seq<string>, path: seq<string>) returns (r: bool)
    ensures r <==> Matches(m, pattern, 0, path, 0)
  {
    r := MatchFrom(m, pattern, 0, path, 0);
  }
}
