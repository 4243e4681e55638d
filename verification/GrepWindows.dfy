/** Which lines of a file a content search shows, and where its groups begin. */
module GrepWindows {
  import opened Options

  /** One output line: the group separator, or a line of the file, matching or context. */
  datatype Item = Separator | Line(index: nat, isMatch: bool)

  datatype Context = Context(before: nat, after: nat)

  /** Line `k` lies in the window of match `m`. */
  predicate InWindow(c: Context, m: int, k: int) { m - c.before <= k <= m + c.after }

  /** Line `k` is within the context of some match. */
  ghost predicate Shown(matched: seq<bool>, c: Context, k: int) {
    exists m :: 0 <= m < |matched| && matched[m] && InWindow(c, m, k)
  }

  /** Some line before `k` is shown. */
  ghost predicate ShownBefore(matched: seq<bool>, c: Context, k: int) {
    exists j :: 0 <= j < k && Shown(matched, c, j)
  }

  /** What line `k` adds: itself if shown, after a separator if it opens a group that is not the first. */
  ghost function ItemsAt(matched: seq<bool>, c: Context, k: nat): seq<Item>
    requires k < |matched|
  {
    if !Shown(matched, c, k) then []
    else (if ShownBefore(matched, c, k) && !Shown(matched, c, k - 1) then [Separator] else []) + [Line(k, matched[k])]
  }

  /** The output for the first `n` lines. */
  ghost function ItemsUpTo(matched: seq<bool>, c: Context, n: nat): seq<Item>
    requires n <= |matched|
  {
    if n == 0 then [] else ItemsUpTo(matched, c, n - 1) + ItemsAt(matched, c, n - 1)
  }

  /** The output for a whole file: every line within the context of a match, in order, a separator between groups with lines left out between them. */
  ghost function Items(matched: seq<bool>, c: Context): seq<Item> { ItemsUpTo(matched, c, |matched|) }

  /** Two match lists that show the same of the first lines give the same output for them. */
  lemma {:induction false} SameItems(some: seq<bool>, other: seq<bool>, c: Context, n: nat)
    requires n <= |some| && n <= |other| && forall k :: 0 <= k < n ==> some[k] == other[k] && (Shown(some, c, k) <==> Shown(other, c, k))
    ensures ItemsUpTo(some, c, n) == ItemsUpTo(other, c, n)
  {
    hide Shown;
    if n > 0 { SameItems(some, other, c, n - 1); }
  }

  /** Lines that are not shown add nothing. */
  lemma {:induction false} NothingShown(matched: seq<bool>, c: Context, first: nat, stop: nat)
    requires first <= stop <= |matched| && forall k :: first <= k < stop ==> !Shown(matched, c, k)
    ensures ItemsUpTo(matched, c, stop) == ItemsUpTo(matched, c, first)
    decreases stop
  {
    hide Shown;
    if first < stop { NothingShown(matched, c, first, stop - 1); }
  }

  function Run(matched: seq<bool>, first: nat, stop: nat): seq<Item>
    requires first <= stop <= |matched|
    decreases stop
  {
    if first == stop then [] else Run(matched, first, stop - 1) + [Line(stop - 1, matched[stop - 1])]
  }

  /** A stretch of shown lines: one separator at most, then every line of it. */
  lemma {:induction false} AllShown(matched: seq<bool>, c: Context, first: nat, stop: nat)
    requires first < stop <= |matched| && forall k :: first <= k < stop ==> Shown(matched, c, k)
    ensures ItemsUpTo(matched, c, stop) ==
              ItemsUpTo(matched, c, first)
              + (if ShownBefore(matched, c, first) && !Shown(matched, c, first - 1) then [Separator] else []) + Run(matched, first, stop)
    decreases stop
  {
    hide Shown, ShownBefore, ItemsUpTo, Run, ItemsAt;
    if first + 1 < stop {
      AllShown(matched, c, first, stop - 1);
      RunExtends(matched, c, first, stop, if ShownBefore(matched, c, first) && !Shown(matched, c, first - 1) then [Separator] else []);
    } else {
      OneShown(matched, c, first);
    }
  }

  lemma OneShown(matched: seq<bool>, c: Context, k: nat)
    requires k < |matched| && Shown(matched, c, k)
    ensures ItemsUpTo(matched, c, k + 1) ==
              ItemsUpTo(matched, c, k)
              + (if ShownBefore(matched, c, k) && !Shown(matched, c, k - 1) then [Separator] else []) + Run(matched, k, k + 1)
  {
    hide Shown, ShownBefore;
    assert Run(matched, k, k) == [];
    assert Run(matched, k, k + 1) == [Line(k, matched[k])];
  }

  lemma RunExtends(matched: seq<bool>, c: Context, first: nat, stop: nat, opening: seq<Item>)
    requires first < stop - 1 < |matched| && Shown(matched, c, stop - 1) && Shown(matched, c, stop - 2)
    requires ItemsUpTo(matched, c, stop - 1) == ItemsUpTo(matched, c, first) + opening + Run(matched, first, stop - 1)
    ensures ItemsUpTo(matched, c, stop) == ItemsUpTo(matched, c, first) + opening + Run(matched, first, stop)
  {
    hide Shown, ShownBefore;
    var line := [Line(stop - 1, matched[stop - 1])];
    assert ItemsAt(matched, c, stop - 1) == line;
    assert Run(matched, first, stop) == Run(matched, first, stop - 1) + line;
    assert ItemsUpTo(matched, c, stop) == ItemsUpTo(matched, c, stop - 1) + line;
  }

  /** One more line, not a match: the windows of the earlier lines are as they were. */
  lemma ShownPlain(matched: seq<bool>, c: Context, k: int)
    ensures Shown(matched + [false], c, k) <==> Shown(matched, c, k)
  {
    var more := matched + [false];
    assert forall m :: 0 <= m < |matched| ==> more[m] == matched[m];
    if Shown(matched, c, k) {
      var m :| 0 <= m < |matched| && matched[m] && InWindow(c, m, k);
      assert more[m];
    }
  }

  /** One more line, a match: its own window is added. */
  lemma ShownMatch(matched: seq<bool>, c: Context, k: int)
    ensures Shown(matched + [true], c, k) <==> Shown(matched, c, k) || InWindow(c, |matched|, k)
  {
    var more := matched + [true];
    assert forall m :: 0 <= m < |matched| ==> more[m] == matched[m];
    if Shown(matched, c, k) {
      var m :| 0 <= m < |matched| && matched[m] && InWindow(c, m, k);
      assert more[m];
    }
    if InWindow(c, |matched|, k) { assert more[|matched|]; }
  }

  /** How far the windows reach: `end` is the last line of the last window, -1 before any match. */
  ghost predicate Reach(matched: seq<bool>, c: Context, end: int) {
    if end < 0 then forall m :: 0 <= m < |matched| ==> !matched[m]
    else
      exists last :: 0 <= last < |matched| && matched[last] && end == last + c.after
                     && forall m :: last < m < |matched| ==> !matched[m]
  }

  /** Nothing is shown past the reach, and up to it nothing is left out that a new match's window would show again. */
  lemma ReachFacts(matched: seq<bool>, c: Context, end: int, k: int)
    requires Reach(matched, c, end)
    ensures k > end && k >= 0 ==> !Shown(matched, c, k)
    ensures end >= 0 && 0 <= k <= end && k >= |matched| - c.before ==> Shown(matched, c, k)
  {
    if end >= 0 {
      var last :| 0 <= last < |matched| && matched[last] && end == last + c.after && forall m :: last < m < |matched| ==> !matched[m];
      if 0 <= k <= end && k >= |matched| - c.before { assert InWindow(c, last, k); }
    }
  }

  /** The lines from the end of the last match's window back to the match are shown. */
  lemma ReachShown(matched: seq<bool>, c: Context, end: int)
    requires Reach(matched, c, end) && end >= 0
    ensures Shown(matched, c, end) && (|matched| - 1 <= end ==> Shown(matched, c, |matched| - 1))
  {
    var last :| 0 <= last < |matched| && matched[last] && end == last + c.after && forall m :: last < m < |matched| ==> !matched[m];
    assert InWindow(c, last, end);
    if |matched| - 1 <= end { assert InWindow(c, last, |matched| - 1); }
  }

  /** The line after the last one shown so far. */
  function Next(matched: seq<bool>, end: int): nat {
    if end < 0 then 0 else if end + 1 < |matched| then end + 1 else |matched|
  }

  lemma ReachPlain(matched: seq<bool>, c: Context, end: int)
    requires Reach(matched, c, end)
    ensures Reach(matched + [false], c, end)
  {
    var more := matched + [false];
    assert forall m :: 0 <= m < |matched| ==> more[m] == matched[m];
    if end >= 0 {
      var last :| 0 <= last < |matched| && matched[last] && end == last + c.after && forall m :: last < m < |matched| ==> !matched[m];
      assert more[last];
    }
  }

  lemma ReachMatch(matched: seq<bool>, c: Context)
    ensures Reach(matched + [true], c, |matched| + c.after)
  {
    assert (matched + [true])[|matched|];
  }

  /** A line that does not match is shown if a window reaches it. */
  lemma PlainNext(matched: seq<bool>, c: Context, end: int)
    requires Reach(matched, c, end)
    ensures Items(matched + [false], c) == Items(matched, c) + if |matched| <= end then [Line(|matched|, false)] else []
  {
    hide Shown, Reach;
    var n, more := |matched|, matched + [false];
    forall k
      ensures Shown(more, c, k) <==> Shown(matched, c, k)
    {
      ShownPlain(matched, c, k);
    }
    SameItems(matched, more, c, n);
    ReachFacts(matched, c, end, n);
    if n <= end {
      ReachShown(matched, c, end);
      ReachFacts(matched, c, end, n);
    }
  }

  /** Where the context of a match in the next line starts, and where that shows something new. */
  function StartOf(n: nat, c: Context): nat { if n < c.before then 0 else n - c.before }

  function FirstNew(matched: seq<bool>, c: Context, end: int): nat {
    var start, next := StartOf(|matched|, c), Next(matched, end);
    if start < next then next else start
  }

  /** A new match changes nothing up to the last line shown, and shows a stretch that ends with it. */
  lemma MatchShown(matched: seq<bool>, c: Context, end: int)
    requires Reach(matched, c, end)
    ensures var n, more, next, first := |matched|, matched + [true], Next(matched, end), FirstNew(matched, c, end);
            && next <= first <= n
            && (forall k :: 0 <= k < next ==> (Shown(more, c, k) <==> Shown(matched, c, k)))
            && (forall k :: next <= k < n ==> !Shown(matched, c, k))
            && (forall k :: next <= k < first ==> !Shown(more, c, k))
            && (forall k :: first <= k <= n ==> Shown(more, c, k))
            && (end >= 0 ==> n > 0 && Shown(more, c, next - 1))
  {
    hide Shown, Reach;
    var n, more := |matched|, matched + [true];
    forall k
      ensures Shown(more, c, k) <==> Shown(matched, c, k) || InWindow(c, n, k)
    {
      ShownMatch(matched, c, k);
    }
    forall k | 0 <= k < n
      ensures k > end ==> !Shown(matched, c, k)
      ensures k <= end && k >= n - c.before ==> Shown(matched, c, k)
    {
      ReachFacts(matched, c, end, k);
    }
    if end >= 0 {
      ReachShown(matched, c, end);
      ReachNonEmpty(matched, c, end);
    }
  }

  lemma ReachNonEmpty(matched: seq<bool>, c: Context, end: int)
    requires Reach(matched, c, end) && end >= 0
    ensures |matched| > 0
  {
  }

  /** A line that matches is shown with the lines before it that are not shown yet, after a separator if lines are left out. */
  lemma MatchNext(matched: seq<bool>, c: Context, end: int)
    requires Reach(matched, c, end)
    ensures FirstNew(matched, c, end) <= |matched|
    ensures Items(matched + [true], c) ==
              Items(matched, c) + (if end >= 0 && StartOf(|matched|, c) > end + 1 then [Separator] else [])
              + Run(matched + [true], FirstNew(matched, c, end), |matched| + 1)
  {
    hide Shown, Reach, ShownBefore, ItemsUpTo, Run, Next, FirstNew, StartOf;
    var n, more, next, first := |matched|, matched + [true], Next(matched, end), FirstNew(matched, c, end);
    MatchShown(matched, c, end);
    SameItems(matched, more, c, next);
    NothingShown(matched, c, next, n);
    NothingShown(more, c, next, first);
    AllShown(more, c, first, n + 1);
    GroupOpens(matched, c, end);
  }

  lemma GroupOpens(matched: seq<bool>, c: Context, end: int)
    requires Reach(matched, c, end)
    ensures var first := FirstNew(matched, c, end);
            ShownBefore(matched + [true], c, first) && !Shown(matched + [true], c, first - 1) <==> end >= 0 && StartOf(|matched|, c) > end + 1
  {
    hide Shown, Reach, ShownBefore;
    MatchShown(matched, c, end);
    NoneBefore(matched + [true], c, end, Next(matched, end), FirstNew(matched, c, end));
    OpensGroup(matched, matched + [true], c, end, StartOf(|matched|, c), FirstNew(matched, c, end));
  }

  lemma NoneBefore(more: seq<bool>, c: Context, end: int, next: nat, first: nat)
    requires end < 0 ==> next == 0
    requires forall k :: next <= k < first ==> !Shown(more, c, k)
    ensures end < 0 ==> forall k :: 0 <= k < first ==> !Shown(more, c, k)
  {
    hide Shown;
  }

  lemma OpensGroup(matched: seq<bool>, more: seq<bool>, c: Context, end: int, start: nat, first: nat)
    requires var n, next := |matched|, Next(matched, end);
             && start <= n && first == (if start < next then next else start)
             && (forall k :: next <= k < first ==> !Shown(more, c, k))
             && (end < 0 ==> forall k :: 0 <= k < first ==> !Shown(more, c, k))
             && (end >= 0 && n > 0 ==> Shown(more, c, next - 1))
             && (end >= 0 ==> n > 0)
    ensures ShownBefore(more, c, first) && !Shown(more, c, first - 1) <==> end >= 0 && start > end + 1
  {
    hide Shown;
  }
}
