/** The other content rendering: sort the windows of all matches, merge them, print them. */
module GrepBatch {
  import opened Options
  import opened GrepWindows
  import opened GrepCollector
  import opened GrepStream

  datatype Window = Window(start: nat, end: nat)

  predicate Within(w: Window, k: nat) { w.start <= k <= w.end }

  ghost predicate Covered(ws: seq<Window>, k: nat) {
    exists j :: 0 <= j < |ws| && Within(ws[j], k)
  }

  function WindowOf(m: nat, c: Context, n: nat): Window {
    Window(StartOf(m, c), if m + c.after < n then m + c.after else if n > 0 then n - 1 else 0)
  }

  /** The matches of a file, in whatever order the set yields them. */
  ghost predicate Lists(matches: seq<nat>, matched: seq<bool>) {
    forall m: nat :: m in matches <==> m < |matched| && matched[m]
  }

  predicate SortedUpTo(ws: seq<Window>, n: nat) {
    n <= |ws| && forall a, b :: 0 <= a < b < n ==> ws[a].start <= ws[b].start
  }

  /** The windows up to `i` are in order but for the one at `j`, which is too far right at most. */
  predicate Inserting(ws: seq<Window>, i: nat, j: nat) {
    && j <= i < |ws|
    && (forall a, b :: 0 <= a < b <= i && a != j && b != j ==> ws[a].start <= ws[b].start)
    && (forall b :: j < b <= i ==> ws[j].start <= ws[b].start)
  }

  function Swapped(ws: seq<Window>, j: nat): seq<Window>
    requires 0 < j < |ws|
  {
    ws[j := ws[j - 1]][j - 1 := ws[j]]
  }

  lemma SwapKeeps(ws: seq<Window>, i: nat, j: nat)
    requires Inserting(ws, i, j) && j > 0 && ws[j].start < ws[j - 1].start
    ensures Inserting(Swapped(ws, j), i, j - 1) && multiset(Swapped(ws, j)) == multiset(ws)
  {
  }

  /** The insertion sort by start. */
  method SortWindows(input: seq<Window>) returns (ws: seq<Window>)
    ensures SortedUpTo(ws, |ws|) && multiset(ws) == multiset(input)
  {
    ws := input;
    for i := 1 to if |ws| < 1 then 1 else |ws|
      invariant |ws| == |input| && multiset(ws) == multiset(input) && (|ws| == 0 || SortedUpTo(ws, i))
    {
      var j := i;
      while j > 0 && ws[j].start < ws[j - 1].start
        invariant |ws| == |input| && multiset(ws) == multiset(input) && 0 <= j && Inserting(ws, i, j)
      {
        SwapKeeps(ws, i, j);
        ws := Swapped(ws, j);
        j := j - 1;
      }
      Inserted(ws, i, j);
    }
  }

  lemma Inserted(ws: seq<Window>, i: nat, j: nat)
    requires Inserting(ws, i, j) && (j == 0 || ws[j - 1].start <= ws[j].start)
    ensures SortedUpTo(ws, i + 1)
  {
    forall a, b | 0 <= a < b < i + 1
      ensures ws[a].start <= ws[b].start
    {
      if b == j && a < j - 1 { assert ws[a].start <= ws[j - 1].start; }
    }
  }

  lemma SameCovered(some: seq<Window>, other: seq<Window>, k: nat)
    requires multiset(some) == multiset(other)
    ensures Covered(some, k) <==> Covered(other, k)
  {
    assert forall w :: w in some <==> w in multiset(some);
    assert forall w :: w in other <==> w in multiset(other);
    if Covered(some, k) {
      var j :| 0 <= j < |some| && Within(some[j], k);
      assert some[j] in other;
    }
    if Covered(other, k) {
      var j :| 0 <= j < |other| && Within(other[j], k);
      assert other[j] in some;
    }
  }

  /** Non-empty windows in order, with at least one line left out between one and the next. */
  ghost predicate Merged(ws: seq<Window>) {
    && (forall a :: 0 <= a < |ws| ==> ws[a].start <= ws[a].end)
    && (forall a, b :: 0 <= a < b < |ws| ==> ws[a].end + 1 < ws[b].start)
  }

  lemma MergeAppends(merged: seq<Window>, w: Window, done: seq<Window>)
    requires Merged(merged) && w.start <= w.end && (merged != [] ==> w.start > merged[|merged| - 1].end + 1)
    requires forall k :: Covered(merged, k) <==> Covered(done, k)
    ensures Merged(merged + [w]) && forall k :: Covered(merged + [w], k) <==> Covered(done + [w], k)
  {
    forall k
      ensures Covered(merged + [w], k) <==> Covered(merged, k) || Within(w, k)
      ensures Covered(done + [w], k) <==> Covered(done, k) || Within(w, k)
    {
      CoveredNext(merged, w, k);
      CoveredNext(done, w, k);
    }
  }

  lemma CoveredNext(ws: seq<Window>, w: Window, k: nat)
    ensures Covered(ws + [w], k) <==> Covered(ws, k) || Within(w, k)
  {
    var more := ws + [w];
    if Covered(ws, k) {
      var j :| 0 <= j < |ws| && Within(ws[j], k);
      assert Within(more[j], k);
    }
    if Within(w, k) { assert Within(more[|ws|], k); }
  }

  /** A window that touches the last merged one is absorbed by it. */
  lemma MergeAbsorbs(merged: seq<Window>, w: Window, done: seq<Window>)
    requires Merged(merged) && merged != [] && w.start <= w.end && w.start <= merged[|merged| - 1].end + 1
    requires merged[|merged| - 1].start <= w.start
    requires forall k :: Covered(merged, k) <==> Covered(done, k)
    ensures var n := |merged| - 1;
            var wider := merged[..n] + [Window(merged[n].start, if w.end > merged[n].end then w.end else merged[n].end)];
            Merged(wider) && forall k :: Covered(wider, k) <==> Covered(done + [w], k)
  {
    var n := |merged| - 1;
    var last := Window(merged[n].start, if w.end > merged[n].end then w.end else merged[n].end);
    assert merged == merged[..n] + [merged[n]];
    forall k
      ensures Covered(merged[..n] + [last], k) <==> Covered(done + [w], k)
    {
      CoveredNext(merged[..n], last, k);
      CoveredNext(merged[..n], merged[n], k);
      CoveredNext(done, w, k);
    }
  }

  /** The merge loop. */
  method MergeWindows(windows: seq<Window>) returns (merged: seq<Window>)
    requires SortedUpTo(windows, |windows|) && forall j :: 0 <= j < |windows| ==> windows[j].start <= windows[j].end
    ensures Merged(merged) && forall k :: Covered(merged, k) <==> Covered(windows, k)
  {
    hide Covered, Merged;
    merged := [];
    MergedNothing();
    for i := 0 to |windows|
      invariant Merged(merged) && forall k :: Covered(merged, k) <==> Covered(windows[..i], k)
      invariant merged != [] ==> forall j :: i <= j < |windows| ==> merged[|merged| - 1].start <= windows[j].start
    {
      var w := windows[i];
      assert windows[..i + 1] == windows[..i] + [w];
      if |merged| == 0 || w.start > merged[|merged| - 1].end + 1 {
        MergeAppends(merged, w, windows[..i]);
        merged := merged + [w];
      } else {
        MergeAbsorbs(merged, w, windows[..i]);
        var n := |merged| - 1;
        if w.end > merged[n].end {
          merged := merged[n := merged[n].(end := w.end)];
        }
        assert merged == merged[..n] + [merged[n]];
      }
    }
    assert windows[..|windows|] == windows;
  }

  lemma MergedNothing()
    ensures Merged([]) && forall k :: !Covered([], k)
  {
  }

  /** The merged windows cover exactly the lines shown. */
  ghost predicate CoversShown(merged: seq<Window>, matched: seq<bool>, c: Context) {
    && Merged(merged) && (forall a :: 0 <= a < |merged| ==> merged[a].end < |matched|)
    && forall k: nat :: k < |matched| ==> (Covered(merged, k) <==> Shown(matched, c, k))
  }

  /** The lines up to the end of the first `index` merged windows. */
  function EndOf(merged: seq<Window>, index: nat): nat
    requires index <= |merged|
  {
    if index == 0 then 0 else merged[index - 1].end + 1
  }

  lemma GapUncovered(merged: seq<Window>, index: nat, k: nat)
    requires Merged(merged) && index <= |merged| && EndOf(merged, index) <= k && (index < |merged| ==> k < merged[index].start)
    ensures !Covered(merged, k)
  {
    forall j | 0 <= j < |merged|
      ensures !Within(merged[j], k)
    {
      if j < index - 1 { assert merged[j].end + 1 < merged[index - 1].start; }
      if index < j { assert merged[index].end + 1 < merged[j].start; }
    }
  }

  /** One merged window: its separator, unless it is the first, and its lines. */
  lemma WindowItems(merged: seq<Window>, matched: seq<bool>, c: Context, index: nat)
    requires CoversShown(merged, matched, c) && index < |merged|
    ensures var w := merged[index];
            && EndOf(merged, index) <= w.start <= w.end < |matched|
            && ItemsUpTo(matched, c, w.end + 1) ==
                 ItemsUpTo(matched, c, EndOf(merged, index)) + (if index > 0 then [Separator] else []) + Run(matched, w.start, w.end + 1)
  {
    hide Shown, Run, ItemsUpTo;
    var w := merged[index];
    if index > 0 { assert merged[index - 1].end + 1 < w.start; }
    forall k | EndOf(merged, index) <= k < w.start
      ensures !Shown(matched, c, k)
    {
      GapUncovered(merged, index, k);
    }
    forall k | w.start <= k < w.end + 1
      ensures Shown(matched, c, k)
    {
      assert Within(merged[index], k);
    }
    NothingShown(matched, c, EndOf(merged, index), w.start);
    AllShown(matched, c, w.start, w.end + 1);
    if index > 0 {
      assert Within(merged[index - 1], merged[index - 1].start);
      assert Shown(matched, c, merged[index - 1].start);
    }
  }

  lemma {:induction false} WholeNext(lines: seq<string>, line: string)
    ensures Whole(lines + [line]) == Whole(lines) + line + "\n"
  {
    if lines == [] {
      assert [line][1..] == [];
    } else {
      WholeNext(lines[1..], line);
      assert (lines + [line])[1..] == lines[1..] + [line];
      assert lines[0] + "\n" + (Whole(lines[1..]) + line + "\n") == lines[0] + "\n" + Whole(lines[1..]) + line + "\n";
    }
  }

  lemma RenderNext(f: File, items: seq<Item>, item: Item)
    ensures Whole(RenderItems(f, items + [item])) == Whole(RenderItems(f, items)) + RenderItem(f, item) + "\n"
  {
    RenderConcat(f, items, [item]);
    assert RenderItems(f, [item]) == [RenderItem(f, item)];
    WholeNext(RenderItems(f, items), RenderItem(f, item));
  }

  /** Prints one window. */
  method PrintWindow(f: File, w: Window, out: string, ghost done: seq<Item>) returns (after: string)
    requires w.start <= w.end < |f.lines| == |f.matched| && out == Whole(RenderItems(f, done))
    ensures after == Whole(RenderItems(f, done + Run(f.matched, w.start, w.end + 1)))
  {
    hide Whole, RenderItems;
    after := out;
    assert done + Run(f.matched, w.start, w.start) == done;
    for lineIndex := w.start to w.end + 1
      invariant after == Whole(RenderItems(f, done + Run(f.matched, w.start, lineIndex)))
    {
      ghost var items := done + Run(f.matched, w.start, lineIndex);
      RenderNext(f, items, Line(lineIndex, f.matched[lineIndex]));
      RunLast(f.matched, w.start, lineIndex);
      assert done + Run(f.matched, w.start, lineIndex + 1) == items + [Line(lineIndex, f.matched[lineIndex])];
      after := after + RenderLine(f, lineIndex, f.matched[lineIndex], f.lines[lineIndex]) + "\n";
    }
  }

  /** The windows of all matches, in the order of the set. */
  method MatchWindows(f: File, matches: seq<nat>, c: Context) returns (windows: seq<Window>)
    requires |f.lines| == |f.matched| && Lists(matches, f.matched)
    ensures |windows| == |matches| && forall j :: 0 <= j < |windows| ==> windows[j] == WindowOf(matches[j], c, |f.lines|)
  {
    windows := [];
    for i := 0 to |matches|
      invariant |windows| == i && forall j :: 0 <= j < i ==> windows[j] == WindowOf(matches[j], c, |f.lines|)
    {
      var m := matches[i];
      assert m in matches;
      var start := if m < c.before then 0 else m - c.before;
      var end := m + c.after;
      if end >= |f.lines| { end := |f.lines| - 1; }
      windows := windows + [Window(start, end)];
    }
  }

  lemma WindowsShow(windows: seq<Window>, matches: seq<nat>, matched: seq<bool>, c: Context, k: nat)
    requires Lists(matches, matched) && |windows| == |matches| && k < |matched|
    requires forall j :: 0 <= j < |windows| ==> windows[j] == WindowOf(matches[j], c, |matched|)
    ensures Covered(windows, k) <==> Shown(matched, c, k)
  {
    if Covered(windows, k) {
      var j :| 0 <= j < |windows| && Within(windows[j], k);
      assert matches[j] in matches && InWindow(c, matches[j], k);
    }
    if Shown(matched, c, k) {
      var m :| 0 <= m < |matched| && matched[m] && InWindow(c, m, k);
      assert m as nat in matches;
      var j :| 0 <= j < |matches| && matches[j] == m;
      assert Within(windows[j], k);
    }
  }

  lemma WindowsBounded(windows: seq<Window>, matches: seq<nat>, matched: seq<bool>, c: Context)
    requires Lists(matches, matched) && |windows| == |matches|
    requires forall j :: 0 <= j < |windows| ==> windows[j] == WindowOf(matches[j], c, |matched|)
    ensures forall w :: w in windows ==> w.start <= w.end < |matched|
  {
    forall j | 0 <= j < |windows|
      ensures windows[j].start <= windows[j].end < |matched|
    {
      assert matches[j] in matches;
    }
  }

  lemma MergedBounded(merged: seq<Window>, windows: seq<Window>, n: nat)
    requires Merged(merged) && (forall k :: Covered(merged, k) <==> Covered(windows, k)) && forall w :: w in windows ==> w.end < n
    ensures forall a :: 0 <= a < |merged| ==> merged[a].end < n
  {
    forall a | 0 <= a < |merged|
      ensures merged[a].end < n
    {
      assert Within(merged[a], merged[a].end);
      assert Covered(windows, merged[a].end);
      var j :| 0 <= j < |windows| && Within(windows[j], merged[a].end);
    }
  }

  /** The sorted and merged windows of the matches cover exactly the lines shown. */
  method PlanWindows(f: File, matches: seq<nat>, c: Context) returns (merged: seq<Window>)
    requires |f.lines| == |f.matched| && Lists(matches, f.matched)
    ensures CoversShown(merged, f.matched, c)
  {
    hide Covered, Merged, Shown, Lists, WindowOf;
    var windows := MatchWindows(f, matches, c);
    WindowsBounded(windows, matches, f.matched, c);
    var sorted := SortWindows(windows);
    assert forall w :: w in sorted ==> w in multiset(sorted);
    assert forall w :: w in multiset(windows) ==> w in windows;
    merged := MergeWindows(sorted);
    MergedBounded(merged, sorted, |f.matched|);
    forall k: nat | k < |f.matched|
      ensures Covered(merged, k) <==> Shown(f.matched, c, k)
    {
      SameCovered(sorted, windows, k);
      WindowsShow(windows, matches, f.matched, c, k);
    }
  }

  /** `daemonRenderGrepContent`, for context sizes that are not negative: the same items, whatever order the matches come in. */
  method RenderGrepContent(f: File, matches: seq<nat>, c: Context) returns (out: string)
    requires |f.lines| == |f.matched| && Lists(matches, f.matched)
    ensures out == Whole(RenderItems(f, Items(f.matched, c)))
  {
    hide CoversShown, Shown, Covered, Merged, Whole, RenderItems, Lists, Run, ItemsUpTo;
    var merged := PlanWindows(f, matches, c);
    out := "";
    NothingPrinted(f, c);
    for index := 0 to |merged|
      invariant EndOf(merged, index) <= |f.matched|
      invariant out == Whole(RenderItems(f, ItemsUpTo(f.matched, c, EndOf(merged, index))))
    {
      WindowItems(merged, f.matched, c, index);
      ghost var done := ItemsUpTo(f.matched, c, EndOf(merged, index));
      assert done + [] == done;
      if index > 0 {
        RenderNext(f, done, Separator);
        out := out + "--\n";
        done := done + [Separator];
      }
      out := PrintWindow(f, merged[index], out, done);
    }
    RestUnshown(merged, f.matched, c);
  }

  lemma NothingPrinted(f: File, c: Context)
    ensures Whole(RenderItems(f, ItemsUpTo(f.matched, c, 0))) == ""
  {
    assert RenderItems(f, []) == [];
  }

  lemma RestUnshown(merged: seq<Window>, matched: seq<bool>, c: Context)
    requires CoversShown(merged, matched, c)
    ensures EndOf(merged, |merged|) <= |matched| && Items(matched, c) == ItemsUpTo(matched, c, EndOf(merged, |merged|))
  {
    hide Shown, Covered;
    forall k | EndOf(merged, |merged|) <= k < |matched|
      ensures !Shown(matched, c, k)
    {
      GapUncovered(merged, |merged|, k);
    }
    NothingShown(matched, c, EndOf(merged, |merged|), |matched|);
  }
}
