/** What rewriting does to a file's lines, whatever the hunks. */
module PatchHunkLaws {
  import opened Options
  import opened PatchHunks

  /** The texts of the hunk's lines of one kind, with their number. */
  function Texts(lines: seq<HunkLine>, op: LineOp): multiset<string> {
    if lines == [] then multiset{} else
      var last := lines[|lines| - 1];
      Texts(lines[..|lines| - 1], op) + (if last.op == op then multiset{last.text} else multiset{})
  }

  /** The texts of one kind over the first `n` hunks. */
  function AllTexts(hunks: seq<Hunk>, n: nat, op: LineOp): multiset<string>
    requires n <= |hunks|
  {
    if n == 0 then multiset{} else AllTexts(hunks, n - 1, op) + Texts(hunks[n - 1].lines, op)
  }

  lemma HunkMultisets(lines: seq<HunkLine>)
    ensures multiset(Olds(lines)) == Texts(lines, Keep) + Texts(lines, Remove)
    ensures multiset(News(lines)) == Texts(lines, Keep) + Texts(lines, Insert)
  {
    OldsMultiset(lines);
    NewsMultiset(lines);
  }

  lemma {:induction false} OldsMultiset(lines: seq<HunkLine>)
    ensures multiset(Olds(lines)) == Texts(lines, Keep) + Texts(lines, Remove)
    decreases |lines|
  {
    if lines != [] {
      OldsMultiset(lines[..|lines| - 1]);
      var last := lines[|lines| - 1];
      assert last.op.Keep? || last.op.Remove? || last.op.Insert?;
    }
  }

  lemma {:induction false} NewsMultiset(lines: seq<HunkLine>)
    ensures multiset(News(lines)) == Texts(lines, Keep) + Texts(lines, Insert)
    decreases |lines|
  {
    if lines != [] {
      NewsMultiset(lines[..|lines| - 1]);
      var last := lines[|lines| - 1];
      assert last.op.Keep? || last.op.Remove? || last.op.Insert?;
    }
  }

  predicate ContextOnly(hunks: seq<Hunk>) {
    forall j, k :: 0 <= j < |hunks| && 0 <= k < |hunks[j].lines| ==> hunks[j].lines[k].op.Keep?
  }

  lemma {:induction false} KeepsOnly(lines: seq<HunkLine>)
    requires forall k :: 0 <= k < |lines| ==> lines[k].op.Keep?
    ensures Olds(lines) == News(lines)
    decreases |lines|
  {
    if lines != [] { KeepsOnly(lines[..|lines| - 1]); }
  }

  /** In-order segments, each holding what its hunk expects. */
  ghost predicate Segments(lines: seq<string>, hunks: seq<Hunk>, places: seq<nat>) {
    && Ordered(hunks, places, |lines|)
    && forall j :: 0 <= j < |places| ==> SegmentAt(lines, hunks[j], places[j])
  }

  predicate SegmentAt(lines: seq<string>, hunk: Hunk, i: nat) {
    i + |Olds(hunk.lines)| <= |lines| && lines[i..i + |Olds(hunk.lines)|] == Olds(hunk.lines)
  }

  lemma PlacedSegments(lines: seq<string>, hunks: seq<Hunk>, places: seq<nat>)
    requires Placed(lines, hunks, places)
    ensures Segments(lines, hunks, places)
  {
    hide Olds, LeastAllowed;
    PlacedIsOrdered(lines, hunks, places);
    forall j | 0 <= j < |places|
      ensures SegmentAt(lines, hunks[j], places[j])
    {
      LeastIsAllowed(lines, hunks[j], CursorAt(hunks, places, j), places[j]);
    }
  }

  lemma OrderedAt(hunks: seq<Hunk>, places: seq<nat>, limit: nat, j: nat)
    requires Ordered(hunks, places, limit) && j < |places|
    ensures j < |places| <= |hunks| && CursorAt(hunks, places, j) <= places[j]
  {
  }

  lemma {:induction false} EndsBefore(hunks: seq<Hunk>, places: seq<nat>, limit: nat, j: nat, k: nat)
    requires Ordered(hunks, places, limit) && j < k <= |places|
    ensures places[j] + |Olds(hunks[j].lines)| <= CursorAt(hunks, places, k)
    decreases k
  {
    hide Olds, Ordered;
    if j + 1 < k {
      EndsBefore(hunks, places, limit, j, k - 1);
      OrderedAt(hunks, places, limit, k - 1);
    } else {
      OrderedAt(hunks, places, limit, j);
    }
  }

  /** Replacing the last segment leaves the others where they are. */
  lemma SegmentsInit(lines: seq<string>, hunks: seq<Hunk>, places: seq<nat>, news: seq<string>)
    requires Segments(lines, hunks, places) && |places| > 0
    ensures var n := |places| - 1;
            var end := places[n] + |Olds(hunks[n].lines)|;
            end <= |lines| && Segments(lines[..places[n]] + news + lines[end..], hunks, places[..n])
  {
    hide Olds;
    var n := |places| - 1;
    var end := places[n] + |Olds(hunks[n].lines)|;
    assert SegmentAt(lines, hunks[n], places[n]);
    OrderedInit(hunks, places, |lines|);
    var after := lines[..places[n]] + news + lines[end..];
    forall j | 0 <= j < n
      ensures SegmentAt(after, hunks[j], places[..n][j])
    {
      assert SegmentAt(lines, hunks[j], places[j]);
      EndsBefore(hunks, places, |lines|, j, n);
      assert CursorAt(hunks, places, n) <= places[n];
      assert after[places[j]..places[j] + |Olds(hunks[j].lines)|] == lines[places[j]..places[j] + |Olds(hunks[j].lines)|];
    }
  }

  lemma {:induction false} ReplacedMultiset(lines: seq<string>, hunks: seq<Hunk>, places: seq<nat>)
    requires Segments(lines, hunks, places)
    ensures multiset(Replaced(lines, hunks, places)) + AllTexts(hunks, |places|, Remove) ==
            multiset(lines) + AllTexts(hunks, |places|, Insert)
    decreases |places|
  {
    hide Olds, News, Texts, Segments;
    if places != [] {
      LastSegment(lines, hunks, places);
      var n := |places| - 1;
      var olds, news := Olds(hunks[n].lines), News(hunks[n].lines);
      var end := places[n] + |olds|;
      SegmentsInit(lines, hunks, places, news);
      var before, after := lines[..places[n]], lines[end..];
      ReplacedMultiset(before + news + after, hunks, places[..n]);
      assert lines == before + olds + after;
      assert multiset(lines) == multiset(before) + multiset(olds) + multiset(after);
      assert multiset(before + news + after) == multiset(before) + multiset(news) + multiset(after);
      HunkMultisets(hunks[n].lines);
      Rebalance(multiset(Replaced(lines, hunks, places)), multiset(before), multiset(after), Texts(hunks[n].lines, Keep),
                Texts(hunks[n].lines, Remove), Texts(hunks[n].lines, Insert), AllTexts(hunks, n, Remove), AllTexts(hunks, n, Insert));
    }
  }

  lemma Rebalance(r: multiset<string>, before: multiset<string>, after: multiset<string>, kept: multiset<string>,
                  removed: multiset<string>, inserted: multiset<string>, allRemoved: multiset<string>, allInserted: multiset<string>)
    requires r + allRemoved == before + (kept + inserted) + after + allInserted
    ensures r + (allRemoved + removed) == before + (kept + removed) + after + (allInserted + inserted)
  {
    assert r + (allRemoved + removed) == (r + allRemoved) + removed;
  }

  lemma LastSegment(lines: seq<string>, hunks: seq<Hunk>, places: seq<nat>)
    requires Segments(lines, hunks, places) && |places| > 0
    ensures |places| <= |hunks| && SegmentAt(lines, hunks[|places| - 1], places[|places| - 1])
  {
  }

  /** The lines change by exactly the '-' and '+' lines. */
  lemma LinesConserved(lines: seq<string>, hunks: seq<Hunk>, out: seq<string>)
    requires Rewrites(lines, hunks, Some(out))
    ensures multiset(out) + AllTexts(hunks, |hunks|, Remove) == multiset(lines) + AllTexts(hunks, |hunks|, Insert)
  {
    hide Placed, Replaced;
    var places :| |places| == |hunks| && Placed(lines, hunks, places) && out == Replaced(lines, hunks, places);
    PlacedSegments(lines, hunks, places);
    ReplacedMultiset(lines, hunks, places);
  }

  lemma {:induction false} ReplacedSame(lines: seq<string>, hunks: seq<Hunk>, places: seq<nat>)
    requires Segments(lines, hunks, places) && ContextOnly(hunks)
    ensures Replaced(lines, hunks, places) == lines
    decreases |places|
  {
    hide Olds, News, Segments;
    if places != [] {
      LastSegment(lines, hunks, places);
      var n := |places| - 1;
      var end := places[n] + |Olds(hunks[n].lines)|;
      KeepsOnly(hunks[n].lines);
      SegmentsInit(lines, hunks, places, News(hunks[n].lines));
      assert lines[..places[n]] + News(hunks[n].lines) + lines[end..] == lines;
      ReplacedSame(lines, hunks, places[..n]);
    }
  }

  /** Hunks of context lines alone change nothing. */
  lemma ContextOnlySame(lines: seq<string>, hunks: seq<Hunk>, out: seq<string>)
    requires Rewrites(lines, hunks, Some(out)) && ContextOnly(hunks)
    ensures out == lines
  {
    hide Placed, Replaced;
    var places :| |places| == |hunks| && Placed(lines, hunks, places) && out == Replaced(lines, hunks, places);
    PlacedSegments(lines, hunks, places);
    ReplacedSame(lines, hunks, places);
  }

  /** A hunk's two sides, piece by piece: a kept line is on both, a removed one on the left, an inserted one on the right. */
  lemma {:induction false} SidesConcat(xs: seq<HunkLine>, ys: seq<HunkLine>)
    ensures Olds(xs + ys) == Olds(xs) + Olds(ys) && News(xs + ys) == News(xs) + News(ys)
    decreases |ys|
  {
    if ys == [] {
      assert xs + ys == xs;
    } else {
      SidesConcat(xs, ys[..|ys| - 1]);
      assert (xs + ys)[..|xs + ys| - 1] == xs + ys[..|ys| - 1];
    }
  }

  lemma SidesOfLine(text: string)
    ensures Olds([HunkLine(Keep, text)]) == [text] && News([HunkLine(Keep, text)]) == [text]
    ensures Olds([HunkLine(Remove, text)]) == [text] && News([HunkLine(Remove, text)]) == []
    ensures Olds([HunkLine(Insert, text)]) == [] && News([HunkLine(Insert, text)]) == [text]
    ensures Olds([]) == [] && News([]) == []
  {
    SideOfOne(HunkLine(Keep, text));
    SideOfOne(HunkLine(Remove, text));
    SideOfOne(HunkLine(Insert, text));
  }

  lemma SideOfOne(line: HunkLine)
    ensures Olds([line]) == (if line.op.Insert? then [] else [line.text])
    ensures News([line]) == (if line.op.Remove? then [] else [line.text])
  {
    var none: seq<HunkLine> := [line][..0];
    assert |none| == 0;
  }

  /** The hunk can stand at line `i`: its old lines are there, it reaches the end of the file if it must, and its context line
      is one of those between the hunk before it and itself. */
  predicate StandsAt(lines: seq<string>, hunk: Hunk, cursor: nat, i: nat) {
    var n := |Olds(hunk.lines)|;
    && cursor <= i && i + n <= |lines| && lines[i..i + n] == Olds(hunk.lines)
    && (hunk.endOfFile ==> i + n == |lines|)
    && (hunk.context != "" ==> hunk.context in lines[cursor..i])
  }

  lemma StandsIsAllowed(lines: seq<string>, hunk: Hunk, cursor: nat, i: nat)
    ensures StandsAt(lines, hunk, cursor, i) <==> Allowed(lines, hunk, cursor, i)
  {
    hide Olds;
    if StandsAt(lines, hunk, cursor, i) && hunk.context != "" {
      var c :| 0 <= c < |lines[cursor..i]| && lines[cursor..i][c] == hunk.context;
      assert lines[cursor + c] == hunk.context;
    }
    if Allowed(lines, hunk, cursor, i) && hunk.context != "" {
      var c :| cursor <= c < i && c < |lines| && lines[c] == hunk.context;
      assert lines[cursor..i][c - cursor] == hunk.context;
    }
  }

  /** The file with the first `k` hunks in: from one hunk to the next the old lines, then the hunk's new ones. */
  function Woven(lines: seq<string>, hunks: seq<Hunk>, places: seq<nat>, k: nat): seq<string>
    requires k <= |places| <= |hunks|
  {
    if k == 0 then [] else
      var before := if k == 1 then 0 else places[k - 2] + |Olds(hunks[k - 2].lines)|;
      Woven(lines, hunks, places, k - 1)
      + (if before <= places[k - 1] <= |lines| then lines[before..places[k - 1]] else [])
      + News(hunks[k - 1].lines)
  }

  lemma WovenNext(lines: seq<string>, hunks: seq<Hunk>, places: seq<nat>, k: nat)
    requires k < |places| <= |hunks| && CursorAt(hunks, places, k) <= places[k] <= |lines|
    ensures Woven(lines, hunks, places, k + 1) ==
              Woven(lines, hunks, places, k) + lines[CursorAt(hunks, places, k)..places[k]] + News(hunks[k].lines)
  {
    hide Olds, News;
  }

  /** One more hunk in, on the other side. */
  lemma ReplacedStep(lines: seq<string>, hunks: seq<Hunk>, places: seq<nat>, k: nat, some: seq<nat>, more: seq<nat>)
    requires Placed(lines, hunks, places) && k < |places| <= |hunks| && some == places[..k] && more == some + [places[k]]
    ensures var c, d := CursorAt(hunks, places, k), CursorAt(hunks, places, k + 1);
            && c <= places[k] <= d <= |lines|
            && Replaced(lines[..d], hunks, more) == Replaced(lines[..c], hunks, some) + lines[c..places[k]] + News(hunks[k].lines)
  {
    hide *;
    PlacedPrefix(lines, hunks, places, k);
    ReplacedNext(lines, hunks, some, places[k]);
    CursorNext(hunks, places, k + 1);
  }

  lemma {:induction false} WovenIsReplaced(lines: seq<string>, hunks: seq<Hunk>, places: seq<nat>, k: nat)
    requires Placed(lines, hunks, places) && k <= |places| <= |hunks|
    ensures CursorAt(hunks, places, k) <= |lines|
    ensures Woven(lines, hunks, places, k) == Replaced(lines[..CursorAt(hunks, places, k)], hunks, places[..k])
    decreases k
  {
    hide *;
    if k == 0 {
      NothingWoven(lines, hunks, places);
    } else {
      var some, more := places[..k - 1], places[..k];
      WovenIsReplaced(lines, hunks, places, k - 1);
      assert more == some + [places[k - 1]];
      ReplacedStep(lines, hunks, places, k - 1, some, more);
      WovenNext(lines, hunks, places, k - 1);
    }
  }

  lemma NothingWoven(lines: seq<string>, hunks: seq<Hunk>, places: seq<nat>)
    requires |places| <= |hunks|
    ensures CursorAt(hunks, places, 0) == 0
    ensures Woven(lines, hunks, places, 0) == Replaced(lines[..0], hunks, places[..0])
  {
    assert places[..0] == [] && lines[..0] == [];
    NothingReplaced(hunks);
  }

  lemma CursorNext(hunks: seq<Hunk>, places: seq<nat>, k: nat)
    requires 0 < k <= |places| <= |hunks|
    ensures CursorAt(hunks, places, k) == places[k - 1] + |Olds(hunks[k - 1].lines)|
  {
  }

  lemma PlacedPrefix(lines: seq<string>, hunks: seq<Hunk>, places: seq<nat>, k: nat)
    requires Placed(lines, hunks, places) && k <= |places|
    ensures Placed(lines, hunks, places[..k])
    ensures forall j :: 0 <= j <= k ==> CursorAt(hunks, places[..k], j) == CursorAt(hunks, places, j)
    ensures k < |places| ==> LeastAllowed(lines, hunks[k], CursorAt(hunks, places, k), places[k])
  {
    hide Olds, LeastAllowed;
  }

  /** What rewriting is, in the file's own terms: each hunk stands at the first line where it can after the one before, and the
      result is the old lines between the hunks with each hunk's new lines in between. */
  lemma RewritingMeans(lines: seq<string>, hunks: seq<Hunk>, out: seq<string>)
    ensures Rewrites(lines, hunks, Some(out)) <==>
            exists places :: |places| == |hunks| && FirstPlaces(lines, hunks, places) && out == Woven(lines, hunks, places, |places|) + Behind(lines, hunks, places)
  {
    hide Replaced, Woven, Placed, FirstPlaces;
    forall places: seq<nat> | |places| == |hunks|
      ensures Placed(lines, hunks, places) <==> FirstPlaces(lines, hunks, places)
      ensures Placed(lines, hunks, places) ==>
                Replaced(lines, hunks, places) == Woven(lines, hunks, places, |places|) + Behind(lines, hunks, places)
    {
      FirstIsPlaced(lines, hunks, places);
      if Placed(lines, hunks, places) { ReplacedIsWoven(lines, hunks, places); }
    }
    if Rewrites(lines, hunks, Some(out)) {
      var places :| |places| == |hunks| && Placed(lines, hunks, places) && out == Replaced(lines, hunks, places);
      assert FirstPlaces(lines, hunks, places);
    }
  }

  /** Each hunk stands at the first line where it can after the one before. */
  ghost predicate FirstPlaces(lines: seq<string>, hunks: seq<Hunk>, places: seq<nat>) {
    && |places| <= |hunks|
    && forall j :: 0 <= j < |places| ==>
         FirstAt(lines, hunks[j], if j == 0 then 0 else places[j - 1] + |Olds(hunks[j - 1].lines)|, places[j])
  }

  predicate FirstAt(lines: seq<string>, hunk: Hunk, cursor: nat, i: nat) {
    StandsAt(lines, hunk, cursor, i) && forall k :: cursor <= k < i ==> !StandsAt(lines, hunk, cursor, k)
  }

  /** The lines behind the last hunk. */
  function Behind(lines: seq<string>, hunks: seq<Hunk>, places: seq<nat>): seq<string>
    requires |places| <= |hunks|
  {
    if places == [] then lines else
      var end := places[|places| - 1] + |Olds(hunks[|places| - 1].lines)|;
      if end <= |lines| then lines[end..] else []
  }

  lemma FirstIsPlaced(lines: seq<string>, hunks: seq<Hunk>, places: seq<nat>)
    requires |places| == |hunks|
    ensures Placed(lines, hunks, places) <==> FirstPlaces(lines, hunks, places)
  {
    hide Olds, FirstAt, LeastAllowed;
    forall j | 0 <= j < |places|
      ensures FirstAt(lines, hunks[j], CursorAt(hunks, places, j), places[j]) <==>
              LeastAllowed(lines, hunks[j], CursorAt(hunks, places, j), places[j])
    {
      FirstIsLeast(lines, hunks[j], CursorAt(hunks, places, j), places[j]);
    }
  }

  lemma FirstIsLeast(lines: seq<string>, hunk: Hunk, cursor: nat, i: nat)
    ensures FirstAt(lines, hunk, cursor, i) <==> LeastAllowed(lines, hunk, cursor, i)
  {
    hide StandsAt, Allowed;
    forall k: nat
      ensures StandsAt(lines, hunk, cursor, k) <==> Allowed(lines, hunk, cursor, k)
    {
      StandsIsAllowed(lines, hunk, cursor, k);
    }
  }

  lemma ReplacedIsWoven(lines: seq<string>, hunks: seq<Hunk>, places: seq<nat>)
    requires Placed(lines, hunks, places) && |places| == |hunks|
    ensures Replaced(lines, hunks, places) == Woven(lines, hunks, places, |places|) + Behind(lines, hunks, places)
  {
    hide Olds, News, Replaced, LeastAllowed, Woven;
    var cursor := CursorAt(hunks, places, |places|);
    WovenIsReplaced(lines, hunks, places, |places|);
    assert places[..|places|] == places && lines[..cursor] + lines[cursor..] == lines;
    PlacedIsOrdered(lines, hunks, places);
    ReplacedAppend(lines[..cursor], lines[cursor..], hunks, places);
  }
}
