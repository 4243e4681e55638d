/** The hunk engine: where each hunk of an update lands in a file's lines, and what comes out. */
module PatchHunks {
  import opened Options

  datatype LineOp = Keep | Remove | Insert
  datatype HunkLine = HunkLine(op: LineOp, text: string)

  /** An empty `context` means the hunk names no context line. */
  datatype Hunk = Hunk(context: string, lines: seq<HunkLine>, endOfFile: bool)

  /** The lines a hunk expects to find. */
  function Olds(lines: seq<HunkLine>): seq<string> {
    if lines == [] then [] else
      var last := lines[|lines| - 1];
      Olds(lines[..|lines| - 1]) + (if last.op.Insert? then [] else [last.text])
  }

  /** The lines it puts in their place. */
  function News(lines: seq<HunkLine>): seq<string> {
    if lines == [] then [] else
      var last := lines[|lines| - 1];
      News(lines[..|lines| - 1]) + (if last.op.Remove? then [] else [last.text])
  }

  /** `daemonPatchHunkLines`. */
  method PatchHunkLines(hunk: Hunk) returns (olds: seq<string>, news: seq<string>)
    ensures olds == Olds(hunk.lines) && news == News(hunk.lines)
  {
    olds, news := [], [];
    for k := 0 to |hunk.lines|
      invariant olds == Olds(hunk.lines[..k]) && news == News(hunk.lines[..k])
    {
      assert hunk.lines[..k + 1][..k] == hunk.lines[..k];
      var line := hunk.lines[k];
      match line.op {
        case Keep => olds, news := olds + [line.text], news + [line.text];
        case Remove => olds := olds + [line.text];
        case Insert => news := news + [line.text];
      }
    }
    assert hunk.lines[..|hunk.lines|] == hunk.lines;
  }

  /** The expected lines stand at index `i`, and reach the end of the file if they must. */
  predicate Fits(lines: seq<string>, olds: seq<string>, i: nat, endOfFile: bool) {
    i + |olds| <= |lines| && lines[i..i + |olds|] == olds && (endOfFile ==> i + |olds| == |lines|)
  }

  /** A place for the hunk at or after `cursor`: it fits there, below a line equal to its context. */
  ghost predicate Allowed(lines: seq<string>, hunk: Hunk, cursor: nat, i: nat) {
    && cursor <= i && Fits(lines, Olds(hunk.lines), i, hunk.endOfFile)
    && (hunk.context != "" ==> exists c :: cursor <= c < i && c < |lines| && lines[c] == hunk.context)
  }

  ghost predicate LeastAllowed(lines: seq<string>, hunk: Hunk, cursor: nat, i: nat) {
    Allowed(lines, hunk, cursor, i) && forall k :: cursor <= k < i ==> !Allowed(lines, hunk, cursor, k)
  }

  /** Where the hunk lands, if anywhere. */
  ghost predicate LandsAt(lines: seq<string>, hunk: Hunk, cursor: nat, r: Option<nat>) {
    match r
    case Some(i) => LeastAllowed(lines, hunk, cursor, i)
    case None => forall i :: !Allowed(lines, hunk, cursor, i)
  }

  /** `daemonFindPatchHunk`. */
  method FindPatchHunk(lines: seq<string>, olds: seq<string>, start: nat, endOfFile: bool) returns (r: Option<nat>)
    requires start <= |lines|
    ensures r.Some? ==> start <= r.value && Fits(lines, olds, r.value, endOfFile)
    ensures r.Some? ==> forall i :: start <= i < r.value ==> !Fits(lines, olds, i, endOfFile)
    ensures r.None? ==> forall i :: start <= i ==> !Fits(lines, olds, i, endOfFile)
  {
    if |olds| == 0 {
      return Some(if endOfFile then |lines| else start);
    }
    var index := start;
    while index + |olds| <= |lines|
      invariant start <= index
      invariant forall i :: start <= i < index ==> !Fits(lines, olds, i, endOfFile)
    {
      if !(endOfFile && index + |olds| != |lines|) && lines[index..index + |olds|] == olds {
        return Some(index);
      }
      index := index + 1;
    }
    return None;
  }

  /** `daemonFindPatchContext`. */
  method FindPatchContext(lines: seq<string>, context: string, start: nat) returns (r: Option<nat>)
    ensures r.Some? ==> start <= r.value < |lines| && lines[r.value] == context && forall i :: start <= i < r.value ==> lines[i] != context
    ensures r.None? ==> forall i :: start <= i < |lines| ==> lines[i] != context
  {
    for index := start to if start <= |lines| then |lines| else start
      invariant forall i :: start <= i < index && i < |lines| ==> lines[i] != context
    {
      if lines[index] == context { return Some(index); }
    }
    return None;
  }

  /** Where the search for hunk `j` starts: after the lines the hunk before it consumed. */
  function CursorAt(hunks: seq<Hunk>, places: seq<nat>, j: nat): nat
    requires j <= |places| <= |hunks|
  {
    if j == 0 then 0 else places[j - 1] + |Olds(hunks[j - 1].lines)|
  }

  /** Places for the first hunks, each the first one allowed after the hunk before it. */
  ghost predicate Placed(lines: seq<string>, hunks: seq<Hunk>, places: seq<nat>) {
    |places| <= |hunks| && forall j :: 0 <= j < |places| ==> LeastAllowed(lines, hunks[j], CursorAt(hunks, places, j), places[j])
  }

  /** Some hunk has no place after those before it. */
  ghost predicate Stuck(lines: seq<string>, hunks: seq<Hunk>, places: seq<nat>) {
    && |places| < |hunks| && Placed(lines, hunks, places)
    && forall i :: !Allowed(lines, hunks[|places|], CursorAt(hunks, places, |places|), i)
  }

  /** All placed replacements made at once on the original: the last one first, so that no index moves. */
  function Replaced(lines: seq<string>, hunks: seq<Hunk>, places: seq<nat>): seq<string>
    requires |places| <= |hunks|
    decreases |places|
  {
    if places == [] then lines else
      var n := |places| - 1;
      var end := places[n] + |Olds(hunks[n].lines)|;
      if end > |lines| then lines else
      Replaced(lines[..places[n]] + News(hunks[n].lines) + lines[end..], hunks, places[..n])
  }

  /** What the engine must produce: the original with every hunk's segment replaced, or nothing if some hunk has no place. */
  ghost predicate Rewrites(lines: seq<string>, hunks: seq<Hunk>, r: Option<seq<string>>) {
    match r
    case Some(out) => exists places :: |places| == |hunks| && Placed(lines, hunks, places) && out == Replaced(lines, hunks, places)
    case None => exists places :: Stuck(lines, hunks, places)
  }

  /** Segments in order, the last one ending by `limit`. */
  ghost predicate Ordered(hunks: seq<Hunk>, places: seq<nat>, limit: nat) {
    && |places| <= |hunks| && CursorAt(hunks, places, |places|) <= limit
    && forall j :: 0 <= j < |places| ==> CursorAt(hunks, places, j) <= places[j]
  }

  lemma OrderedInit(hunks: seq<Hunk>, places: seq<nat>, limit: nat)
    requires Ordered(hunks, places, limit) && |places| > 0
    ensures Ordered(hunks, places[..|places| - 1], places[|places| - 1])
  {
    hide Olds;
    var init := places[..|places| - 1];
    forall j | 0 <= j <= |init|
      ensures CursorAt(hunks, init, j) == CursorAt(hunks, places, j)
    {
    }
  }

  /** What stands after the last segment is carried along. */
  lemma {:induction false} ReplacedAppend(pre: seq<string>, tail: seq<string>, hunks: seq<Hunk>, places: seq<nat>)
    requires Ordered(hunks, places, |pre|)
    ensures Replaced(pre + tail, hunks, places) == Replaced(pre, hunks, places) + tail
    decreases |places|
  {
    hide Olds, News;
    if places != [] {
      var n := |places| - 1;
      var end := places[n] + |Olds(hunks[n].lines)|;
      var mid := pre[..places[n]] + News(hunks[n].lines) + pre[end..];
      assert (pre + tail)[..places[n]] + News(hunks[n].lines) + (pre + tail)[end..] == mid + tail;
      OrderedInit(hunks, places, |pre|);
      ReplacedAppend(mid, tail, hunks, places[..n]);
    }
  }

  lemma PlacedNext(lines: seq<string>, hunks: seq<Hunk>, places: seq<nat>, i: nat)
    requires Placed(lines, hunks, places) && |places| < |hunks|
    requires LeastAllowed(lines, hunks[|places|], CursorAt(hunks, places, |places|), i)
    ensures Placed(lines, hunks, places + [i])
    ensures CursorAt(hunks, places + [i], |places| + 1) == i + |Olds(hunks[|places|].lines)|
  {
    hide Olds, LeastAllowed;
    forall j | 0 <= j <= |places|
      ensures CursorAt(hunks, places + [i], j) == CursorAt(hunks, places, j)
    {
    }
  }

  lemma LeastIsAllowed(lines: seq<string>, hunk: Hunk, cursor: nat, i: nat)
    requires LeastAllowed(lines, hunk, cursor, i)
    ensures cursor <= i && i + |Olds(hunk.lines)| <= |lines| && lines[i..i + |Olds(hunk.lines)|] == Olds(hunk.lines)
  {
  }

  lemma PlacedIsOrdered(lines: seq<string>, hunks: seq<Hunk>, places: seq<nat>)
    requires Placed(lines, hunks, places)
    ensures Ordered(hunks, places, CursorAt(hunks, places, |places|)) && CursorAt(hunks, places, |places|) <= |lines|
  {
    hide Olds, LeastAllowed;
    forall j | 0 <= j < |places|
      ensures CursorAt(hunks, places, j) <= places[j] && places[j] + |Olds(hunks[j].lines)| <= |lines|
    {
      LeastIsAllowed(lines, hunks[j], CursorAt(hunks, places, j), places[j]);
    }
  }

  lemma ReplaceAlgebra(lines: seq<string>, cursor: nat, i: nat, end: nat, news: seq<string>)
    requires cursor <= i <= end <= |lines|
    ensures lines[..end][..i] + news + lines[..end][end..] == lines[..cursor] + (lines[cursor..i] + news)
  {
  }

  /** One more segment: the lines up to it are copied, its own are replaced. */
  lemma ReplacedNext(lines: seq<string>, hunks: seq<Hunk>, places: seq<nat>, i: nat)
    requires Placed(lines, hunks, places) && |places| < |hunks|
    requires LeastAllowed(lines, hunks[|places|], CursorAt(hunks, places, |places|), i)
    ensures var cursor := CursorAt(hunks, places, |places|);
            var end := i + |Olds(hunks[|places|].lines)|;
            && cursor <= i <= end <= |lines|
            && Replaced(lines[..end], hunks, places + [i]) ==
                 Replaced(lines[..cursor], hunks, places) + lines[cursor..i] + News(hunks[|places|].lines)
  {
    hide Olds, News, LeastAllowed, Placed, Ordered;
    var k := |places|;
    var cursor := CursorAt(hunks, places, k);
    LeastIsAllowed(lines, hunks[k], cursor, i);
    var end := i + |Olds(hunks[k].lines)|;
    var news := News(hunks[k].lines);
    PlacedIsOrdered(lines, hunks, places);
    assert (places + [i])[..k] == places;
    ReplaceAlgebra(lines, cursor, i, end, news);
    ReplacedAppend(lines[..cursor], lines[cursor..i] + news, hunks, places);
    assert Replaced(lines[..cursor], hunks, places) + (lines[cursor..i] + news) ==
           Replaced(lines[..cursor], hunks, places) + lines[cursor..i] + news;
  }

  /** The step both engines share: the context line first, then the first fit below it. */
  method FindPlace(lines: seq<string>, hunk: Hunk, olds: seq<string>, cursor: nat) returns (r: Option<nat>)
    requires cursor <= |lines| && olds == Olds(hunk.lines)
    ensures LandsAt(lines, hunk, cursor, r)
  {
    var start := cursor;
    if hunk.context != "" {
      var found := FindPatchContext(lines, hunk.context, cursor);
      if found.None? { return None; }
      start := found.value + 1;
    }
    r := FindPatchHunk(lines, olds, start, hunk.endOfFile);
  }

  /** The loop of `daemonApplyPatchHunks`: output grows, the cursor moves over the original. */
  method RewriteLines(lines: seq<string>, hunks: seq<Hunk>) returns (r: Option<seq<string>>)
    ensures Rewrites(lines, hunks, r)
  {
    hide Olds, News, LeastAllowed, Allowed, Replaced;
    var output: seq<string> := [];
    var cursor := 0;
    ghost var places: seq<nat> := [];
    NothingReplaced(hunks);
    for k := 0 to |hunks|
      invariant |places| == k && Placed(lines, hunks, places) && cursor == CursorAt(hunks, places, k) <= |lines|
      invariant output == Replaced(lines[..cursor], hunks, places)
    {
      var olds, news := PatchHunkLines(hunks[k]);
      var place := FindPlace(lines, hunks[k], olds, cursor);
      if place.None? {
        assert Stuck(lines, hunks, places);
        return None;
      }
      PlacedNext(lines, hunks, places, place.value);
      ReplacedNext(lines, hunks, places, place.value);
      output := output + lines[cursor..place.value] + news;
      cursor := place.value + |olds|;
      places := places + [place.value];
    }
    assert lines[..cursor] + lines[cursor..] == lines;
    PlacedIsOrdered(lines, hunks, places);
    ReplacedAppend(lines[..cursor], lines[cursor..], hunks, places);
    r := Some(output + lines[cursor..]);
  }

  lemma NothingReplaced(hunks: seq<Hunk>)
    ensures Replaced([], hunks, []) == []
  {
  }

  lemma LeastUnique(lines: seq<string>, hunk: Hunk, cursor: nat, i: nat, j: nat)
    requires LeastAllowed(lines, hunk, cursor, i) && LeastAllowed(lines, hunk, cursor, j)
    ensures i == j
  {
  }

  /** The places are determined by the file and the hunks. */
  lemma {:induction false} PlacesUnique(lines: seq<string>, hunks: seq<Hunk>, places: seq<nat>, others: seq<nat>, k: nat)
    requires Placed(lines, hunks, places) && Placed(lines, hunks, others) && k <= |places| && k <= |others|
    ensures forall j :: 0 <= j < k ==> places[j] == others[j]
  {
    hide Olds, LeastAllowed;
    if k > 0 {
      PlacesUnique(lines, hunks, places, others, k - 1);
      LeastUnique(lines, hunks[k - 1], CursorAt(hunks, places, k - 1), places[k - 1], others[k - 1]);
    }
  }

  /** So is the outcome: any two engines that rewrite agree, in their result or in failing. */
  lemma RewritesOnce(lines: seq<string>, hunks: seq<Hunk>, r: Option<seq<string>>, s: Option<seq<string>>)
    requires Rewrites(lines, hunks, r) && Rewrites(lines, hunks, s)
    ensures r == s
  {
    hide Placed, Stuck, Replaced;
    if r.Some? || s.Some? {
      var out := if r.Some? then r.value else s.value;
      var p :| |p| == |hunks| && Placed(lines, hunks, p) && out == Replaced(lines, hunks, p);
      forall q
        ensures !Stuck(lines, hunks, q)
        ensures |q| == |hunks| && Placed(lines, hunks, q) ==> q == p
      {
        PlacedNotStuck(lines, hunks, p, q);
        if |q| == |hunks| && Placed(lines, hunks, q) { PlacesUnique(lines, hunks, p, q, |hunks|); }
      }
    }
  }

  lemma PlacedNotStuck(lines: seq<string>, hunks: seq<Hunk>, places: seq<nat>, stuck: seq<nat>)
    requires |places| == |hunks| && Placed(lines, hunks, places)
    ensures !Stuck(lines, hunks, stuck)
  {
    hide Olds, Allowed;
    if |stuck| < |hunks| && Placed(lines, hunks, stuck) {
      PlacesUnique(lines, hunks, places, stuck, |stuck|);
      assert Allowed(lines, hunks[|stuck|], CursorAt(hunks, stuck, |stuck|), places[|stuck|]);
    }
  }
}
