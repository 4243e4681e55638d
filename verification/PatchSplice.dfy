/** The other hunk engine of the repository, which splices each hunk into the lines as it goes. */
module PatchSplice {
  import opened Options
  import opened PatchHunks

  /** Its hunks tell an absent anchor from an empty one. */
  datatype SpliceHunk = SpliceHunk(anchor: Option<string>, lines: seq<HunkLine>, endOfFile: bool)

  predicate Changes(hunk: SpliceHunk) {
    exists k :: 0 <= k < |hunk.lines| && !hunk.lines[k].op.Keep?
  }

  function AsHunk(hunk: SpliceHunk): Hunk {
    Hunk(if hunk.anchor.Some? then hunk.anchor.value else "", hunk.lines, hunk.endOfFile)
  }

  /** The hunks it does not skip. */
  function Changing(hunks: seq<SpliceHunk>): seq<Hunk> {
    if hunks == [] then [] else (if Changes(hunks[0]) then [AsHunk(hunks[0])] else []) + Changing(hunks[1..])
  }

  predicate NoEmptyAnchor(hunks: seq<SpliceHunk>) {
    forall j :: 0 <= j < |hunks| ==> hunks[j].anchor != Some("")
  }

  /** `find_subsequence`. */
  method FindSubsequence(lines: seq<string>, needle: seq<string>, start: nat, endOfFile: bool) returns (r: Option<nat>)
    requires start <= |lines|
    ensures r.Some? ==> start <= r.value && Fits(lines, needle, r.value, endOfFile)
    ensures r.Some? ==> forall i :: start <= i < r.value ==> !Fits(lines, needle, i, endOfFile)
    ensures r.None? ==> forall i :: start <= i ==> !Fits(lines, needle, i, endOfFile)
  {
    if needle == [] {
      return Some(if endOfFile then |lines| else if start < |lines| then start else |lines|);
    }
    var origin := start;
    while origin <= |lines| - |needle|
      invariant start <= origin
      invariant forall i :: start <= i < origin ==> !Fits(lines, needle, i, endOfFile)
    {
      if !(endOfFile && origin + |needle| != |lines|) && lines[origin..origin + |needle|] == needle {
        return Some(origin);
      }
      origin := origin + 1;
    }
    return None;
  }

  /** Source and target lines of a hunk, and whether it changes anything. */
  method Sides(hunk: SpliceHunk) returns (source: seq<string>, target: seq<string>, sawChange: bool)
    ensures source == Olds(hunk.lines) && target == News(hunk.lines) && (sawChange <==> Changes(hunk))
  {
    source, target, sawChange := [], [], false;
    for k := 0 to |hunk.lines|
      invariant source == Olds(hunk.lines[..k]) && target == News(hunk.lines[..k])
      invariant sawChange <==> exists j :: 0 <= j < k && !hunk.lines[j].op.Keep?
    {
      assert hunk.lines[..k + 1][..k] == hunk.lines[..k];
      var line := hunk.lines[k];
      if !line.op.Insert? { source := source + [line.text]; }
      if !line.op.Remove? { target := target + [line.text]; }
      if !line.op.Keep? { sawChange := true; }
    }
    assert hunk.lines[..|hunk.lines|] == hunk.lines;
  }

  method FindSplice(lines: seq<string>, hunk: SpliceHunk, source: seq<string>, cursor: nat) returns (r: Option<nat>)
    requires cursor <= |lines| && source == Olds(hunk.lines)
    ensures hunk.anchor != Some("") ==> LandsAt(lines, AsHunk(hunk), cursor, r)
    ensures r.Some? ==> cursor <= r.value && r.value + |source| <= |lines|
  {
    hide Olds;
    var start := cursor;
    if hunk.anchor.Some? {
      var found := FindSubsequence(lines, [hunk.anchor.value], cursor, false);
      AnchorFits(lines, hunk.anchor.value);
      if found.None? { return None; }
      start := found.value + 1;
    }
    r := FindSubsequence(lines, source, start, hunk.endOfFile);
  }

  lemma AnchorFits(lines: seq<string>, anchor: string)
    ensures forall i: nat :: Fits(lines, [anchor], i, false) <==> i < |lines| && lines[i] == anchor
  {
    forall i: nat
      ensures Fits(lines, [anchor], i, false) <==> i < |lines| && lines[i] == anchor
    {
      if i < |lines| { assert lines[i..i + 1] == [lines[i]]; }
    }
  }

  /** Lists with a common end show the same lines there. */
  lemma ShiftLine(lines: seq<string>, c: nat, updated: seq<string>, cursor: nat, k: nat)
    requires c <= |lines| && cursor <= |updated| && updated[cursor..] == lines[c..] && c + k < |lines|
    ensures cursor + k < |updated| && updated[cursor + k] == lines[c + k]
  {
    assert updated[cursor..][k] == lines[c..][k];
  }

  lemma TailSlice(s: seq<string>, c: nat, i: nat, n: nat)
    requires c + i + n <= |s|
    ensures s[c + i..c + i + n] == s[c..][i..i + n]
  {
  }

  lemma ShiftFits(lines: seq<string>, c: nat, updated: seq<string>, cursor: nat, olds: seq<string>, endOfFile: bool, i: nat)
    requires c <= |lines| && cursor <= |updated| && updated[cursor..] == lines[c..]
    ensures Fits(updated, olds, cursor + i, endOfFile) <==> Fits(lines, olds, c + i, endOfFile)
  {
    assert |updated| - cursor == |lines| - c;
    if c + i + |olds| <= |lines| {
      TailSlice(updated, cursor, i, |olds|);
      TailSlice(lines, c, i, |olds|);
    }
  }

  /** Searching a list that ends like the original finds the same place, counted from the common part. */
  lemma ShiftAllowed(lines: seq<string>, c: nat, updated: seq<string>, cursor: nat, hunk: Hunk, i: nat)
    requires c <= |lines| && cursor <= |updated| && updated[cursor..] == lines[c..]
    ensures Allowed(updated, hunk, cursor, cursor + i) <==> Allowed(lines, hunk, c, c + i)
  {
    ShiftContext(lines, c, updated, cursor, hunk, i);
    ShiftContext(updated, cursor, lines, c, hunk, i);
  }

  lemma ShiftContext(lines: seq<string>, c: nat, updated: seq<string>, cursor: nat, hunk: Hunk, i: nat)
    requires c <= |lines| && cursor <= |updated| && updated[cursor..] == lines[c..]
    ensures Allowed(lines, hunk, c, c + i) ==> Allowed(updated, hunk, cursor, cursor + i)
  {
    hide Olds, Fits;
    ShiftFits(lines, c, updated, cursor, Olds(hunk.lines), hunk.endOfFile, i);
    if Allowed(lines, hunk, c, c + i) && hunk.context != "" {
      var a :| c <= a < c + i && a < |lines| && lines[a] == hunk.context;
      ShiftLine(lines, c, updated, cursor, a - c);
      assert updated[cursor + (a - c)] == hunk.context;
    }
  }

  lemma ShiftLands(lines: seq<string>, c: nat, updated: seq<string>, cursor: nat, hunk: Hunk, r: Option<nat>)
    requires c <= |lines| && cursor <= |updated| && updated[cursor..] == lines[c..]
    requires LandsAt(updated, hunk, cursor, r)
    ensures r.None? ==> LandsAt(lines, hunk, c, None)
    ensures r.Some? ==> cursor <= r.value && LandsAt(lines, hunk, c, Some(c + (r.value - cursor)))
  {
    hide Olds, Fits;
    forall k: nat | c <= k
      ensures Allowed(lines, hunk, c, k) <==> Allowed(updated, hunk, cursor, k - c + cursor)
    {
      ShiftAllowed(lines, c, updated, cursor, hunk, k - c);
      assert c + (k - c) == k && cursor + (k - c) == k - c + cursor;
    }
    forall k: nat | cursor <= k
      ensures Allowed(updated, hunk, cursor, k) <==> Allowed(lines, hunk, c, k - cursor + c)
    {
      ShiftAllowed(lines, c, updated, cursor, hunk, k - cursor);
      assert cursor + (k - cursor) == k && c + (k - cursor) == k - cursor + c;
    }
  }

  lemma ChangingStep(hunks: seq<SpliceHunk>, all: seq<Hunk>, m: nat, k: nat)
    requires k < |hunks| && m <= |all| && all[m..] == Changing(hunks[k..])
    ensures Changes(hunks[k]) ==> m < |all| && all[m] == AsHunk(hunks[k]) && all[m + 1..] == Changing(hunks[k + 1..])
    ensures !Changes(hunks[k]) ==> all[m..] == Changing(hunks[k + 1..])
  {
    hide Changes;
    assert hunks[k..][0] == hunks[k] && hunks[k..][1..] == hunks[k + 1..];
    if Changes(hunks[k]) {
      assert all[m..] == [AsHunk(hunks[k])] + Changing(hunks[k + 1..]);
      assert all[m + 1..] == all[m..][1..];
    }
  }

  /** The loop's invariant: the finished part is the rewriting so far, the rest is still the original's. */
  ghost predicate Splicing(lines: seq<string>, hunks: seq<SpliceHunk>, k: nat, places: seq<nat>, updated: seq<string>, cursor: nat) {
    var all := Changing(hunks);
    && k <= |hunks| && |places| <= |all| && all[|places|..] == Changing(hunks[k..]) && Placed(lines, all, places)
    && var c := CursorAt(all, places, |places|);
       && c <= |lines| && cursor <= |updated|
       && Replaced(lines[..c], all, places) == updated[..cursor] && updated[cursor..] == lines[c..]
  }

  lemma SplicingStarts(lines: seq<string>, hunks: seq<SpliceHunk>)
    ensures Splicing(lines, hunks, 0, [], lines, 0)
  {
    NothingPlaced(lines, Changing(hunks));
  }

  lemma SplicingSkips(lines: seq<string>, hunks: seq<SpliceHunk>, k: nat, places: seq<nat>, updated: seq<string>, cursor: nat)
    requires k < |hunks| && Splicing(lines, hunks, k, places, updated, cursor) && !Changes(hunks[k])
    ensures Splicing(lines, hunks, k + 1, places, updated, cursor)
  {
    hide Olds, News, Placed, Replaced, Changes;
    ChangingStep(hunks, Changing(hunks), |places|, k);
  }

  lemma SplicingFails(lines: seq<string>, hunks: seq<SpliceHunk>, k: nat, places: seq<nat>, updated: seq<string>, cursor: nat)
    requires k < |hunks| && Splicing(lines, hunks, k, places, updated, cursor) && Changes(hunks[k])
    requires LandsAt(updated, AsHunk(hunks[k]), cursor, None)
    ensures Rewrites(lines, Changing(hunks), None)
  {
    hide Olds, News, Placed, Replaced, Changes, Allowed;
    var all := Changing(hunks);
    ChangingStep(hunks, all, |places|, k);
    ShiftLands(lines, CursorAt(all, places, |places|), updated, cursor, all[|places|], None);
    assert Stuck(lines, all, places);
  }

  lemma SplicingSplices(lines: seq<string>, hunks: seq<SpliceHunk>, k: nat, places: seq<nat>, updated: seq<string>, cursor: nat, pos: nat)
    returns (next: seq<nat>)
    requires k < |hunks| && Splicing(lines, hunks, k, places, updated, cursor) && Changes(hunks[k])
    requires LandsAt(updated, AsHunk(hunks[k]), cursor, Some(pos))
    ensures var source, target := Olds(hunks[k].lines), News(hunks[k].lines);
            && cursor <= pos && pos + |source| <= |updated|
            && Splicing(lines, hunks, k + 1, next, updated[..pos] + target + updated[pos + |source|..], pos + |target|)
  {
    hide Olds, News, Placed, Replaced, Changes, LeastAllowed;
    var all := Changing(hunks);
    var c := CursorAt(all, places, |places|);
    var source, target := Olds(hunks[k].lines), News(hunks[k].lines);
    ChangingStep(hunks, all, |places|, k);
    ShiftLands(lines, c, updated, cursor, all[|places|], Some(pos));
    LeastIsAllowed(updated, AsHunk(hunks[k]), cursor, pos);
    var i := c + (pos - cursor);
    PlacedNext(lines, all, places, i);
    ReplacedNext(lines, all, places, i);
    SpliceStep(lines, c, updated, cursor, pos, source, target);
    next := places + [i];
  }

  lemma SplicingEnds(lines: seq<string>, hunks: seq<SpliceHunk>, places: seq<nat>, updated: seq<string>, cursor: nat)
    requires Splicing(lines, hunks, |hunks|, places, updated, cursor)
    ensures Rewrites(lines, Changing(hunks), Some(updated))
  {
    hide Olds, News, Placed, Replaced, Changes;
    var all := Changing(hunks);
    var c := CursorAt(all, places, |places|);
    assert lines[..c] + lines[c..] == lines && updated[..cursor] + updated[cursor..] == updated;
    PlacedIsOrdered(lines, all, places);
    ReplacedAppend(lines[..c], lines[c..], all, places);
  }

  /** `apply_hunks` on lines: the same rewriting, of the hunks that change anything. */
  method SpliceLines(lines: seq<string>, hunks: seq<SpliceHunk>) returns (r: Option<seq<string>>)
    ensures NoEmptyAnchor(hunks) ==> Rewrites(lines, Changing(hunks), r)
  {
    hide Olds, News, Changes, Splicing, Changing, Rewrites;
    ghost var places: seq<nat> := [];
    var updated, cursor := lines, 0;
    SplicingStarts(lines, hunks);
    for k := 0 to |hunks|
      invariant 0 <= cursor <= |updated|
      invariant NoEmptyAnchor(hunks) ==> Splicing(lines, hunks, k, places, updated, cursor)
    {
      var source, target, sawChange := Sides(hunks[k]);
      if !sawChange {
        if NoEmptyAnchor(hunks) { SplicingSkips(lines, hunks, k, places, updated, cursor); }
        continue;
      }
      var pos := FindSplice(updated, hunks[k], source, cursor);
      if pos.None? {
        if NoEmptyAnchor(hunks) { SplicingFails(lines, hunks, k, places, updated, cursor); }
        return None;
      }
      if NoEmptyAnchor(hunks) {
        places := SplicingSplices(lines, hunks, k, places, updated, cursor, pos.value);
      }
      updated := updated[..pos.value] + target + updated[pos.value + |source|..];
      cursor := pos.value + |target|;
    }
    if NoEmptyAnchor(hunks) { SplicingEnds(lines, hunks, places, updated, cursor); }
    r := Some(updated);
  }

  lemma NothingPlaced(lines: seq<string>, hunks: seq<Hunk>)
    ensures Placed(lines, hunks, []) && Replaced(lines[..0], hunks, []) == []
  {
  }

  lemma SpliceStep(lines: seq<string>, c: nat, updated: seq<string>, cursor: nat, pos: nat, source: seq<string>, target: seq<string>)
    requires c <= |lines| && cursor <= |updated| && updated[cursor..] == lines[c..]
    requires cursor <= pos && pos + |source| <= |updated|
    ensures var i := c + (pos - cursor);
            var after := updated[..pos] + target + updated[pos + |source|..];
            && i + |source| <= |lines|
            && after[..pos + |target|] == updated[..cursor] + lines[c..i] + target
            && after[pos + |target|..] == lines[i + |source|..]
  {
    var i := c + (pos - cursor);
    assert |updated| - cursor == |lines| - c;
    assert updated[cursor..][..pos - cursor] == lines[c..][..i - c];
    assert updated[..pos] == updated[..cursor] + updated[cursor..pos];
    assert updated[cursor..][pos - cursor + |source|..] == lines[c..][i - c + |source|..];
  }

  lemma {:induction false} AllChanging(hunks: seq<SpliceHunk>)
    requires forall j :: 0 <= j < |hunks| ==> Changes(hunks[j])
    ensures Changing(hunks) == seq(|hunks|, j requires 0 <= j < |hunks| => AsHunk(hunks[j]))
  {
    hide Changes;
    if hunks != [] { AllChanging(hunks[1..]); }
  }

  /** The condition matters: a context-only hunk the file does not contain stops one engine and is skipped by the other. */
  lemma ContextOnlyHunksDiffer()
    ensures var hunk := SpliceHunk(None, [HunkLine(Keep, "x")], false);
            && Rewrites(["y"], Changing([hunk]), Some(["y"]))
            && Rewrites(["y"], [AsHunk(hunk)], None)
  {
    var hunk := SpliceHunk(None, [HunkLine(Keep, "x")], false);
    assert Changing([hunk]) == [];
    assert Placed(["y"], [], []) && Replaced(["y"], [], []) == ["y"];
    assert Olds(hunk.lines) == ["x"] by {
      assert hunk.lines[..0] == [];
    }
    forall i: nat
      ensures !Allowed(["y"], AsHunk(hunk), 0, i)
    {
      if i == 0 { assert ["y"][0..1][0] == "y"; }
    }
    assert Stuck(["y"], [AsHunk(hunk)], []);
  }
}
