/** For which hunks the two engines of the repository agree on every file. */
module PatchEngines {
  import opened Options
  import opened PatchHunks
  import opened PatchSplice

  /** The hunks as the first engine reads them: an absent anchor is an empty context line. */
  function AllHunks(hunks: seq<SpliceHunk>): (all: seq<Hunk>)
    ensures |all| == |hunks| && forall j :: 0 <= j < |all| ==> all[j] == AsHunk(hunks[j])
  {
    seq(|hunks|, j requires 0 <= j < |hunks| =>
      Hunk(match hunks[j].anchor case None => "" case Some(line) => line, hunks[j].lines, hunks[j].endOfFile))
  }

  /** How many lines of the file a hunk takes up: its context line and those it expects. */
  function Needs(hunk: Hunk): nat { (if hunk.context != "" then 1 else 0) + |Olds(hunk.lines)| }

  function Total(hunks: seq<Hunk>): nat {
    if hunks == [] then 0 else Total(hunks[..|hunks| - 1]) + Needs(hunks[|hunks| - 1])
  }

  /** No hunk that must reach the end of the file stands before one that needs a line. */
  predicate CanFit(hunks: seq<Hunk>) {
    forall i, j :: 0 <= i < j < |hunks| && hunks[i].endOfFile ==> Needs(hunks[j]) == 0
  }

  /** A file made for the hunks: the lines each needs, one hunk after the other. */
  function Blocks(hunks: seq<Hunk>): (lines: seq<string>)
    ensures |lines| == Total(hunks)
  {
    if hunks == [] then [] else
      var last := hunks[|hunks| - 1];
      Blocks(hunks[..|hunks| - 1]) + (if last.context != "" then [last.context] else []) + Olds(last.lines)
  }

  ghost predicate Fit(lines: seq<string>, hunks: seq<Hunk>) {
    exists places :: |places| == |hunks| && Placed(lines, hunks, places)
  }

  lemma AllowedTakesUp(lines: seq<string>, hunk: Hunk, cursor: nat, i: nat)
    requires Allowed(lines, hunk, cursor, i)
    ensures cursor + Needs(hunk) <= i + |Olds(hunk.lines)| <= |lines|
    ensures hunk.endOfFile ==> i + |Olds(hunk.lines)| == |lines|
  {
  }

  /** Hunks in place take up lines of their own. */
  lemma {:induction false} PlacedTakesUp(lines: seq<string>, hunks: seq<Hunk>, places: seq<nat>, a: nat, b: nat)
    requires Placed(lines, hunks, places) && a <= b <= |places|
    ensures CursorAt(hunks, places, a) + Total(hunks[a..b]) <= CursorAt(hunks, places, b)
    decreases b - a
  {
    hide Olds, Allowed, Needs, Total;
    TotalSlice(hunks, a, b);
    if a < b {
      PlacedTakesUp(lines, hunks, places, a, b - 1);
      AllowedTakesUp(lines, hunks[b - 1], CursorAt(hunks, places, b - 1), places[b - 1]);
    }
  }

  lemma TotalSlice(hunks: seq<Hunk>, a: nat, b: nat)
    requires a <= b <= |hunks|
    ensures Total(hunks[a..b]) == if a == b then 0 else Total(hunks[a..b - 1]) + Needs(hunks[b - 1])
  {
    hide Needs;
    if a < b { assert hunks[a..b][..b - a - 1] == hunks[a..b - 1]; }
  }

  lemma FitNeedsRoom(lines: seq<string>, hunks: seq<Hunk>)
    requires Fit(lines, hunks)
    ensures Total(hunks) <= |lines|
  {
    hide Placed, Needs;
    var places :| |places| == |hunks| && Placed(lines, hunks, places);
    PlacedTakesUp(lines, hunks, places, 0, |places|);
    PlacedIsOrdered(lines, hunks, places);
    assert hunks[0..|places|] == hunks;
  }

  /** A line needed behind the end of the file is never there. */
  lemma FitCanFit(lines: seq<string>, hunks: seq<Hunk>)
    requires Fit(lines, hunks)
    ensures CanFit(hunks)
  {
    hide Needs, Olds, Allowed;
    var places :| |places| == |hunks| && Placed(lines, hunks, places);
    forall i, j | 0 <= i < j < |hunks| && hunks[i].endOfFile
      ensures Needs(hunks[j]) == 0
    {
      AllowedTakesUp(lines, hunks[i], CursorAt(hunks, places, i), places[i]);
      PlacedTakesUp(lines, hunks, places, i + 1, j);
      AllowedTakesUp(lines, hunks[j], CursorAt(hunks, places, j), places[j]);
    }
  }

  lemma {:induction false} TotalConcat(a: seq<Hunk>, b: seq<Hunk>)
    ensures Total(a + b) == Total(a) + Total(b)
    ensures Blocks(a) <= Blocks(a + b)
    decreases |b|
  {
    hide Needs, Olds;
    if b == [] {
      assert a + b == a;
    } else {
      var n := |b| - 1;
      TotalConcat(a, b[..n]);
      assert (a + b)[..|a + b| - 1] == a + b[..n];
    }
  }

  lemma {:induction false} NothingNeeded(hunks: seq<Hunk>)
    requires forall j :: 0 <= j < |hunks| ==> Needs(hunks[j]) == 0
    ensures Total(hunks) == 0
  {
    hide Needs;
    if hunks != [] { NothingNeeded(hunks[..|hunks| - 1]); }
  }

  /** Where the lines hunk `k` expects stand in its block. */
  function BlockAt(hunks: seq<Hunk>, k: nat): nat
    requires k < |hunks|
  {
    Total(hunks[..k]) + if hunks[k].context != "" then 1 else 0
  }

  lemma BlockSplits(hunks: seq<Hunk>, k: nat)
    requires k < |hunks|
    ensures var i, lines, end := BlockAt(hunks, k), Blocks(hunks), Total(hunks[..k + 1]);
            && i + |Olds(hunks[k].lines)| == end && |lines| == end + Total(hunks[k + 1..])
            && lines[i..end] == Olds(hunks[k].lines)
            && (hunks[k].context != "" ==> i - 1 == Total(hunks[..k]) && lines[i - 1] == hunks[k].context)
  {
    hide Total, Olds, Blocks;
    var hunk, upTo, after := hunks[k], hunks[..k + 1], hunks[k + 1..];
    assert upTo[..k] == hunks[..k] && upTo + after == hunks;
    TotalNext(upTo, k);
    TotalConcat(upTo, after);
    var block := Blocks(upTo);
    assert Blocks(hunks)[..|block|] == block;
    BlockParts(Blocks(hunks[..k]), if hunk.context != "" then [hunk.context] else [], Olds(hunk.lines), Blocks(hunks));
  }

  lemma BlockParts(before: seq<string>, context: seq<string>, olds: seq<string>, lines: seq<string>)
    requires before + context + olds <= lines
    ensures lines[|before| + |context|..|before| + |context| + |olds|] == olds
    ensures |context| == 1 ==> lines[|before|] == context[0]
  {
    var block := before + context + olds;
    assert lines[..|block|] == block && block[|before| + |context|..] == olds;
    if |context| == 1 { assert block[|before|] == context[0]; }
  }

  /** In the file made for them, each hunk fits at its own block. */
  lemma BlockFits(hunks: seq<Hunk>, k: nat, cursor: nat)
    requires CanFit(hunks) && k < |hunks| && cursor <= Total(hunks[..k])
    ensures Allowed(Blocks(hunks), hunks[k], cursor, BlockAt(hunks, k))
    ensures BlockAt(hunks, k) + |Olds(hunks[k].lines)| == Total(hunks[..k + 1])
  {
    hide Total, Olds, Blocks;
    BlockSplits(hunks, k);
    if hunks[k].endOfFile { NothingNeeded(hunks[k + 1..]); }
  }

  lemma TotalNext(hunks: seq<Hunk>, k: nat)
    requires |hunks| == k + 1
    ensures Total(hunks) == Total(hunks[..k]) + Needs(hunks[k])
    ensures Blocks(hunks) == Blocks(hunks[..k]) + (if hunks[k].context != "" then [hunks[k].context] else []) + Olds(hunks[k].lines)
  {
  }

  lemma {:induction false} LeastExists(lines: seq<string>, hunk: Hunk, cursor: nat, i: nat) returns (least: nat)
    requires Allowed(lines, hunk, cursor, i)
    ensures least <= i && LeastAllowed(lines, hunk, cursor, least)
    decreases i
  {
    hide Allowed;
    if k :| cursor <= k < i && Allowed(lines, hunk, cursor, k) {
      least := LeastExists(lines, hunk, cursor, k);
    } else {
      assert cursor <= i by { AllowedIsLater(lines, hunk, cursor, i); }
      least := i;
    }
  }

  lemma AllowedIsLater(lines: seq<string>, hunk: Hunk, cursor: nat, i: nat)
    requires Allowed(lines, hunk, cursor, i)
    ensures cursor <= i
  {
  }

  /** Every list of hunks that can fit some file fits the one made for it. */
  lemma {:induction false} BlocksFit(hunks: seq<Hunk>, k: nat) returns (places: seq<nat>)
    requires CanFit(hunks) && k <= |hunks|
    ensures |places| == k && Placed(Blocks(hunks), hunks, places) && CursorAt(hunks, places, k) <= Total(hunks[..k])
    decreases k
  {
    hide Total, Olds, Allowed, LeastAllowed, Blocks, CanFit, Needs;
    if k == 0 {
      places := [];
    } else {
      places := BlocksFit(hunks, k - 1);
      var cursor := CursorAt(hunks, places, k - 1);
      BlockFits(hunks, k - 1, cursor);
      var least := LeastExists(Blocks(hunks), hunks[k - 1], cursor, BlockAt(hunks, k - 1));
      PlacedNext(Blocks(hunks), hunks, places, least);
      places := places + [least];
    }
  }

  /** The engine always comes to a result. */
  lemma {:induction false} SomeResult(lines: seq<string>, hunks: seq<Hunk>, places: seq<nat>) returns (r: Option<seq<string>>)
    requires Placed(lines, hunks, places)
    ensures Rewrites(lines, hunks, r)
    decreases |hunks| - |places|
  {
    hide Olds, Allowed, LeastAllowed, Replaced;
    if |places| == |hunks| {
      r := Some(Replaced(lines, hunks, places));
    } else {
      var cursor := CursorAt(hunks, places, |places|);
      if i :| Allowed(lines, hunks[|places|], cursor, i) {
        var least := LeastExists(lines, hunks[|places|], cursor, i);
        PlacedNext(lines, hunks, places, least);
        r := SomeResult(lines, hunks, places + [least]);
      } else {
        assert Stuck(lines, hunks, places);
        r := None;
      }
    }
  }

  lemma FitIsSome(lines: seq<string>, hunks: seq<Hunk>, r: Option<seq<string>>)
    requires Rewrites(lines, hunks, r)
    ensures r.Some? <==> Fit(lines, hunks)
  {
    hide Placed, Replaced, Stuck;
    if Fit(lines, hunks) {
      var places :| |places| == |hunks| && Placed(lines, hunks, places);
      RewritesOnce(lines, hunks, r, Some(Replaced(lines, hunks, places)));
    }
  }

  lemma {:induction false} ChangingMember(hunks: seq<SpliceHunk>, x: Hunk)
    requires x in Changing(hunks)
    ensures x in AllHunks(hunks)
  {
    hide Changes, AsHunk;
    var all := AllHunks(hunks);
    if Changes(hunks[0]) && x == AsHunk(hunks[0]) {
      assert all[0] == x;
    } else {
      ChangingMember(hunks[1..], x);
      var k :| 0 <= k < |hunks[1..]| && AllHunks(hunks[1..])[k] == x;
      assert all[k + 1] == x;
    }
  }

  /** What can fit with the skipped hunks can without them. */
  lemma {:induction false} ChangingCanFit(hunks: seq<SpliceHunk>)
    requires CanFit(AllHunks(hunks))
    ensures CanFit(Changing(hunks))
  {
    hide Changes, AsHunk, Needs;
    if hunks != [] {
      var all, rest := AllHunks(hunks), AllHunks(hunks[1..]);
      assert all[1..] == rest;
      assert CanFit(rest) by {
        forall i, j | 0 <= i < j < |rest| && rest[i].endOfFile
          ensures Needs(rest[j]) == 0
        {
          assert rest[i] == all[i + 1] && rest[j] == all[j + 1];
        }
      }
      ChangingCanFit(hunks[1..]);
      forall x | x in Changing(hunks[1..]) && all[0].endOfFile
        ensures Needs(x) == 0
      {
        ChangingMember(hunks[1..], x);
        var k :| 0 <= k < |rest| && rest[k] == x;
        assert all[k + 1] == x;
      }
    }
  }

  lemma {:induction false} KeptAreOlds(lines: seq<HunkLine>)
    requires forall k :: 0 <= k < |lines| ==> lines[k].op.Keep?
    ensures |Olds(lines)| == |lines|
  {
    if lines != [] { KeptAreOlds(lines[..|lines| - 1]); }
  }

  /** A skipped hunk needs room too. */
  lemma {:induction false} ChangingNeedsLess(hunks: seq<SpliceHunk>)
    requires forall j :: 0 <= j < |hunks| ==> hunks[j].lines != []
    ensures Total(Changing(hunks)) <= Total(AllHunks(hunks))
    ensures (exists j :: 0 <= j < |hunks| && !Changes(hunks[j])) ==> Total(Changing(hunks)) < Total(AllHunks(hunks))
  {
    hide Olds, Total;
    if hunks == [] {
      assert AllHunks(hunks) == Changing(hunks) == [];
    } else {
      var h, rest := hunks[0], hunks[1..];
      ChangingNeedsLess(rest);
      assert AllHunks(hunks) == [AsHunk(h)] + AllHunks(rest);
      TotalConcat([AsHunk(h)], AllHunks(rest));
      TotalConcat(if Changes(h) then [AsHunk(h)] else [], Changing(rest));
      TotalOne(AsHunk(h));
      if !Changes(h) {
        KeptAreOlds(h.lines);
      } else if j :| 0 <= j < |hunks| && !Changes(hunks[j]) {
        assert rest[j - 1] == hunks[j];
      }
    }
  }

  lemma TotalOne(hunk: Hunk)
    ensures Total([hunk]) == Needs(hunk) && Total([]) == 0
  {
    assert [hunk][..0] == [];
  }

  /** The two engines' outcomes are the same for every file. */
  ghost predicate AgreeAlways(hunks: seq<SpliceHunk>) {
    forall lines, r, s :: Rewrites(lines, Changing(hunks), r) && Rewrites(lines, AllHunks(hunks), s) ==> r == s
  }

  /** All hunks change something, or some line is needed behind the end of the file, and both engines fail. */
  predicate NoneSkipped(hunks: seq<SpliceHunk>) {
    (forall j :: 0 <= j < |hunks| ==> Changes(hunks[j])) || !CanFit(Changing(hunks))
  }

  /** Under that condition the engines agree on every file, and under no other. Parsed hunks are not empty. */
  lemma EnginesAgreeExactly(hunks: seq<SpliceHunk>)
    requires forall j :: 0 <= j < |hunks| ==> hunks[j].lines != []
    ensures AgreeAlways(hunks) <==> NoneSkipped(hunks)
  {
    hide Changes, CanFit, Rewrites, Changing;
    if NoneSkipped(hunks) {
      EnginesAgree(hunks);
    } else {
      var lines, r, s := EnginesDiffer(hunks);
      assert r != s;
    }
  }

  lemma EnginesAgree(hunks: seq<SpliceHunk>)
    requires NoneSkipped(hunks)
    ensures AgreeAlways(hunks)
  {
    hide Changes, CanFit, Rewrites, Changing, Fit;
    forall lines, r, s | Rewrites(lines, Changing(hunks), r) && Rewrites(lines, AllHunks(hunks), s)
      ensures r == s
    {
      if forall j :: 0 <= j < |hunks| ==> Changes(hunks[j]) {
        AllChanging(hunks);
        assert AllHunks(hunks) == Changing(hunks);
        RewritesOnce(lines, Changing(hunks), r, s);
      } else {
        FitIsSome(lines, Changing(hunks), r);
        FitIsSome(lines, AllHunks(hunks), s);
        if r.Some? { FitCanFit(lines, Changing(hunks)); }
        if s.Some? {
          FitCanFit(lines, AllHunks(hunks));
          ChangingCanFit(hunks);
        }
      }
    }
  }

  /** Otherwise the file made for the hunks that change anything has no room for the others. */
  lemma EnginesDiffer(hunks: seq<SpliceHunk>) returns (lines: seq<string>, r: Option<seq<string>>, s: Option<seq<string>>)
    requires !NoneSkipped(hunks) && forall j :: 0 <= j < |hunks| ==> hunks[j].lines != []
    ensures Rewrites(lines, Changing(hunks), r) && Rewrites(lines, AllHunks(hunks), s) && r.Some? && s.None?
  {
    hide Changes, CanFit, Rewrites, Changing, Total, Needs, Blocks, Placed;
    var changing := Changing(hunks);
    lines := Blocks(changing);
    var places := BlocksFit(changing, |changing|);
    NothingPlaced(lines, changing);
    NothingPlaced(lines, AllHunks(hunks));
    r := SomeResult(lines, changing, []);
    s := SomeResult(lines, AllHunks(hunks), []);
    FitIsSome(lines, changing, r);
    FitIsSome(lines, AllHunks(hunks), s);
    ChangingNeedsLess(hunks);
    if s.Some? { FitNeedsRoom(lines, AllHunks(hunks)); }
  }

  /** Both engines on one file: under the condition, they give the same lines or both fail. */
  method BothEngines(lines: seq<string>, hunks: seq<SpliceHunk>) returns (spliced: Option<seq<string>>, rewritten: Option<seq<string>>)
    ensures NoEmptyAnchor(hunks) && NoneSkipped(hunks) ==> spliced == rewritten
  {
    hide Changes, Rewrites, CanFit, Changing;
    spliced := SpliceLines(lines, hunks);
    rewritten := RewriteLines(lines, AllHunks(hunks));
    if NoEmptyAnchor(hunks) && NoneSkipped(hunks) { EnginesAgree(hunks); }
  }
}
