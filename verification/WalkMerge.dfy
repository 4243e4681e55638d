/** Several roots walked at once, merged in the order of what is shown, and what a glob search makes of the result. */
module WalkMerge {
  import opened Options
  import opened Lexicographic
  import opened Text
  import WorkspacePath
  import opened DirectoryWalk
  import opened WalkOrder

  /** A file as shown, and the number of the root it was found under. */
  type Found = (string, nat)

  /** The order of the heap's entries: by what is shown, then by root. */
  predicate Precedes(a: Found, b: Found) { Less(a.0, b.0) || (a.0 == b.0 && a.1 < b.1) }

  predicate InOrder(found: seq<Found>) {
    forall i, j :: 0 <= i < j < |found| ==> Precedes(found[i], found[j])
  }

  lemma PrecedesTransitive(a: Found, b: Found, c: Found)
    requires Precedes(a, b) && Precedes(b, c)
    ensures Precedes(a, c)
  {
    if Less(a.0, b.0) && Less(b.0, c.0) { Transitive(a.0, b.0, c.0); }
  }

  lemma PrecedesTotal(a: Found, b: Found)
    ensures Precedes(a, b) || a == b || Precedes(b, a)
  {
    Total(a.0, b.0);
  }

  /** `os.path.normpath`: as `path.Clean`, but exactly two slashes at the front both stay. */
  function NormPath(p: string): string {
    if |p| >= 2 && p[..2] == "//" && (|p| == 2 || p[2] != '/') then "/" + WorkspacePath.Clean(p) else WorkspacePath.Clean(p)
  }

  /** It leads where the cleaned path leads, and keeps two slashes at the front, neither one nor three. */
  lemma NormMeans(p: string)
    ensures WorkspacePath.Segments(NormPath(p)) == WorkspacePath.Segments(WorkspacePath.Clean(p))
    ensures HasPrefix(NormPath(p), "//") <==> HasPrefix(p, "//") && !HasPrefix(p, "///")
    ensures !WorkspacePath.IsAbs(p) ==> NormPath(p) == WorkspacePath.Clean(p)
  {
    hide WorkspacePath.Segments, WorkspacePath.Reduce, Join;
    TwoSlashes(p);
    WorkspacePath.CleanNotDoubled(p);
    var clean := WorkspacePath.Clean(p);
    if NormPath(p) == "/" + clean {
      WorkspacePath.SlashBefore(clean);
      if HasPrefix(p, "//") { assert p[0] == p[..2][0] && ("/" + clean)[..2] == "//"; }
    }
  }

  lemma TwoSlashes(p: string)
    ensures HasPrefix(p, "//") && !HasPrefix(p, "///") <==> |p| >= 2 && p[..2] == "//" && (|p| == 2 || p[2] != '/')
  {
    if |p| > 2 { assert p[..3] == p[..2] + [p[2]]; }
  }

  /** `display_path`: the root's slashes at the end, trimmed, are put back as one. */
  function DisplayPath(root: string, relative: string): string {
    var shown := NormPath(root);
    if relative == "" || relative == "." then (if shown == "" then "." else shown)
    else if shown == "" || shown == "." then relative
    else WithoutSlashes(shown) + "/" + relative
  }

  function WithoutSlashes(root: string): string {
    if root != "" && root[|root| - 1] == '/' then WithoutSlashes(root[..|root| - 1]) else root
  }

  /** Under a root that is written as it is meant: nothing is put before what is relative, and one slash behind anything else. */
  lemma DisplayedBelow(root: string, relative: string)
    requires NormPath(root) == root && (root == "/" || (root != "" && root[|root| - 1] != '/'))
    ensures DisplayPath(root, relative) ==
              if relative == "" || relative == "." then root else if root == "." then relative
              else if root == "/" then "/" + relative else root + "/" + relative
  {
    hide NormPath;
    if root == "/" {
      assert root[..|root| - 1] == "" && WithoutSlashes(root) == "";
      assert "" + "/" + relative == "/" + relative;
    }
  }

  function Displayed(root: string, paths: seq<string>): (shown: seq<string>)
    ensures |shown| == |paths| && forall i :: 0 <= i < |paths| ==> shown[i] == DisplayPath(root, paths[i])
  {
    seq(|paths|, i requires 0 <= i < |paths| => DisplayPath(root, paths[i]))
  }

  /** Showing a root before each path keeps their order. */
  lemma DisplayedIncreasing(root: string, paths: seq<string>)
    requires IncreasingPaths(paths) && forall i :: 0 <= i < |paths| ==> paths[i] != "" && paths[i] != "."
    ensures IncreasingPaths(Displayed(root, paths))
  {
    hide NormPath;
    forall i, j | 0 <= i < j < |paths|
      ensures Less(DisplayPath(root, paths[i]), DisplayPath(root, paths[j]))
    {
      Prefixed(WithoutSlashes(NormPath(root)) + "/", paths[i], paths[j]);
    }
  }

  /** What each root's producer shows next, if anything. */
  predicate Heads(producers: seq<seq<string>>, next: seq<nat>, heads: seq<Option<string>>) {
    && |next| == |heads| == |producers|
    && forall i :: 0 <= i < |producers| ==>
         && next[i] <= |producers[i]|
         && heads[i] == if next[i] < |producers[i]| then Some(producers[i][next[i]]) else None
  }

  /** `heapq.heappop`: the least of the producers not yet at their end. */
  method PopLeast(heads: seq<Option<string>>) returns (least: Option<nat>)
    ensures least.None? <==> forall i :: 0 <= i < |heads| ==> heads[i].None?
    ensures least.Some? ==>
              && least.value < |heads| && heads[least.value].Some?
              && forall i :: 0 <= i < |heads| && i != least.value && heads[i].Some? ==>
                   Precedes((heads[least.value].value, least.value), (heads[i].value, i))
  {
    least := None;
    for k := 0 to |heads|
      invariant least.None? <==> forall i :: 0 <= i < k ==> heads[i].None?
      invariant least.Some? ==>
                  && least.value < k && heads[least.value].Some?
                  && forall i :: 0 <= i < k && i != least.value && heads[i].Some? ==>
                       Precedes((heads[least.value].value, least.value), (heads[i].value, i))
    {
      if heads[k].Some? {
        if least.None? {
          least := Some(k);
        } else {
          var was := least.value;
          var (here, there) := ((heads[k].value, k), (heads[was].value, was));
          PrecedesTotal(here, there);
          if Less(here.0, there.0) {
            forall i | 0 <= i < k && i != was && heads[i].Some?
              ensures Precedes(here, (heads[i].value, i))
            {
              PrecedesTransitive(here, there, (heads[i].value, i));
            }
            least := Some(k);
          }
        }
      }
    }
  }

  ghost predicate Taken(producers: seq<seq<string>>, next: seq<nat>, merged: seq<Found>)
    requires |next| == |producers| && forall i :: 0 <= i < |next| ==> next[i] <= |producers[i]|
  {
    forall f: Found :: f in merged <==> f.1 < |producers| && f.0 in producers[f.1][..next[f.1]]
  }

  lemma TakeOne(producers: seq<seq<string>>, next: seq<nat>, merged: seq<Found>, i: nat)
    requires |next| == |producers| && forall k :: 0 <= k < |next| ==> next[k] <= |producers[k]|
    requires i < |next| && next[i] < |producers[i]| && Taken(producers, next, merged)
    ensures Taken(producers, next[i := next[i] + 1], merged + [(producers[i][next[i]], i)])
  {
    var now := next[i := next[i] + 1];
    var head: Found := (producers[i][next[i]], i);
    assert producers[i][..now[i]] == producers[i][..next[i]] + [head.0];
    forall f: Found
      ensures f in merged + [head] <==> f.1 < |producers| && f.0 in producers[f.1][..now[f.1]]
    {
      assert f in merged + [head] <==> f in merged || f == head;
    }
  }

  lemma NextFollows(paths: seq<string>, n: nat, i: nat)
    requires IncreasingPaths(paths) && n + 1 < |paths|
    ensures Precedes((paths[n], i), (paths[n + 1], i))
  {
  }

  /** All that was yielded precedes all that may come. */
  predicate AllBefore(merged: seq<Found>, heads: seq<Option<string>>) {
    forall k, i :: 0 <= k < |merged| && 0 <= i < |heads| && heads[i].Some? ==> Precedes(merged[k], (heads[i].value, i))
  }

  ghost function Remaining(producers: seq<seq<string>>, next: seq<nat>): set<(nat, nat)>
    requires |next| == |producers|
  {
    set i: nat, k: nat | 0 <= i < |producers| && next[i] <= k < |producers[i]| :: (i, k)
  }

  lemma NothingYet(producers: seq<seq<string>>, next: seq<nat>, heads: seq<Option<string>>)
    requires |next| == |producers| && forall i :: 0 <= i < |next| ==> next[i] == 0
    ensures Taken(producers, next, []) && AllBefore([], heads) && InOrder([])
  {
  }

  lemma AllTaken(producers: seq<seq<string>>, next: seq<nat>, heads: seq<Option<string>>, merged: seq<Found>)
    requires Heads(producers, next, heads) && Taken(producers, next, merged) && forall i :: 0 <= i < |heads| ==> heads[i].None?
    ensures forall f: Found :: f in merged <==> f.1 < |producers| && f.0 in producers[f.1]
  {
    forall i | 0 <= i < |producers|
      ensures producers[i][..next[i]] == producers[i]
    {
      assert heads[i].None?;
    }
  }

  /** Yielding the least head and moving its producer on keeps the order. */
  lemma Advances(producers: seq<seq<string>>, next: seq<nat>, heads: seq<Option<string>>, merged: seq<Found>, i: nat, later: Option<string>)
    requires Heads(producers, next, heads) && AllBefore(merged, heads) && InOrder(merged)
    requires i < |heads| && heads[i].Some? && IncreasingPaths(producers[i])
    requires later == if next[i] + 1 < |producers[i]| then Some(producers[i][next[i] + 1]) else None
    requires forall k :: 0 <= k < |heads| && k != i && heads[k].Some? ==> Precedes((heads[i].value, i), (heads[k].value, k))
    ensures InOrder(merged + [(heads[i].value, i)]) && AllBefore(merged + [(heads[i].value, i)], heads[i := later])
    ensures Remaining(producers, next[i := next[i] + 1]) < Remaining(producers, next)
  {
    var file: Found := (heads[i].value, i);
    var nowMerged, nowHeads := merged + [file], heads[i := later];
    forall k, j | 0 <= k < |nowMerged| && 0 <= j < |nowHeads| && nowHeads[j].Some?
      ensures Precedes(nowMerged[k], (nowHeads[j].value, j))
    {
      if j == i {
        NextFollows(producers[i], next[i], i);
        if k < |merged| { PrecedesTransitive(merged[k], file, (later.value, i)); }
      }
    }
    assert (i, next[i]) in Remaining(producers, next) && (i, next[i]) !in Remaining(producers, next[i := next[i] + 1]);
  }

  /** `walk_search_files`: all the files of all roots, in order of what is shown, and for the same, of the roots. */
  method WalkSearchFiles(producers: seq<seq<string>>) returns (merged: seq<Found>)
    requires forall i :: 0 <= i < |producers| ==> IncreasingPaths(producers[i])
    ensures InOrder(merged)
    ensures forall f: Found :: f in merged <==> f.1 < |producers| && f.0 in producers[f.1]
  {
    hide Precedes, IncreasingPaths, InOrder, AllBefore, Remaining, Taken;
    merged := [];
    var next: seq<nat> := seq(|producers|, _ => 0);
    var heads := seq(|producers|, i requires 0 <= i < |producers| => if |producers[i]| > 0 then Some(producers[i][0]) else None);
    NothingYet(producers, next, heads);
    while true
      invariant Heads(producers, next, heads) && Taken(producers, next, merged) && InOrder(merged)
      invariant AllBefore(merged, heads)
      decreases Remaining(producers, next)
    {
      var least := PopLeast(heads);
      if least.None? {
        AllTaken(producers, next, heads, merged);
        return;
      }
      var i := least.value;
      var file: Found := (heads[i].value, i);
      TakeOne(producers, next, merged, i);
      var was := next[i];
      var later := if was + 1 < |producers[i]| then Some(producers[i][was + 1]) else None;
      Advances(producers, next, heads, merged, i, later);
      merged := merged + [file];
      next := next[i := was + 1];
      heads := heads[i := later];
    }
  }

  /** A root as it was given, and the directory there. */
  datatype Root = Root(original: string, entries: seq<Entry>)

  ghost predicate ShownUnder(root: Root, hidden: bool, others: bool, shown: string) {
    exists path :: Reaches(root.entries, path, hidden, others) && shown == DisplayPath(root.original, Under("", path))
  }

  lemma PathListed(entries: seq<Entry>, relative: string, hidden: bool, others: bool, depth: nat, path: seq<string>, p: string)
    requires Proper(entries) && Height(entries) <= depth && Reaches(entries, path, hidden, others) && p == Under(relative, path)
    ensures p in Walk(entries, relative, hidden, others, depth)
  {
    hide Proper, Height, Walk, Reaches, Under;
    WalkLists(entries, relative, hidden, others, depth, p);
  }

  lemma RootShows(root: Root, hidden: bool, others: bool, files: seq<string>, shown: string)
    requires Proper(root.entries) && files == Walk(root.entries, "", hidden, others, Height(root.entries))
    ensures shown in Displayed(root.original, files) <==> ShownUnder(root, hidden, others, shown)
  {
    hide Proper, Height, Walk, Reaches, Under, DisplayPath;
    var all := Displayed(root.original, files);
    if shown in all {
      var k :| 0 <= k < |all| && all[k] == shown;
      WalkLists(root.entries, "", hidden, others, Height(root.entries), files[k]);
    }
    if ShownUnder(root, hidden, others, shown) {
      var path :| Reaches(root.entries, path, hidden, others) && shown == DisplayPath(root.original, Under("", path));
      var p := Under("", path);
      PathListed(root.entries, "", hidden, others, Height(root.entries), path, p);
      var k :| 0 <= k < |files| && files[k] == p;
      assert all[k] == shown;
    }
  }

  /** The walks of all roots, in pages of `limit`, merged: exactly the paths that lead to a file, each once for each root. */
  method SearchRoots(roots: seq<Root>, limit: nat, hidden: bool, others: bool) returns (merged: seq<Found>)
    requires limit > 0 && forall i :: 0 <= i < |roots| ==> Proper(roots[i].entries)
    ensures InOrder(merged)
    ensures forall f: Found :: f in merged <==> f.1 < |roots| && ShownUnder(roots[f.1], hidden, others, f.0)
  {
    hide Proper, Height, Walk, IncreasingPaths, ShownUnder, Displayed;
    var producers: seq<seq<string>> := [];
    for i := 0 to |roots|
      invariant |producers| == i && forall k :: 0 <= k < i ==> IncreasingPaths(producers[k])
      invariant forall k, p :: 0 <= k < i ==> (p in producers[k] <==> ShownUnder(roots[k], hidden, others, p))
    {
      var files := WalkDirectory(roots[i].entries, "", limit, hidden, others, Height(roots[i].entries));
      WalkIncreasing(roots[i].entries, "", hidden, others, Height(roots[i].entries));
      forall k | 0 <= k < |files|
        ensures files[k] != "" && files[k] != "."
      {
        WalkNames(roots[i].entries, hidden, others, Height(roots[i].entries), files[k]);
      }
      DisplayedIncreasing(roots[i].original, files);
      var shown := Displayed(roots[i].original, files);
      forall p
        ensures p in shown <==> ShownUnder(roots[i], hidden, others, p)
      {
        RootShows(roots[i], hidden, others, files, p);
      }
      producers := producers + [shown];
    }
    merged := WalkSearchFiles(producers);
  }

  /** What is shown of the files wanted, among the first `n`. */
  ghost predicate Wanted(merged: seq<Found>, n: nat, wanted: Found -> bool, shown: string)
    requires n <= |merged|
  {
    exists k :: 0 <= k < n && merged[k].0 == shown && wanted(merged[k])
  }

  /**
   * `handle_glob`: of what is shown of the files that match, the `limit` first, each once and in strictly increasing
   * order; `truncated` exactly when there are more.
   */
  method HandleGlob(merged: seq<Found>, wanted: Found -> bool, limit: nat) returns (matches: seq<string>, truncated: bool)
    requires InOrder(merged) && limit > 0
    ensures |matches| <= limit && (truncated ==> |matches| == limit) && IncreasingPaths(matches)
    ensures forall p :: p in matches ==> Wanted(merged, |merged|, wanted, p)
    ensures truncated <==> exists p :: Wanted(merged, |merged|, wanted, p) && p !in matches
    ensures forall p, q :: p in matches && q !in matches && Wanted(merged, |merged|, wanted, q) ==> Less(p, q)
  {
    hide IncreasingPaths;
    matches, truncated := [], false;
    var last: Option<string> := None;
    NonePaths();
    for n := 0 to |merged|
      invariant |matches| <= limit && IncreasingPaths(matches)
      invariant forall p :: p in matches <==> Wanted(merged, n, wanted, p)
      invariant last == if matches == [] then None else Some(matches[|matches| - 1])
    {
      var file := merged[n];
      forall p
        ensures Wanted(merged, n + 1, wanted, p) <==> Wanted(merged, n, wanted, p) || (p == file.0 && wanted(file))
      {
        WantedStep(merged, n, wanted, p);
      }
      if !wanted(file) { continue; }
      if last == Some(file.0) {
        assert file.0 == matches[|matches| - 1];
        continue;
      }
      FileFollows(merged, n, wanted, matches);
      if |matches| >= limit {
        truncated := true;
        forall q | q !in matches && Wanted(merged, |merged|, wanted, q)
          ensures forall p :: p in matches ==> Less(p, q)
        {
          AllLater(merged, n, wanted, matches, q);
        }
        assert Wanted(merged, |merged|, wanted, file.0) && file.0 !in matches;
        return;
      }
      last := Some(file.0);
      matches := matches + [file.0];
    }
  }

  lemma NonePaths()
    ensures IncreasingPaths([])
  {
  }

  lemma WantedStep(merged: seq<Found>, n: nat, wanted: Found -> bool, p: string)
    requires n < |merged|
    ensures Wanted(merged, n + 1, wanted, p) <==> Wanted(merged, n, wanted, p) || (p == merged[n].0 && wanted(merged[n]))
  {
  }

  /** A new name comes after all those shown, for any before it in the list comes no later, and the last alone could be equal. */
  lemma FileFollows(merged: seq<Found>, n: nat, wanted: Found -> bool, matches: seq<string>)
    requires InOrder(merged) && n < |merged| && IncreasingPaths(matches)
    requires forall p :: p in matches <==> Wanted(merged, n, wanted, p)
    requires matches == [] || matches[|matches| - 1] != merged[n].0
    ensures (forall p :: p in matches ==> Less(p, merged[n].0)) && merged[n].0 !in matches
    ensures IncreasingPaths(matches + [merged[n].0])
  {
    forall p | p in matches
      ensures Less(p, merged[n].0)
    {
      var last := matches[|matches| - 1];
      assert last in matches;
      var k :| 0 <= k < n && merged[k].0 == last && wanted(merged[k]);
      assert Precedes(merged[k], merged[n]);
      var i :| 0 <= i < |matches| && matches[i] == p;
      if i < |matches| - 1 { Transitive(p, last, merged[n].0); }
    }
    Irreflexive(merged[n].0);
  }

  lemma AllLater(merged: seq<Found>, n: nat, wanted: Found -> bool, matches: seq<string>, q: string)
    requires InOrder(merged) && n < |merged| && forall p :: p in matches <==> Wanted(merged, n, wanted, p)
    requires forall p :: p in matches ==> Less(p, merged[n].0)
    requires q !in matches && Wanted(merged, |merged|, wanted, q)
    ensures forall p :: p in matches ==> Less(p, q)
  {
    var k :| 0 <= k < |merged| && merged[k].0 == q && wanted(merged[k]);
    assert k >= n;
    if k > n {
      assert Precedes(merged[n], merged[k]);
      forall p | p in matches
        ensures Less(p, q)
      {
        if Less(merged[n].0, q) { Transitive(p, merged[n].0, q); }
      }
    }
  }
}
