/** What the walk lists, and in what order: each file it reaches once, by its full path below the root. */
module WalkOrder {
  import opened Options
  import opened Lexicographic
  import opened DirectoryWalk

  predicate IncreasingPaths(paths: seq<string>) {
    forall i, j :: 0 <= i < j < |paths| ==> Less(paths[i], paths[j])
  }

  /** What stands before the names of a directory's entries. */
  function Start(relative: string): string { if relative == "" then "" else relative + "/" }

  /** The path through the named directories. */
  function Under(relative: string, path: seq<string>): string
    decreases path
  {
    if path == [] then relative else Under(Below(relative, path[0]), path[1..])
  }

  /** A path leads to a file: through directories, past no skipped name. */
  ghost predicate Reaches(entries: seq<Entry>, path: seq<string>, hidden: bool, others: bool)
    decreases path
  {
    path != [] && exists e :: e in entries && Leads(e, path, hidden, others)
  }

  ghost predicate Leads(e: Entry, path: seq<string>, hidden: bool, others: bool)
    requires path != []
    decreases path, 0
  {
    && e.name == path[0]
    && e.name != ".git" && (hidden || e.name == "" || e.name[0] != '.')
    && if |path| == 1 then e.File? || (e.Other? && others) else e.Folder? && Reaches(e.children, path[1..], hidden, others)
  }

  predicate ProperAll(entries: seq<Entry>) {
    forall e :: e in entries ==> e.name != "" && e.name != "." && '/' !in e.name && (e.Folder? ==> Proper(e.children))
  }

  lemma KeptProper(entries: seq<Entry>, hidden: bool)
    requires Proper(entries)
    ensures ProperAll(Sorted(Kept(entries, hidden, None))) && Increasing(Sorted(Kept(entries, hidden, None)))
    ensures forall e :: e in Sorted(Kept(entries, hidden, None)) <==> e in entries && !Skipped(e.name, hidden)
  {
    ProperKeys(entries);
    KeptDistinct(entries, hidden, None);
    SortedIncreasing(Kept(entries, hidden, None));
    forall e
      ensures e in Sorted(Kept(entries, hidden, None)) <==> e in entries && !Skipped(e.name, hidden)
    {
      KeptMembers(entries, hidden, None, e);
    }
    forall e | e in entries
      ensures e.name != "" && e.name != "." && '/' !in e.name && (e.Folder? ==> Proper(e.children))
    {
      ProperMember(entries, e);
    }
  }

  /** A directory's key is no beginning of another entry's, as a slash ends both. */
  lemma SlashEnds(a: Entry, b: Entry)
    requires a.Folder? && '/' !in a.name && '/' !in b.name && Less(Key(a), Key(b))
    ensures !IsPrefix(Key(a), Key(b))
  {
    if IsPrefix(Key(a), Key(b)) {
      PrefixAt(Key(a), Key(b), |a.name|);
      assert Key(a)[|a.name|] == '/';
      assert b.Folder? && |b.name| == |a.name|;
      forall k | 0 <= k < |Key(a)|
        ensures Key(a)[k] == Key(b)[k]
      {
        PrefixAt(Key(a), Key(b), k);
      }
      assert Key(a) == Key(b);
      Irreflexive(Key(a));
    }
  }

  /** All below one entry comes before all below a later one. */
  lemma EntriesInOrder(a: Entry, x: string, b: Entry, y: string)
    requires '/' !in a.name && '/' !in b.name && Less(Key(a), Key(b)) && (a.Folder? || x == "")
    ensures Less(Key(a) + x, Key(b) + y)
  {
    if a.Folder? {
      SlashEnds(a, b);
      Extended(Key(a), x, Key(b), y);
    } else {
      BeforeExtended(Key(a), Key(b), y);
      assert Key(a) + x == Key(a);
    }
  }

  lemma StartBelow(relative: string, e: Entry)
    requires e.name != ""
    ensures Below(relative, e.name) == Start(relative) + e.name
    ensures e.Folder? ==> Start(Below(relative, e.name)) == Start(relative) + Key(e)
  {
    if relative != "" { assert relative + "/" + e.name == (relative + "/") + e.name; }
    if e.Folder? { assert Start(relative) + e.name + "/" == Start(relative) + (e.name + "/"); }
  }

  ghost predicate Continues(path: string, before: string) { exists rest :: path == before + rest }

  /** Everything below a directory starts with its path; everything of an entry, with its key. */
  lemma {:induction false} FilesContinue(entries: seq<Entry>, relative: string, hidden: bool, others: bool, depth: nat, p: string)
    requires ProperAll(entries) && (forall e :: e in entries ==> HeightOf(e) <= depth)
    requires p in FilesOf(entries, relative, hidden, others, depth)
    ensures Continues(p, Start(relative))
    decreases depth, |entries|
  {
    if p in FilesAt(entries[0], relative, hidden, others, depth) {
      FilesAtContinue(entries[0], relative, hidden, others, depth, p);
      var rest :| p == Start(relative) + Key(entries[0]) + rest && (entries[0].Folder? || rest == "");
      assert p == Start(relative) + (Key(entries[0]) + rest);
    } else {
      FilesContinue(entries[1..], relative, hidden, others, depth, p);
    }
  }

  lemma {:induction false} FilesAtContinue(e: Entry, relative: string, hidden: bool, others: bool, depth: nat, p: string)
    requires ProperAll([e]) && HeightOf(e) <= depth && p in FilesAt(e, relative, hidden, others, depth)
    ensures exists rest :: p == Start(relative) + Key(e) + rest && (e.Folder? || rest == "")
    decreases depth, 0
  {
    assert e in [e];
    StartBelow(relative, e);
    if e.Folder? {
      KeptProper(e.children, hidden);
      SortedWithin(e.children, hidden, depth - 1);
      FilesContinue(Sorted(Kept(e.children, hidden, None)), Below(relative, e.name), hidden, others, depth - 1, p);
    } else {
      assert p == Start(relative) + Key(e) + "";
    }
  }

  /** A file found among entries is found at one of them. */
  lemma {:induction false} FoundAt(entries: seq<Entry>, relative: string, hidden: bool, others: bool, depth: nat, p: string)
    requires forall e :: e in entries ==> HeightOf(e) <= depth
    ensures p in FilesOf(entries, relative, hidden, others, depth) <==>
              exists e :: e in entries && p in FilesAt(e, relative, hidden, others, depth)
    decreases |entries|
  {
    if entries != [] {
      FoundAt(entries[1..], relative, hidden, others, depth, p);
      assert entries[0] in entries;
      forall e | e in entries
        ensures e == entries[0] || e in entries[1..]
      {
        var k :| 0 <= k < |entries| && entries[k] == e;
        if k > 0 { assert entries[1..][k - 1] == e; }
      }
    }
  }

  lemma EntriesApart(a: Entry, b: Entry, relative: string, hidden: bool, others: bool, depth: nat, p: string, q: string)
    requires ProperAll([a]) && ProperAll([b]) && HeightOf(a) <= depth && HeightOf(b) <= depth && Less(Key(a), Key(b))
    requires p in FilesAt(a, relative, hidden, others, depth) && q in FilesAt(b, relative, hidden, others, depth)
    ensures Less(p, q)
  {
    hide FilesAt, HeightOf, Key;
    assert a in [a] && b in [b];
    FilesAtContinue(a, relative, hidden, others, depth, p);
    FilesAtContinue(b, relative, hidden, others, depth, q);
    var x :| p == Start(relative) + Key(a) + x && (a.Folder? || x == "");
    var y :| q == Start(relative) + Key(b) + y && (b.Folder? || y == "");
    EntriesInOrder(a, x, b, y);
    assert p == Start(relative) + (Key(a) + x) && q == Start(relative) + (Key(b) + y);
    Prefixed(Start(relative), Key(a) + x, Key(b) + y);
  }

  lemma IncreasingConcat(some: seq<string>, more: seq<string>)
    requires IncreasingPaths(some) && IncreasingPaths(more)
    requires forall p, q :: p in some && q in more ==> Less(p, q)
    ensures IncreasingPaths(some + more)
  {
  }

  lemma EntryBeforeRest(e: Entry, rest: seq<Entry>, relative: string, hidden: bool, others: bool, depth: nat)
    requires ProperAll([e] + rest) && Increasing([e] + rest) && forall f :: f in [e] + rest ==> HeightOf(f) <= depth
    ensures HeightOf(e) <= depth && forall f :: f in rest ==> HeightOf(f) <= depth
    ensures forall p, q :: p in FilesAt(e, relative, hidden, others, depth) && q in FilesOf(rest, relative, hidden, others, depth) ==>
                             Less(p, q)
  {
    hide FilesOf, FilesAt, HeightOf, Key;
    var all := [e] + rest;
    assert e == all[0] && forall i :: 0 <= i < |rest| ==> rest[i] == all[i + 1];
    forall p, q | p in FilesAt(e, relative, hidden, others, depth) && q in FilesOf(rest, relative, hidden, others, depth)
      ensures Less(p, q)
    {
      FoundAt(rest, relative, hidden, others, depth, q);
      var f :| f in rest && q in FilesAt(f, relative, hidden, others, depth);
      EntriesApart(e, f, relative, hidden, others, depth, p, q);
    }
  }

  lemma FilesOfSplit(entries: seq<Entry>, relative: string, hidden: bool, others: bool, depth: nat)
    requires entries != [] && ProperAll(entries) && Increasing(entries) && forall e :: e in entries ==> HeightOf(e) <= depth
    ensures HeightOf(entries[0]) <= depth && forall f :: f in entries[1..] ==> HeightOf(f) <= depth
    ensures FilesOf(entries, relative, hidden, others, depth) ==
              FilesAt(entries[0], relative, hidden, others, depth) + FilesOf(entries[1..], relative, hidden, others, depth)
    ensures ProperAll(entries[1..]) && Increasing(entries[1..]) && ProperAll([entries[0]])
  {
    hide HeightOf, Key, FilesAt;
    assert entries[0] in entries;
  }

  /** Depth-first order is the order of the full paths. */
  lemma {:induction false} FilesIncreasing(entries: seq<Entry>, relative: string, hidden: bool, others: bool, depth: nat)
    requires ProperAll(entries) && Increasing(entries) && forall e :: e in entries ==> HeightOf(e) <= depth
    ensures IncreasingPaths(FilesOf(entries, relative, hidden, others, depth))
    decreases depth, |entries|
  {
    if entries != [] {
      hide FilesOf, FilesAt, HeightOf, IncreasingPaths, ProperAll, Increasing;
      var e, rest := entries[0], entries[1..];
      FilesOfSplit(entries, relative, hidden, others, depth);
      FilesIncreasing(rest, relative, hidden, others, depth);
      EntryIncreasing(e, relative, hidden, others, depth);
      assert entries == [e] + rest;
      EntryBeforeRest(e, rest, relative, hidden, others, depth);
      IncreasingConcat(FilesAt(e, relative, hidden, others, depth), FilesOf(rest, relative, hidden, others, depth));
    }
  }

  lemma {:induction false} EntryIncreasing(e: Entry, relative: string, hidden: bool, others: bool, depth: nat)
    requires ProperAll([e]) && HeightOf(e) <= depth
    ensures IncreasingPaths(FilesAt(e, relative, hidden, others, depth))
    decreases depth, 0
  {
    if e.Folder? {
      assert e in [e];
      KeptProper(e.children, hidden);
      SortedWithin(e.children, hidden, depth - 1);
      FilesIncreasing(Sorted(Kept(e.children, hidden, None)), Below(relative, e.name), hidden, others, depth - 1);
    }
  }

  lemma WalkIncreasing(entries: seq<Entry>, relative: string, hidden: bool, others: bool, depth: nat)
    requires Proper(entries) && Height(entries) <= depth
    ensures IncreasingPaths(Walk(entries, relative, hidden, others, depth))
  {
    KeptProper(entries, hidden);
    SortedWithin(entries, hidden, depth);
    FilesIncreasing(Sorted(Kept(entries, hidden, None)), relative, hidden, others, depth);
  }

  /** No path of the walk below the root is empty or `.`. */
  lemma WalkNames(entries: seq<Entry>, hidden: bool, others: bool, depth: nat, p: string)
    requires Proper(entries) && Height(entries) <= depth && p in Walk(entries, "", hidden, others, depth)
    ensures p != "" && p != "."
  {
    hide Proper, Height, FilesOf, FilesAt, Sorted, Kept;
    var all := Sorted(Kept(entries, hidden, None));
    KeptProper(entries, hidden);
    SortedWithin(entries, hidden, depth);
    FoundAt(all, "", hidden, others, depth, p);
    var e :| e in all && p in FilesAt(e, "", hidden, others, depth);
    FilesAtContinue(e, "", hidden, others, depth, p);
    var rest :| p == Start("") + Key(e) + rest && (e.Folder? || rest == "");
    if e.Folder? { assert p[|e.name|] == '/' && |p| > |e.name| > 0; }
  }

  /** The walk lists exactly the paths that lead to a file. */
  lemma {:induction false} WalkLists(entries: seq<Entry>, relative: string, hidden: bool, others: bool, depth: nat, p: string)
    requires Proper(entries) && Height(entries) <= depth
    ensures p in Walk(entries, relative, hidden, others, depth) <==>
              exists path :: Reaches(entries, path, hidden, others) && p == Under(relative, path)
    decreases depth, 1
  {
    hide Proper, Height, FilesOf, FilesAt, Sorted, Kept, Under;
    var all := Sorted(Kept(entries, hidden, None));
    KeptProper(entries, hidden);
    SortedWithin(entries, hidden, depth);
    FoundAt(all, relative, hidden, others, depth, p);
    forall e | e in all
      ensures p in FilesAt(e, relative, hidden, others, depth) <==> FoundVia(e, relative, hidden, others, p)
    {
      EntryLists(e, relative, hidden, others, depth, p);
    }
    forall path | Reaches(entries, path, hidden, others) && p == Under(relative, path)
      ensures p in Walk(entries, relative, hidden, others, depth)
    {
      var e :| e in entries && Leads(e, path, hidden, others);
      assert e in all && FoundVia(e, relative, hidden, others, p);
    }
    if p in Walk(entries, relative, hidden, others, depth) {
      var e :| e in all && p in FilesAt(e, relative, hidden, others, depth);
      var path :| path != [] && Leads(e, path, hidden, others) && p == Under(relative, path);
      assert Reaches(entries, path, hidden, others);
    }
  }

  /** A path below a directory is its name and then a path below its children. */
  lemma LeadsBelow(e: Entry, path: seq<string>, relative: string, hidden: bool, others: bool)
    requires e.Folder? && path != [] && Leads(e, path, hidden, others)
    ensures Reaches(e.children, path[1..], hidden, others) && Under(relative, path) == Under(Below(relative, e.name), path[1..])
  {
  }

  lemma LeadsFrom(e: Entry, rest: seq<string>, relative: string, hidden: bool, others: bool)
    requires e.Folder? && !Skipped(e.name, hidden) && Reaches(e.children, rest, hidden, others)
    ensures Leads(e, [e.name] + rest, hidden, others) && Under(relative, [e.name] + rest) == Under(Below(relative, e.name), rest)
  {
    assert ([e.name] + rest)[1..] == rest;
  }

  lemma LeadsTo(e: Entry, path: seq<string>, relative: string, hidden: bool, others: bool)
    requires !e.Folder? && path != []
    ensures Leads(e, path, hidden, others) <==> path == [e.name] && !Skipped(e.name, hidden) && (e.File? || others)
    ensures Under(relative, [e.name]) == Below(relative, e.name)
  {
    assert |path| == 1 ==> path == [path[0]];
  }

  ghost predicate FoundVia(e: Entry, relative: string, hidden: bool, others: bool, p: string) {
    exists path :: path != [] && Leads(e, path, hidden, others) && p == Under(relative, path)
  }

  lemma {:induction false} EntryLists(e: Entry, relative: string, hidden: bool, others: bool, depth: nat, p: string)
    requires ProperAll([e]) && HeightOf(e) <= depth && !Skipped(e.name, hidden)
    ensures p in FilesAt(e, relative, hidden, others, depth) <==> FoundVia(e, relative, hidden, others, p)
    decreases depth, 0
  {
    hide Proper, Height, FilesOf, Sorted, Kept, Skipped, Leads, Reaches, Under;
    assert e in [e];
    if e.Folder? {
      WalkLists(e.children, Below(relative, e.name), hidden, others, depth - 1, p);
      assert FilesAt(e, relative, hidden, others, depth) == Walk(e.children, Below(relative, e.name), hidden, others, depth - 1);
      if p in FilesAt(e, relative, hidden, others, depth) {
        var rest :| Reaches(e.children, rest, hidden, others) && p == Under(Below(relative, e.name), rest);
        LeadsFrom(e, rest, relative, hidden, others);
        assert p == Under(relative, [e.name] + rest);
      }
      if FoundVia(e, relative, hidden, others, p) {
        var path :| path != [] && Leads(e, path, hidden, others) && p == Under(relative, path);
        LeadsBelow(e, path, relative, hidden, others);
        assert p in FilesAt(e, relative, hidden, others, depth);
      }
    } else {
      LeadsTo(e, [e.name], relative, hidden, others);
      if FoundVia(e, relative, hidden, others, p) {
        var path :| path != [] && Leads(e, path, hidden, others) && p == Under(relative, path);
        LeadsTo(e, path, relative, hidden, others);
      }
    }
  }
}
