/** The remote runner's search walk: directories read in bounded pages, in the order of full relative paths. */
module DirectoryWalk {
  import opened Options
  import opened Lexicographic

  /** `Other`: neither a regular file nor a directory. `children` comes in whatever order the directory is read. */
  datatype Entry =
    | File(name: string)
    | Folder(name: string, children: seq<Entry>)
    | Other(name: string)

  /** The sort key: the name, with a slash behind that of a directory. */
  function Key(e: Entry): string { if e.Folder? then e.name + "/" else e.name }

  /** Names within a directory are distinct, neither empty nor `.`, and have no slash; so on down the tree. */
  predicate Proper(entries: seq<Entry>) {
    && (forall i, j :: 0 <= i < j < |entries| ==> entries[i].name != entries[j].name)
    && (forall i :: 0 <= i < |entries| ==>
          && entries[i].name != "" && entries[i].name != "." && '/' !in entries[i].name
          && (entries[i].Folder? ==> Proper(entries[i].children)))
  }

  /** `should_skip_search_entry`. */
  predicate Skipped(name: string, hidden: bool) { name == ".git" || (!hidden && name != "" && name[0] == '.') }

  function Kept(entries: seq<Entry>, hidden: bool, after: Option<string>): seq<Entry> {
    if entries == [] then [] else
      (if Skipped(entries[0].name, hidden) || (after.Some? && !Less(after.value, Key(entries[0]))) then [] else [entries[0]])
      + Kept(entries[1..], hidden, after)
  }

  function Insert(e: Entry, sorted: seq<Entry>): seq<Entry> {
    if sorted == [] || Less(Key(e), Key(sorted[0])) then [e] + sorted else [sorted[0]] + Insert(e, sorted[1..])
  }

  function Sorted(entries: seq<Entry>): seq<Entry> {
    if entries == [] then [] else Insert(entries[0], Sorted(entries[1..]))
  }

  /** `select_directory_entries`: of the entries with a later key, the `limit` smallest, in order. */
  function SelectEntries(entries: seq<Entry>, limit: int, hidden: bool, after: Option<string>): seq<Entry> {
    if limit <= 0 then [] else
      var all := Sorted(Kept(entries, hidden, after));
      if |all| <= limit then all else all[..limit]
  }

  predicate Increasing(sorted: seq<Entry>) {
    forall i, j :: 0 <= i < j < |sorted| ==> Less(Key(sorted[i]), Key(sorted[j]))
  }

  predicate DistinctKeys(entries: seq<Entry>) {
    forall i, j :: 0 <= i < j < |entries| ==> Key(entries[i]) != Key(entries[j])
  }

  lemma KeysDiffer(a: Entry, b: Entry)
    requires a.name != b.name && '/' !in a.name && '/' !in b.name
    ensures Key(a) != Key(b)
  {
    if a.Folder? && b.Folder? {
      assert Key(a)[..|a.name|] == a.name && Key(b)[..|b.name|] == b.name;
    } else if a.Folder? {
      assert Key(a)[|a.name|] == '/';
    } else if b.Folder? {
      assert Key(b)[|b.name|] == '/';
    }
  }

  lemma ProperKeys(entries: seq<Entry>)
    requires Proper(entries)
    ensures DistinctKeys(entries)
  {
    forall i, j | 0 <= i < j < |entries|
      ensures Key(entries[i]) != Key(entries[j])
    {
      KeysDiffer(entries[i], entries[j]);
    }
  }

  lemma {:induction false} KeptMembers(entries: seq<Entry>, hidden: bool, after: Option<string>, e: Entry)
    ensures e in Kept(entries, hidden, after) <==>
              e in entries && !Skipped(e.name, hidden) && (after.Some? ==> Less(after.value, Key(e)))
  {
    if entries != [] { KeptMembers(entries[1..], hidden, after, e); }
  }

  lemma {:induction false} KeptDistinct(entries: seq<Entry>, hidden: bool, after: Option<string>)
    requires DistinctKeys(entries)
    ensures DistinctKeys(Kept(entries, hidden, after))
  {
    if entries != [] {
      KeptDistinct(entries[1..], hidden, after);
      forall e | e in Kept(entries[1..], hidden, after)
        ensures Key(e) != Key(entries[0])
      {
        KeptMembers(entries[1..], hidden, after, e);
        var j :| 0 <= j < |entries[1..]| && entries[1..][j] == e;
        assert entries[j + 1] == e;
      }
    }
  }

  lemma {:induction false} InsertMembers(e: Entry, sorted: seq<Entry>, x: Entry)
    ensures x in Insert(e, sorted) <==> x == e || x in sorted
  {
    if sorted != [] && !Less(Key(e), Key(sorted[0])) { InsertMembers(e, sorted[1..], x); }
  }

  lemma {:induction false} InsertIncreasing(e: Entry, sorted: seq<Entry>)
    requires Increasing(sorted) && forall x :: x in sorted ==> Key(x) != Key(e)
    ensures Increasing(Insert(e, sorted))
  {
    if sorted != [] {
      if Less(Key(e), Key(sorted[0])) {
        forall j | 0 < j < |sorted|
          ensures Less(Key(e), Key(sorted[j]))
        {
          Transitive(Key(e), Key(sorted[0]), Key(sorted[j]));
        }
      } else {
        InsertIncreasing(e, sorted[1..]);
        Total(Key(e), Key(sorted[0]));
        var rest := Insert(e, sorted[1..]);
        forall j | 0 <= j < |rest|
          ensures Less(Key(sorted[0]), Key(rest[j]))
        {
          InsertMembers(e, sorted[1..], rest[j]);
        }
      }
    }
  }

  /** Sorting gives the same entries, in strictly increasing order of their keys. */
  lemma {:induction false} SortedIncreasing(entries: seq<Entry>)
    requires DistinctKeys(entries)
    ensures Increasing(Sorted(entries)) && forall x :: x in Sorted(entries) <==> x in entries
  {
    if entries != [] {
      SortedIncreasing(entries[1..]);
      forall x | x in Sorted(entries[1..])
        ensures Key(x) != Key(entries[0])
      {
        var j :| 0 <= j < |entries[1..]| && entries[1..][j] == x;
        assert entries[j + 1] == x;
      }
      InsertIncreasing(entries[0], Sorted(entries[1..]));
      forall x
        ensures x in Sorted(entries) <==> x in entries
      {
        InsertMembers(entries[0], Sorted(entries[1..]), x);
      }
    }
  }

  /** There is one strictly increasing list of a set of entries. */
  lemma {:induction false} IncreasingUnique(some: seq<Entry>, other: seq<Entry>)
    requires Increasing(some) && Increasing(other) && forall x :: x in some <==> x in other
    ensures some == other
    decreases |some|
  {
    if some == [] {
      if other != [] { HasMember(other); }
    } else {
      assert some[0] in other && other != [];
      assert other[0] in some;
      LeastFirst(some, other[0]);
      LeastFirst(other, some[0]);
      SameFirst(some, other);
      forall x
        ensures x in some[1..] <==> x in other[1..]
      {
        TailMembers(some, x);
        TailMembers(other, x);
      }
      IncreasingUnique(some[1..], other[1..]);
    }
  }

  lemma HasMember(entries: seq<Entry>)
    requires entries != []
    ensures exists x :: x in entries
  {
    assert entries[0] in entries;
  }

  lemma LeastFirst(sorted: seq<Entry>, x: Entry)
    requires Increasing(sorted) && x in sorted
    ensures sorted[0] == x || Less(Key(sorted[0]), Key(x))
  {
  }

  lemma SameFirst(some: seq<Entry>, other: seq<Entry>)
    requires some != [] && other != []
    requires some[0] == other[0] || Less(Key(some[0]), Key(other[0]))
    requires other[0] == some[0] || Less(Key(other[0]), Key(some[0]))
    ensures some[0] == other[0]
  {
    if some[0] != other[0] {
      Transitive(Key(some[0]), Key(other[0]), Key(some[0]));
      Irreflexive(Key(some[0]));
    }
  }

  lemma TailMembers(sorted: seq<Entry>, x: Entry)
    requires Increasing(sorted) && sorted != []
    ensures x in sorted[1..] <==> x in sorted && x != sorted[0]
  {
    Irreflexive(Key(sorted[0]));
    if x in sorted && x != sorted[0] {
      var j :| 0 <= j < |sorted| && sorted[j] == x;
      assert sorted[1..][j - 1] == x;
    }
  }

  /** The whole directory in order, and what the page after the first `i` entries holds: the next `limit` of them. */
  lemma PageIs(entries: seq<Entry>, limit: int, hidden: bool, i: nat)
    requires Proper(entries) && limit > 0 && i <= |Sorted(Kept(entries, hidden, None))|
    ensures var all := Sorted(Kept(entries, hidden, None));
            var page := SelectEntries(entries, limit, hidden, if i == 0 then None else Some(Key(all[i - 1])));
            page == if i + limit <= |all| then all[i..i + limit] else all[i..]
  {
    hide Proper, Increasing;
    var kept := Kept(entries, hidden, None);
    var all := Sorted(kept);
    var after := if i == 0 then None else Some(Key(all[i - 1]));
    var later := Kept(entries, hidden, after);
    ProperKeys(entries);
    KeptDistinct(entries, hidden, None);
    KeptDistinct(entries, hidden, after);
    SortedIncreasing(kept);
    SortedIncreasing(later);
    IncreasingTail(all, i);
    forall x
      ensures x in all[i..] <==> x in Sorted(later)
    {
      KeptMembers(entries, hidden, None, x);
      KeptMembers(entries, hidden, after, x);
      if i == 0 { assert all[i..] == all; } else { AfterMembers(all, i, x); }
    }
    IncreasingUnique(all[i..], Sorted(later));
  }

  lemma IncreasingTail(sorted: seq<Entry>, i: nat)
    requires Increasing(sorted) && i <= |sorted|
    ensures Increasing(sorted[i..])
  {
  }

  lemma AfterMembers(sorted: seq<Entry>, i: nat, x: Entry)
    requires Increasing(sorted) && 0 < i <= |sorted|
    ensures x in sorted[i..] <==> x in sorted && Less(Key(sorted[i - 1]), Key(x))
  {
    if x in sorted[i..] {
      var j :| 0 <= j < |sorted[i..]| && sorted[i..][j] == x;
      assert sorted[i + j] == x;
    }
    if x in sorted && Less(Key(sorted[i - 1]), Key(x)) {
      var j :| 0 <= j < |sorted| && sorted[j] == x;
      if j < i {
        Irreflexive(Key(x));
        if j < i - 1 { Transitive(Key(x), Key(sorted[i - 1]), Key(x)); }
      } else {
        assert sorted[i..][j - i] == x;
      }
    }
  }

  /** How deep the tree goes. */
  function Height(entries: seq<Entry>): nat
    decreases entries
  {
    if entries == [] then 0 else
      var first := HeightOf(entries[0]);
      var rest := Height(entries[1..]);
      if first < rest then rest else first
  }

  function HeightOf(e: Entry): nat
    decreases e
  {
    if e.Folder? then 1 + Height(e.children) else 0
  }

  lemma {:induction false} HeightMember(entries: seq<Entry>, e: Entry)
    requires e in entries
    ensures HeightOf(e) <= Height(entries)
  {
    if e != entries[0] { HeightMember(entries[1..], e); }
  }

  function Below(relative: string, name: string): string { if relative == "" then name else relative + "/" + name }

  /** The files of entries taken in order, a directory's files at its place. `depth` is how far the tree goes down. */
  ghost function FilesOf(entries: seq<Entry>, relative: string, hidden: bool, others: bool, depth: nat): seq<string>
    requires forall e :: e in entries ==> HeightOf(e) <= depth
    decreases depth, |entries|
  {
    if entries == [] then [] else
      FilesAt(entries[0], relative, hidden, others, depth) + FilesOf(entries[1..], relative, hidden, others, depth)
  }

  ghost function FilesAt(e: Entry, relative: string, hidden: bool, others: bool, depth: nat): seq<string>
    requires HeightOf(e) <= depth
    decreases depth, 0
  {
    match e
    case File(name) => [Below(relative, name)]
    case Other(name) => if others then [Below(relative, name)] else []
    case Folder(name, children) =>
      if Proper(children) then
        SortedWithin(children, hidden, depth - 1);
        FilesOf(Sorted(Kept(children, hidden, None)), Below(relative, name), hidden, others, depth - 1)
      else []
  }

  lemma SortedWithin(entries: seq<Entry>, hidden: bool, depth: nat)
    requires Proper(entries) && Height(entries) <= depth
    ensures forall e :: e in Sorted(Kept(entries, hidden, None)) ==> e in entries && HeightOf(e) <= depth
  {
    ProperKeys(entries);
    KeptDistinct(entries, hidden, None);
    SortedIncreasing(Kept(entries, hidden, None));
    forall e | e in Sorted(Kept(entries, hidden, None))
      ensures e in entries && HeightOf(e) <= depth
    {
      KeptMembers(entries, hidden, None, e);
      HeightMember(entries, e);
    }
  }

  /** The walk of a directory, without pages: all its entries in the order of their keys. */
  ghost function Walk(entries: seq<Entry>, relative: string, hidden: bool, others: bool, depth: nat): seq<string>
    requires Proper(entries) && Height(entries) <= depth
  {
    SortedWithin(entries, hidden, depth);
    FilesOf(Sorted(Kept(entries, hidden, None)), relative, hidden, others, depth)
  }

  lemma {:induction false} FilesConcat(xs: seq<Entry>, ys: seq<Entry>, relative: string, hidden: bool, others: bool, depth: nat)
    requires forall e :: e in xs + ys ==> HeightOf(e) <= depth
    ensures (forall e :: e in xs ==> e in xs + ys) && (forall e :: e in ys ==> e in xs + ys)
    ensures FilesOf(xs + ys, relative, hidden, others, depth) ==
              FilesOf(xs, relative, hidden, others, depth) + FilesOf(ys, relative, hidden, others, depth)
    decreases |xs|
  {
    assert (forall e :: e in xs ==> e in xs + ys) && (forall e :: e in ys ==> e in xs + ys);
    if xs == [] {
      assert xs + ys == ys;
    } else {
      assert (xs + ys)[1..] == xs[1..] + ys;
      FilesConcat(xs[1..], ys, relative, hidden, others, depth);
    }
  }

  /** `walk_directory`: page by page, resuming after the last key of the page before. `others`: entries are not validated. */
  method WalkDirectory(entries: seq<Entry>, relative: string, limit: nat, hidden: bool, others: bool, ghost depth: nat) returns (files: seq<string>)
    requires Proper(entries) && Height(entries) <= depth && limit > 0
    ensures files == Walk(entries, relative, hidden, others, depth)
    decreases depth, 1
  {
    hide Proper, FilesOf, Height, HeightOf, Sorted, Kept, SelectEntries;
    ghost var all := Sorted(Kept(entries, hidden, None));
    SortedWithin(entries, hidden, depth);
    files := [];
    var after: Option<string> := None;
    ghost var i := 0;
    NoFiles(relative, hidden, others, depth);
    while true
      invariant 0 <= i <= |all| && after == (if i == 0 then None else Some(Key(all[i - 1])))
      invariant files == FilesOf(all[..i], relative, hidden, others, depth)
      decreases |all| - i
    {
      PageIs(entries, limit, hidden, i);
      var page := SelectEntries(entries, limit, hidden, after);
      assert i == 0 ==> all[..i] == [];
      if |page| == 0 {
        assert all[..i] == all;
        return;
      }
      assert page == all[i..i + |page|];
      PageMembers(all, i, |page|);
      var found := WalkPage(page, relative, limit, hidden, others, entries, depth);
      assert all[..i + |page|] == all[..i] + page;
      FilesConcat(all[..i], page, relative, hidden, others, depth);
      files := files + found;
      i := i + |page|;
      if |page| < limit {
        assert all[..i] == all;
        return;
      }
      after := Some(Key(page[|page| - 1]));
    }
  }

  lemma NoFiles(relative: string, hidden: bool, others: bool, depth: nat)
    ensures FilesOf([], relative, hidden, others, depth) == []
  {
  }

  lemma PageMembers(all: seq<Entry>, i: nat, n: nat)
    requires i + n <= |all|
    ensures forall e :: e in all[i..i + n] ==> e in all
    ensures forall e :: e in all[..i] ==> e in all
    ensures forall e :: e in all[..i + n] ==> e in all
  {
  }

  lemma ProperMember(entries: seq<Entry>, e: Entry)
    requires Proper(entries) && e in entries
    ensures e.name != "" && e.name != "." && '/' !in e.name && (e.Folder? ==> Proper(e.children))
  {
  }

  /** The entries of one page. */
  method WalkPage(page: seq<Entry>, relative: string, limit: nat, hidden: bool, others: bool, ghost entries: seq<Entry>, ghost depth: nat)
    returns (files: seq<string>)
    requires Proper(entries) && limit > 0 && forall e :: e in page ==> e in entries && HeightOf(e) <= depth
    ensures files == FilesOf(page, relative, hidden, others, depth)
    decreases depth, 0
  {
    hide Proper, Height, Sorted, Kept, FilesOf;
    files := [];
    NoFiles(relative, hidden, others, depth);
    for k := 0 to |page|
      invariant (forall e :: e in page[..k] ==> e in page) && files == FilesOf(page[..k], relative, hidden, others, depth)
    {
      var e := page[k];
      assert e in page;
      ProperMember(entries, e);
      assert page[..k + 1] == page[..k] + [e];
      FilesConcat(page[..k], [e], relative, hidden, others, depth);
      OneEntry(e, relative, hidden, others, depth);
      var rel := if relative == "" then e.name else relative + "/" + e.name;
      match e {
        case Folder(_, children) =>
          var below := WalkDirectory(children, rel, limit, hidden, others, depth - 1);
          files := files + below;
        case File(_) => files := files + [rel];
        case Other(_) => if others { files := files + [rel]; }
      }
    }
    assert page[..|page|] == page;
  }

  lemma OneEntry(e: Entry, relative: string, hidden: bool, others: bool, depth: nat)
    requires HeightOf(e) <= depth
    ensures FilesOf([e], relative, hidden, others, depth) == FilesAt(e, relative, hidden, others, depth)
  {
    assert [e][1..] == [];
  }
}
