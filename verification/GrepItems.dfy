/** What a search's output says by itself: which lines, in what order, and where the separators stand. */
module GrepItems {
  import opened GrepWindows

  /** Within a group the lines follow each other; a separator stands between two lines with others left out between them. */
  ghost predicate Grouped(items: seq<Item>) {
    forall i :: 0 <= i < |items| ==> StandsWell(items, i)
  }

  predicate StandsWell(items: seq<Item>, i: nat)
    requires i < |items|
  {
    match items[i]
    case Separator =>
      && 0 < i < |items| - 1 && items[i - 1].Line? && items[i + 1].Line? && items[i + 1].index > items[i - 1].index + 1
    case Line(k, _) => i + 1 < |items| && items[i + 1].Line? ==> items[i + 1].index == k + 1
  }

  /** The lines are those within the context of a match, and only they. */
  ghost predicate Covers(matched: seq<bool>, c: Context, n: nat, items: seq<Item>)
    requires n <= |matched|
  {
    forall k: nat, isMatch :: Line(k, isMatch) in items <==>
      k < n && isMatch == matched[k] && exists m :: 0 <= m < |matched| && matched[m] && m - c.before <= k <= m + c.after
  }

  /** The last line shown of the first `n`, or -1. */
  ghost predicate Last(matched: seq<bool>, c: Context, n: nat, items: seq<Item>, last: int)
    requires n <= |matched|
  {
    && -1 <= last < n && (forall k :: last < k < n ==> !Shown(matched, c, k))
    && if last == -1 then items == [] else items != [] && items[|items| - 1] == Line(last, matched[last]) && Shown(matched, c, last)
  }

  lemma {:induction false} UpToMeans(matched: seq<bool>, c: Context, n: nat) returns (last: int)
    requires n <= |matched|
    ensures var items := ItemsUpTo(matched, c, n); Grouped(items) && Covers(matched, c, n, items) && Last(matched, c, n, items, last)
    decreases n
  {
    hide *;
    if n == 0 {
      last := -1;
      NothingYet(matched, c);
    } else {
      var before := UpToMeans(matched, c, n - 1);
      CoversNext(matched, c, n - 1);
      last := LastNext(matched, c, n - 1, before);
    }
  }

  lemma NothingYet(matched: seq<bool>, c: Context)
    ensures var items := ItemsUpTo(matched, c, 0); Grouped(items) && Covers(matched, c, 0, items) && Last(matched, c, 0, items, -1)
  {
  }

  lemma LastNext(matched: seq<bool>, c: Context, k: nat, before: int) returns (last: int)
    requires k < |matched| && Last(matched, c, k, ItemsUpTo(matched, c, k), before) && Grouped(ItemsUpTo(matched, c, k))
    ensures Last(matched, c, k + 1, ItemsUpTo(matched, c, k + 1), last) && Grouped(ItemsUpTo(matched, c, k + 1))
  {
    hide Grouped, Shown;
    var items, added := ItemsUpTo(matched, c, k), ItemsAt(matched, c, k);
    assert ItemsUpTo(matched, c, k + 1) == items + added;
    if Shown(matched, c, k) {
      last := k;
      assert ShownBefore(matched, c, k) <==> items != [];
      assert items != [] ==> (Shown(matched, c, k - 1) <==> before == k - 1);
      GroupedNext(items, before, added, k, matched[k]);
    } else {
      last := before;
      assert items + added == items;
    }
  }

  lemma CoversNext(matched: seq<bool>, c: Context, k: nat)
    requires k < |matched| && Covers(matched, c, k, ItemsUpTo(matched, c, k))
    ensures Covers(matched, c, k + 1, ItemsUpTo(matched, c, k + 1))
  {
    var items, added := ItemsUpTo(matched, c, k), ItemsAt(matched, c, k);
    forall j, isMatch
      ensures Line(j, isMatch) in items + added <==> Line(j, isMatch) in items || (j == k && isMatch == matched[k] && Shown(matched, c, k))
    {
    }
  }

  lemma GroupedNext(items: seq<Item>, last: int, added: seq<Item>, k: nat, isMatch: bool)
    requires Grouped(items) && last < k && (items == [] || (items[|items| - 1].Line? && items[|items| - 1].index == last))
    requires added == (if items != [] && last < k - 1 then [Separator] else []) + [Line(k, isMatch)]
    ensures Grouped(items + added)
  {
    var all := items + added;
    forall i | 0 <= i < |all|
      ensures StandsWell(all, i)
    {
      if i < |items| { assert StandsWell(items, i) && all[i] == items[i]; }
    }
  }

  /** The output of a search: exactly the lines within the context of a match, each once, in order, and a separator exactly where
      lines are left out between two of them. */
  lemma ItemsMean(matched: seq<bool>, c: Context)
    ensures Grouped(Items(matched, c)) && Covers(matched, c, |matched|, Items(matched, c))
  {
    var last := UpToMeans(matched, c, |matched|);
  }
}
