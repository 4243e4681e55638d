/** The one-pass search and the window-merging rendering give the same text, up to where the collector stops. */
module GrepAgreement {
  import opened Options
  import opened Alias
  import opened Text
  import opened Utf8
  import opened GrepWindows
  import opened GrepCollector
  import opened GrepStream
  import opened GrepBatch

  lemma {:induction false} FeedUnlimited(l: Limits, s: Collected, lines: seq<string>)
    requires l.units <= 0 && l.bytes <= 0
    ensures Feed(l, s, lines) == Added(s.(units := s.units + |lines|, out := s.out + Whole(lines)), false)
    decreases |lines|
  {
    if lines == [] {
      assert s.out + "" == s.out;
    } else {
      FeedUnlimited(l, Add(l, s, lines[0]).state, lines[1..]);
      assert s.out + lines[0] + "\n" + Whole(lines[1..]) == s.out + Whole(lines);
    }
  }

  /** Context sizes between zero and the byte limit are used as they are. */
  lemma ContextUnchanged(before: nat, after: nat, bytes: int)
    requires bytes > 0 ==> before <= bytes && after <= bytes
    ensures EffectiveContext(before, after, 0, bytes) == Context(before, after)
  {
  }

  /** One number for both sides takes precedence; what is negative counts as none, and neither side exceeds the byte limit. */
  lemma ContextUsed(before: int, after: int, context: int, bytes: int)
    ensures var c := EffectiveContext(before, after, context, bytes);
            && c.before == Clamped(if context > 0 then context else before, bytes)
            && c.after == Clamped(if context > 0 then context else after, bytes)
  {
  }

  /** The number, from zero up to the limit if there is one. */
  function Clamped(n: int, limit: int): (r: nat)
    ensures r <= n || r == 0
    ensures limit > 0 ==> r <= limit
    ensures 0 <= n && (limit <= 0 || n <= limit) ==> r == n
    ensures 0 < limit < n ==> r == limit
  {
    if n < 0 then 0 else if 0 < limit < n then limit else n
  }

  /** An output line: the separator, or the file's name, the line's number if asked for, and its text, with colons around
      the number of a match and dashes around that of a context line. */
  predicate Reads(f: File, item: Item, line: string) {
    match item
    case Separator => line == "--"
    case Line(k, isMatch) =>
      && k < |f.lines|
      && line == f.display
                 + (if isMatch then ":" else "-")
                 + (if f.numbers then Decimal(k + 1) + (if isMatch then ":" else "-") else "")
                 + f.lines[k]
  }

  predicate OneLineEach(f: File) {
    '\n' !in f.display && forall k :: 0 <= k < |f.lines| ==> '\n' !in f.lines[k]
  }

  /** The text's lines are the items, one after the other. */
  ghost predicate ReadsBack(f: File, c: Context, text: string) {
    var items, lines := Items(f.matched, c), Split(text, '\n');
    |lines| == |items| + 1 && lines[|items|] == "" && forall k :: 0 <= k < |items| ==> Reads(f, items[k], lines[k])
  }

  lemma {:induction false} WholeSplits(lines: seq<string>)
    requires forall k :: 0 <= k < |lines| ==> '\n' !in lines[k]
    ensures Split(Whole(lines), '\n') == lines + [""]
  {
    if lines != [] {
      WholeSplits(lines[1..]);
      SplitFirst(lines[0], Whole(lines[1..]), '\n');
      assert lines[0] + "\n" + Whole(lines[1..]) == lines[0] + (['\n'] + Whole(lines[1..]));
      assert lines == [lines[0]] + lines[1..];
    }
  }

  lemma ItemReads(f: File, item: Item)
    requires OneLineEach(f) && (item.Line? ==> item.index < |f.lines|)
    ensures Reads(f, item, RenderItem(f, item)) && '\n' !in RenderItem(f, item)
  {
    if item.Line? { DecimalDigits(item.index + 1); }
    match item
    case Separator =>
    case Line(k, isMatch) =>
      var sign := if isMatch then ":" else "-";
      assert f.display + sign + "" + f.lines[k] == f.display + sign + f.lines[k];
      assert f.display + sign + (Decimal(k + 1) + sign) + f.lines[k] == f.display + sign + Decimal(k + 1) + sign + f.lines[k];
  }

  lemma {:induction false} ItemsInFile(matched: seq<bool>, c: Context, n: nat)
    requires n <= |matched|
    ensures forall k :: 0 <= k < |ItemsUpTo(matched, c, n)| && ItemsUpTo(matched, c, n)[k].Line? ==> ItemsUpTo(matched, c, n)[k].index < n
  {
    hide Shown, ShownBefore;
    if n > 0 { ItemsInFile(matched, c, n - 1); }
  }

  lemma RenderingReadsBack(f: File, c: Context)
    requires |f.lines| == |f.matched| && OneLineEach(f)
    ensures ReadsBack(f, c, Whole(RenderItems(f, Items(f.matched, c))))
  {
    hide Whole, Split, Reads, RenderItem;
    var items := Items(f.matched, c);
    ItemsInFile(f.matched, c, |f.matched|);
    forall k | 0 <= k < |items|
      ensures Reads(f, items[k], RenderItems(f, items)[k]) && '\n' !in RenderItems(f, items)[k]
    {
      ItemReads(f, items[k]);
    }
    WholeSplits(RenderItems(f, items));
  }

  /** Both searches of one file. Without limits the texts are equal; with them, on valid lines, the collector keeps a prefix of the
      whole rendering that ends on a sequence boundary, fits the byte limit, and is marked truncated exactly when it is a proper prefix. */
  method BothSearches(f: File, matches: seq<nat>, before: nat, after: nat, limits: Limits) returns (streamed: Collected, rendered: string)
    requires |f.lines| == |f.matched| && Lists(matches, f.matched)
    requires limits.bytes > 0 ==> before <= limits.bytes && after <= limits.bytes
    ensures limits.units <= 0 && limits.bytes <= 0 ==> streamed.out == rendered && !streamed.truncated
    ensures OneLineEach(f) ==> ReadsBack(f, Context(before, after), rendered)
    ensures (forall k, items :: 0 <= k < |items| && items == RenderItems(f, Items(f.matched, Context(before, after))) ==> Valid(items[k])) ==>
              && |streamed.out| <= |rendered| && streamed.out == rendered[..|streamed.out|] && Valid(streamed.out)
              && (limits.bytes > 0 ==> |streamed.out| <= limits.bytes)
              && (streamed.truncated <==> streamed.out != rendered)
  {
    hide Items, RenderItems, Feed, Whole, Valid, ReadsBack, OneLineEach;
    var c := EffectiveContext(before, after, 0, limits.bytes);
    ContextUnchanged(before, after, limits.bytes);
    var collector := new Collector(limits);
    var limitReached := CollectGrepContent(f, c, collector);
    streamed := collector.View();
    rendered := RenderGrepContent(f, matches, c);
    ghost var items := RenderItems(f, Items(f.matched, c));
    assert "" + Whole(items) == Whole(items);
    if OneLineEach(f) { RenderingReadsBack(f, c); }
    if limits.units <= 0 && limits.bytes <= 0 { FeedUnlimited(limits, Collected(0, "", false), items); }
    if forall k :: 0 <= k < |items| ==> Valid(items[k]) {
      NothingValid();
      FeedIsPrefix(limits, Collected(0, "", false), items);
    }
  }

  lemma NothingValid()
    ensures Valid("")
  {
  }
}
