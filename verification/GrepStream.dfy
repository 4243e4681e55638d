/** The one-pass content search: a buffer of earlier lines, the end of the last window, and what has been emitted. */
module GrepStream {
  import opened Options
  import opened Alias
  import opened GrepWindows
  import opened GrepCollector

  /** A file as the search sees it: its lines, and which of them match. */
  datatype File = File(display: string, lines: seq<string>, matched: seq<bool>, numbers: bool)

  function RenderLine(f: File, index: nat, isMatch: bool, text: string): string {
    var separator := if isMatch then ":" else "-";
    if f.numbers then f.display + separator + Decimal(index + 1) + separator + text
    else f.display + separator + text
  }

  function RenderItem(f: File, item: Item): string {
    match item
    case Separator => "--"
    case Line(index, isMatch) => RenderLine(f, index, isMatch, if index < |f.lines| then f.lines[index] else "")
  }

  function RenderItems(f: File, items: seq<Item>): seq<string> {
    seq(|items|, i requires 0 <= i < |items| => RenderItem(f, items[i]))
  }

  lemma RenderConcat(f: File, xs: seq<Item>, ys: seq<Item>)
    ensures RenderItems(f, xs + ys) == RenderItems(f, xs) + RenderItems(f, ys)
  {
  }

  /** The context actually used: one number for both sides takes precedence, negatives count as none, and neither exceeds the byte limit. */
  function EffectiveContext(before: int, after: int, context: int, bytes: int): Context {
    var b, a := if context > 0 then context else before, if context > 0 then context else after;
    var b', a' := if b < 0 then 0 else b, if a < 0 then 0 else a;
    Context(if bytes > 0 && b' > bytes then bytes else b', if bytes > 0 && a' > bytes then bytes else a')
  }

  /** A line kept in case a later match shows it. */
  datatype Buffered = Buffered(index: nat, text: string)

  lemma {:induction false} ReachExists(matched: seq<bool>, c: Context) returns (end: int)
    ensures Reach(matched, c, end)
    decreases |matched|
  {
    if matched == [] {
      end := -1;
    } else {
      var n := |matched| - 1;
      end := ReachExists(matched[..n], c);
      assert matched == matched[..n] + [matched[n]];
      if matched[n] {
        ReachMatch(matched[..n], c);
        end := n + c.after;
      } else {
        ReachPlain(matched[..n], c, end);
      }
    }
  }

  /** More lines only add to the output. */
  lemma {:induction false} ItemsGrow(matched: seq<bool>, c: Context, i: nat)
    requires i <= |matched|
    ensures Items(matched[..i], c) <= Items(matched, c)
    decreases |matched| - i
  {
    hide Items, Reach;
    if i < |matched| {
      ItemsGrow(matched, c, i + 1);
      var end := ReachExists(matched[..i], c);
      assert matched[..i + 1] == matched[..i] + [matched[i]];
      if matched[i] { MatchNext(matched[..i], c, end); } else { PlainNext(matched[..i], c, end); }
    } else {
      assert matched[..i] == matched;
    }
  }

  /** One item more. */
  lemma FeedOne(l: Limits, s: Collected, line: string)
    ensures Feed(l, s, [line]) == Add(l, s, line)
  {
    assert [line][1..] == [];
  }

  /** What a match shows: a separator if it opens a group, the buffered lines not shown yet, and itself. */
  function MatchItems(matched: seq<bool>, c: Context, end: int, first: nat): seq<Item>
    requires first <= |matched|
  {
    (if end >= 0 && StartOf(|matched|, c) > end + 1 then [Separator] else []) + Run(matched + [true], first, |matched| + 1)
  }

  /** Lines that have not been shown do not match. */
  lemma UnshownPlain(matched: seq<bool>, c: Context, end: int, k: nat)
    requires Reach(matched, c, end) && Next(matched, end) <= k < |matched|
    ensures !matched[k]
  {
    MatchShown(matched, c, end);
    assert InWindow(c, k, k);
  }

  /** The items fed so far, and what the collector made of them. */
  ghost predicate Fed(f: File, l: Limits, start: Collected, items: seq<Item>, now: Collected, stop: bool) {
    Feed(l, start, RenderItems(f, items)) == Added(now, stop)
  }

  /** The buffer: the last lines before the current one, as many as the context before a match. */
  ghost predicate Buffer(f: File, c: Context, i: nat, previous: seq<Buffered>) {
    && i <= |f.lines| && |previous| == i - StartOf(i, c)
    && forall j :: 0 <= j < |previous| ==> previous[j] == Buffered(StartOf(i, c) + j, f.lines[StartOf(i, c) + j])
  }

  /** Emits one item. */
  method Emit(f: File, line: string, collector: Collector, ghost item: Item, ghost start: Collected, ghost done: seq<Item>) returns (stop: bool)
    requires line == RenderItem(f, item) && Fed(f, collector.limits, start, done, collector.View(), false)
    modifies collector
    ensures Fed(f, collector.limits, start, done + [item], collector.View(), stop)
  {
    hide Feed, Add, RenderItem;
    FeedNext(f, collector.limits, start, done, item, collector.View());
    stop := collector.AddLine(line);
  }

  /** The buffered lines a match shows, all after the last one emitted. */
  method EmitPrevious(f: File, c: Context, ghost matched: seq<bool>, previous: seq<Buffered>, windowStart: nat, windowEnd: int, lastEmitted: int,
                      collector: Collector, ghost start: Collected, ghost head: seq<Item>) returns (stop: bool, ghost done: seq<Item>)
    requires |matched| < |f.lines| && Buffer(f, c, |matched|, previous) && Reach(matched, c, windowEnd)
    requires windowStart == StartOf(|matched|, c) && lastEmitted == Next(matched, windowEnd) - 1
    requires Fed(f, collector.limits, start, head, collector.View(), false)
    modifies collector
    ensures FirstNew(matched, c, windowEnd) <= |matched|
    ensures Fed(f, collector.limits, start, done, collector.View(), stop)
    ensures if stop then done <= head + Run(matched + [true], FirstNew(matched, c, windowEnd), |matched|)
            else done == head + Run(matched + [true], FirstNew(matched, c, windowEnd), |matched|)
  {
    hide Reach, Fed, Shown, Items;
    ghost var first := FirstNew(matched, c, windowEnd);
    MatchShown(matched, c, windowEnd);
    done := head;
    assert Run(matched + [true], first, first) == [];
    var j := 0;
    while j < |previous|
      invariant 0 <= j <= |previous|
      invariant done == head + Run(matched + [true], first, Later(first, windowStart + j))
      invariant Fed(f, collector.limits, start, done, collector.View(), false)
    {
      var prior := previous[j];
      if prior.index >= windowStart && prior.index > lastEmitted {
        UnshownPlain(matched, c, windowEnd, prior.index);
        ghost var item := Line(prior.index, false);
        stop := Emit(f, RenderLine(f, prior.index, false, prior.text), collector, item, start, done);
        assert Run(matched + [true], first, prior.index + 1) == Run(matched + [true], first, prior.index) + [item];
        done := done + [item];
        if stop {
          RunPrefix(matched + [true], first, prior.index + 1, |matched|);
          return;
        }
      }
      j := j + 1;
    }
    stop := false;
  }

  /** Emits what a match shows. */
  method EmitMatch(f: File, c: Context, ghost matched: seq<bool>, previous: seq<Buffered>, current: Buffered, windowEnd: int, lastEmitted: int,
                   hadGroup: bool, collector: Collector, ghost start: Collected, ghost head: seq<Item>) returns (stop: bool, ghost done: seq<Item>)
    requires |matched| < |f.lines| && current == Buffered(|matched|, f.lines[|matched|])
    requires Buffer(f, c, |matched|, previous) && Reach(matched, c, windowEnd)
    requires lastEmitted == Next(matched, windowEnd) - 1 && (hadGroup <==> windowEnd >= 0)
    requires Fed(f, collector.limits, start, head, collector.View(), false)
    modifies collector
    ensures FirstNew(matched, c, windowEnd) <= |matched|
    ensures Fed(f, collector.limits, start, done, collector.View(), stop)
    ensures if stop then done <= head + MatchItems(matched, c, windowEnd, FirstNew(matched, c, windowEnd))
            else done == head + MatchItems(matched, c, windowEnd, FirstNew(matched, c, windowEnd))
  {
    hide Reach, Fed, Shown, Items, Buffer, Run, FirstNew;
    var windowStart := StartOf(current.index, c);
    FirstNewBound(matched, c, windowEnd);
    ghost var opening, run := head, Run(matched + [true], FirstNew(matched, c, windowEnd), |matched|);
    RunLast(matched + [true], FirstNew(matched, c, windowEnd), |matched|);
    stop, done := false, head;
    if hadGroup && windowStart > windowEnd + 1 {
      stop := Emit(f, "--", collector, Separator, start, head);
      done, opening := head + [Separator], head + [Separator];
      if stop { return; }
    }
    stop, done := EmitPrevious(f, c, matched, previous, windowStart, windowEnd, lastEmitted, collector, start, opening);
    if stop { return; }
    stop := Emit(f, RenderLine(f, current.index, true, current.text), collector, Line(|matched|, true), start, done);
    done := done + [Line(|matched|, true)];
  }

  lemma FirstNewBound(matched: seq<bool>, c: Context, end: int)
    ensures FirstNew(matched, c, end) <= |matched|
  {
  }

  lemma RunLast(matched: seq<bool>, first: nat, n: nat)
    requires first <= n < |matched|
    ensures Run(matched, first, n + 1) == Run(matched, first, n) + [Line(n, matched[n])]
  {
  }

  function Later(a: nat, b: nat): nat { if a < b then b else a }

  lemma FeedNext(f: File, l: Limits, start: Collected, done: seq<Item>, item: Item, now: Collected)
    requires Feed(l, start, RenderItems(f, done)) == Added(now, false)
    ensures Feed(l, start, RenderItems(f, done + [item])) == Add(l, now, RenderItem(f, item))
  {
    hide Feed, Add;
    RenderConcat(f, done, [item]);
    assert RenderItems(f, [item]) == [RenderItem(f, item)];
    FeedConcat(l, start, RenderItems(f, done), [RenderItem(f, item)]);
    FeedOne(l, now, RenderItem(f, item));
  }

  lemma {:induction false} RunPrefix(matched: seq<bool>, first: nat, some: nat, all: nat)
    requires first <= some <= all <= |matched|
    ensures Run(matched, first, some) <= Run(matched, first, all)
    decreases all
  {
    if some < all { RunPrefix(matched, first, some, all - 1); }
  }

  lemma ReachBound(matched: seq<bool>, c: Context, end: int)
    requires Reach(matched, c, end)
    ensures end < |matched| + c.after
  {
  }

  lemma Keep(f: File, c: Context, i: nat, previous: seq<Buffered>)
    requires Buffer(f, c, i, previous) && i < |f.lines|
    ensures var more := previous + [Buffered(i, f.lines[i])];
            Buffer(f, c, i + 1, if c.before == 0 then previous else if |more| > c.before then more[|more| - c.before..] else more)
  {
  }

  /** Some output has been refused: what would follow does not matter. */
  lemma RefusedForGood(f: File, c: Context, i: nat, l: Limits, start: Collected, done: seq<Item>, more: seq<Item>, now: Collected)
    requires i < |f.matched| && Fed(f, l, start, done, now, true) && done <= more && more == Items(f.matched[..i + 1], c)
    ensures Fed(f, l, start, Items(f.matched, c), now, true)
  {
    hide Items, Feed, Add, RenderItem;
    ItemsGrow(f.matched, c, i + 1);
    var all := Items(f.matched, c);
    assert all == done + all[|done|..];
    RenderConcat(f, done, all[|done|..]);
    FeedConcat(l, start, RenderItems(f, done), RenderItems(f, all[|done|..]));
  }

  /** What the loop knows after `i` lines. */
  ghost predicate Searching(f: File, c: Context, i: nat, previous: seq<Buffered>, hadGroup: bool, windowEnd: int, lastEmitted: int,
                            l: Limits, start: Collected, now: Collected) {
    && i <= |f.matched| == |f.lines| && Buffer(f, c, i, previous) && Reach(f.matched[..i], c, windowEnd)
    && (hadGroup <==> windowEnd >= 0) && lastEmitted == Next(f.matched[..i], windowEnd) - 1
    && Fed(f, l, start, Items(f.matched[..i], c), now, false)
  }

  lemma SearchStarts(f: File, c: Context, l: Limits, start: Collected)
    requires |f.matched| == |f.lines|
    ensures Searching(f, c, 0, [], false, -1, -1, l, start, start)
  {
    assert f.matched[..0] == [];
    assert RenderItems(f, []) == [];
  }

  lemma AfterMatch(f: File, c: Context, i: nat, windowEnd: int)
    requires i < |f.matched| == |f.lines| && f.matched[i] && Reach(f.matched[..i], c, windowEnd)
    ensures f.matched[..i + 1] == f.matched[..i] + [true]
    ensures FirstNew(f.matched[..i], c, windowEnd) <= i
    ensures Items(f.matched[..i + 1], c) == Items(f.matched[..i], c) + MatchItems(f.matched[..i], c, windowEnd, FirstNew(f.matched[..i], c, windowEnd))
    ensures Reach(f.matched[..i + 1], c, i + c.after) && Next(f.matched[..i + 1], i + c.after) == i + 1 && windowEnd < i + c.after
  {
    hide Items, Run, Reach, Shown;
    var matched := f.matched[..i];
    assert f.matched[..i + 1] == matched + [true];
    MatchNext(matched, c, windowEnd);
    ReachMatch(matched, c);
    ReachBound(matched, c, windowEnd);
    assert |matched| == i;
    Associate(Items(matched, c), if windowEnd >= 0 && StartOf(i, c) > windowEnd + 1 then [Separator] else [],
              Run(matched + [true], FirstNew(matched, c, windowEnd), i + 1));
  }

  lemma Associate(a: seq<Item>, b: seq<Item>, d: seq<Item>)
    ensures a + b + d == a + (b + d)
  {
  }

  lemma AfterPlain(f: File, c: Context, i: nat, windowEnd: int)
    requires i < |f.matched| == |f.lines| && !f.matched[i] && Reach(f.matched[..i], c, windowEnd)
    ensures Items(f.matched[..i + 1], c) == Items(f.matched[..i], c) + if i <= windowEnd then [Line(i, false)] else []
    ensures Reach(f.matched[..i + 1], c, windowEnd)
    ensures Next(f.matched[..i + 1], windowEnd) == if i <= windowEnd then i + 1 else Next(f.matched[..i], windowEnd)
    ensures i >= Next(f.matched[..i], windowEnd)
  {
    hide Items, Reach, Shown;
    assert f.matched[..i + 1] == f.matched[..i] + [false];
    PlainNext(f.matched[..i], c, windowEnd);
    ReachPlain(f.matched[..i], c, windowEnd);
  }

  /** `daemonCollectGrepContent`, for a file without oversized lines: the collector is fed the items of the whole file, in order,
      until it refuses one. */
  method CollectGrepContent(f: File, c: Context, collector: Collector) returns (limitReached: bool)
    requires |f.matched| == |f.lines|
    modifies collector
    ensures Added(collector.View(), limitReached) == Feed(collector.limits, old(collector.View()), RenderItems(f, Items(f.matched, c)))
  {
    hide Items, Reach, Buffer, Feed, Add, Shown, Run, FirstNew, Next, MatchItems, RenderItems;
    ghost var l, start := collector.limits, collector.View();
    var previous: seq<Buffered> := [];
    var hadGroup, windowEnd, lastEmitted := false, -1, -1;
    SearchStarts(f, c, l, start);
    for lineIndex := 0 to |f.lines|
      invariant Searching(f, c, lineIndex, previous, hadGroup, windowEnd, lastEmitted, l, start, collector.View())
    {
      var current := Buffered(lineIndex, f.lines[lineIndex]);
      ghost var matched, head := f.matched[..lineIndex], Items(f.matched[..lineIndex], c);
      Keep(f, c, lineIndex, previous);
      if f.matched[lineIndex] {
        AfterMatch(f, c, lineIndex, windowEnd);
        ghost var done;
        limitReached, done := EmitMatch(f, c, matched, previous, current, windowEnd, lastEmitted, hadGroup, collector, start, head);
        if limitReached {
          RefusedForGood(f, c, lineIndex, l, start, done, Items(f.matched[..lineIndex + 1], c), collector.View());
          return;
        }
        var newGroup := !hadGroup || StartOf(lineIndex, c) > windowEnd + 1;
        if lineIndex + c.after > windowEnd || newGroup { windowEnd := lineIndex + c.after; }
        lastEmitted, hadGroup := lineIndex, true;
      } else {
        AfterPlain(f, c, lineIndex, windowEnd);
        assert head + [] == head;
        if hadGroup && lineIndex <= windowEnd && lineIndex > lastEmitted {
          limitReached := Emit(f, RenderLine(f, lineIndex, false, current.text), collector, Line(lineIndex, false), start, head);
          if limitReached {
            RefusedForGood(f, c, lineIndex, l, start, head + [Line(lineIndex, false)], Items(f.matched[..lineIndex + 1], c), collector.View());
            return;
          }
          lastEmitted := lineIndex;
        }
      }
      if c.before > 0 {
        previous := previous + [current];
        if |previous| > c.before { previous := previous[|previous| - c.before..]; }
      }
    }
    assert f.matched[..|f.lines|] == f.matched;
    limitReached := false;
  }
}
