/** What a reader of a view sees: the lines of the range, each behind its number. */
module ViewReads {
  import Strings = Text
  import opened Alias
  import opened View
  import opened ViewLaws
  import opened ViewFile

  /** One part for each line, and an empty one behind the last newline. */
  predicate Numbered(parts: seq<string>, lines: seq<string>, first: nat) {
    && |parts| == |lines| + 1 && parts[|lines|] == ""
    && forall k :: 0 <= k < |lines| ==> parts[k] == Decimal(first + k) + ". " + lines[k]
  }

  /** Where the range starts among `n` lines, the first of which is number `first`. */
  function Start(range: Range, first: nat, n: nat): (lo: nat)
    ensures lo <= n
  {
    match range
    case All => 0
    case Lines(from, _) => if from <= first then 0 else if from - first > n then n else from - first
  }

  /** And where it ends, -1 standing for the last line. */
  function Stop(range: Range, first: nat, n: nat): (hi: nat)
    ensures hi <= n
  {
    match range
    case All => n
    case Lines(_, last) => if last == -1 || last - first >= n then n else if last < first then 0 else last - first + 1
  }

  function Selected(lines: seq<string>, range: Range, first: nat): seq<string> {
    var lo, hi := Start(range, first, |lines|), Stop(range, first, |lines|);
    if lo <= hi then lines[lo..hi] else []
  }

  lemma SelectedNext(lines: seq<string>, range: Range, first: nat)
    requires lines != []
    ensures var rest := Selected(lines[1..], range, first + 1);
            var lo, l := Start(range, first, |lines|), Start(range, first + 1, |lines| - 1);
            && Selected(lines, range, first) == (if InRange(first, range) then [lines[0]] else []) + rest
            && if InRange(first, range) then lo == l == 0 else rest != [] ==> lo == l + 1
  {
    var l, h := Start(range, first + 1, |lines| - 1), Stop(range, first + 1, |lines| - 1);
    if l <= h { assert lines[1..][l..h] == lines[l + 1..h + 1]; }
    if InRange(first, range) && l <= h { assert lines[0..h + 1] == [lines[0]] + lines[1..][0..h]; }
  }

  lemma NumberedNext(parts: seq<string>, lines: seq<string>, first: nat, line: string)
    requires Numbered(parts, lines, first + 1)
    ensures Numbered([Decimal(first) + ". " + line] + parts, [line] + lines, first)
  {
    hide Decimal;
    var allParts, all := [Decimal(first) + ". " + line] + parts, [line] + lines;
    forall k | 0 <= k < |all|
      ensures allParts[k] == Decimal(first + k) + ". " + all[k]
    {
      if k == 0 {
        assert allParts[0] == Decimal(first) + ". " + line;
      } else {
        NumberedAt(parts, lines, first, k - 1);
        assert allParts[k] == parts[k - 1] && all[k] == lines[k - 1];
      }
    }
  }

  lemma NumberedAt(parts: seq<string>, lines: seq<string>, first: nat, k: nat)
    requires Numbered(parts, lines, first + 1) && k < |lines|
    ensures parts[k] == Decimal(first + (k + 1)) + ". " + lines[k]
  {
    assert first + 1 + k == first + (k + 1);
  }

  lemma LineBehind(line: string, rest: string)
    ensures line + "\n" + rest == line + (['\n'] + rest) && "" + rest == rest
  {
  }

  /** Split at its newlines, the rendering is the numbered lines of the range, all of them and no others. */
  lemma {:induction false} RenderingReadsBack(lines: seq<string>, first: nat, range: Range)
    requires forall k :: 0 <= k < |lines| ==> '\n' !in lines[k]
    ensures Numbered(Strings.Split(Rendering(lines, first, range), '\n'), Selected(lines, range, first), first + Start(range, first, |lines|))
    decreases |lines|
  {
    hide *;
    RenderingNext(lines, first, range);
    if lines == [] {
      NothingSelected(range, first);
    } else {
      var rest := Rendering(lines[1..], first + 1, range);
      RenderingReadsBack(lines[1..], first + 1, range);
      SelectedNext(lines, range, first);
      if InRange(first, range) {
        var line := Decimal(first) + ". " + lines[0];
        PrefixIsDecimal(first);
        LineBehind(line, rest);
        Strings.SplitFirst(line, rest, '\n');
        NumberedNext(Strings.Split(rest, '\n'), Selected(lines[1..], range, first + 1), first, lines[0]);
      } else {
        assert [] + Selected(lines[1..], range, first + 1) == Selected(lines[1..], range, first + 1);
        if Selected(lines, range, first) == [] {
          NumbersNothing(Strings.Split(rest, '\n'), first + 1 + Start(range, first + 1, |lines| - 1), first + Start(range, first, |lines|));
        }
      }
    }
  }

  lemma NumbersNothing(parts: seq<string>, first: nat, other: nat)
    requires Numbered(parts, [], first)
    ensures Numbered(parts, [], other)
  {
  }

  lemma PrefixIsDecimal(line: nat)
    ensures NumberPrefix(line) == Decimal(line) + ". " && '\n' !in Decimal(line)
  {
    DecimalDigits(line);
  }

  lemma NothingSelected(range: Range, first: nat)
    ensures Numbered(Strings.Split("", '\n'), Selected([], range, first), first + Start(range, first, 0))
  {
  }

  lemma SplitsNothing()
    ensures Strings.Split("", '\n') == [""]
  {
  }

  lemma {:induction false} BeforeNewline(text: string)
    ensures '\n' !in text[..LineEnd(text)]
  {
    if text != "" && text[0] != '\n' {
      BeforeNewline(text[1..]);
      assert text[..LineEnd(text)] == [text[0]] + text[1..][..LineEnd(text[1..])];
    }
  }

  /** The lines of a file are its parts between newlines, but for the empty one behind a last newline. */
  lemma {:induction false} FileLinesAreParts(text: string)
    ensures Strings.Split(text, '\n') == FileLines(text) + if text == "" || text[|text| - 1] == '\n' then [""] else []
    decreases |text|
  {
    hide Strings.Split, LineEnd;
    if text == "" {
      SplitsNothing();
    } else {
      var e := LineEnd(text);
      BeforeNewline(text);
      if e < |text| {
        var rest := text[e + 1..];
        assert text == text[..e] + (['\n'] + rest);
        Strings.SplitFirst(text[..e], rest, '\n');
        FileLinesAreParts(rest);
        assert rest != "" ==> rest[|rest| - 1] == text[|text| - 1];
      } else {
        assert text[..e] == text;
        Strings.SplitOne(text, '\n');
      }
    }
  }
}
