/** A file as its reader delivers it: slices up to each newline, as long as the buffer at most. */
module ViewFile {
  import opened Options
  import opened Utf8
  import opened Alias
  import opened View
  import opened ViewLaws

  /** The size of the reader's buffer. */
  const BUFFER: nat := 4096

  /** Where the first line ends: at its newline or with the text. */
  function LineEnd(text: string): (e: nat)
    ensures e <= |text| && (e < |text| ==> text[e] == '\n')
  {
    if text == "" || text[0] == '\n' then 0 else 1 + LineEnd(text[1..])
  }

  /** What `ReadSlice` returns time after time, with a buffer of `n` bytes: it is full before the end of the file is seen. */
  function ReadSlices(text: string, n: nat): seq<Fragment>
    requires n > 0
    decreases |text|
  {
    if text == "" then [] else
      var e := LineEnd(text);
      if e < |text| && e < n then [Fragment(text[..e], Newline)] + ReadSlices(text[e + 1..], n)
      else if |text| < n then [Fragment(text, EndOfFile)]
      else [Fragment(text[..n], BufferFull)] + ReadSlices(text[n..], n)
  }

  /** The lines of a text; a newline at its end starts no further line. */
  function FileLines(text: string): (lines: seq<string>)
    ensures lines == [] <==> text == ""
    decreases |text|
  {
    if text == "" then [] else
      var e := LineEnd(text);
      if e < |text| then [text[..e]] + FileLines(text[e + 1..]) else [text]
  }

  /** What follows the last newline. */
  function LastLine(text: string): string
    decreases |text|
  {
    var e := LineEnd(text);
    if e < |text| then LastLine(text[e + 1..]) else text
  }

  /** The last line has no newline, and its length is a positive multiple of the buffer's. */
  predicate FillsBuffer(text: string, n: nat)
    requires n > 0
  {
    LastLine(text) != "" && |LastLine(text)| % n == 0
  }

  lemma {:induction false} LineEndSkips(text: string, n: nat)
    requires n <= LineEnd(text)
    ensures LineEnd(text) == n + LineEnd(text[n..])
  {
    if n > 0 {
      LineEndSkips(text[1..], n - 1);
      assert text[1..][n - 1..] == text[n..];
    } else {
      assert text[0..] == text;
    }
  }

  lemma {:induction false} SlicesDelivered(text: string, n: nat)
    requires n > 0
    ensures Delivered(ReadSlices(text, n))
    decreases |text|
  {
    if text != "" {
      var e, all := LineEnd(text), ReadSlices(text, n);
      if e < |text| && e < n {
        SlicesDelivered(text[e + 1..], n);
        DeliveredNext(all, ReadSlices(text[e + 1..], n));
      } else if |text| >= n {
        SlicesDelivered(text[n..], n);
        DeliveredNext(all, ReadSlices(text[n..], n));
      }
    }
  }

  lemma DeliveredNext(all: seq<Fragment>, rest: seq<Fragment>)
    requires all != [] && all[1..] == rest && Delivered(rest)
    requires !all[0].ending.EndOfFile? && (all[0].ending.BufferFull? ==> all[0].data != "")
    ensures Delivered(all)
  {
    forall k | 0 < k < |all|
      ensures all[k] == rest[k - 1]
    {
    }
  }

  /** Lines whose first begins with `current`, already read. */
  function Behind(current: string, lines: seq<string>): seq<string> {
    if lines == [] then (if current == "" then [] else [current]) else [current + lines[0]] + lines[1..]
  }

  /** The slices make up the lines of the text. */
  lemma {:induction false} SlicesAreLines(text: string, n: nat, current: string)
    requires n > 0
    ensures LinesFrom(ReadSlices(text, n), current) == Behind(current, FileLines(text))
    decreases |text|
  {
    hide FileLines, LineEnd, LinesFrom, Behind;
    if text == "" {
      NothingBehind(current);
    } else {
      var e, all := LineEnd(text), ReadSlices(text, n);
      FirstLine(text);
      LinesFromNext(all, current);
      if e < |text| && e < n {
        SlicesAreLines(text[e + 1..], n, "");
        assert all[1..] == ReadSlices(text[e + 1..], n);
        BehindNothing(FileLines(text[e + 1..]));
        BehindOne(current, text[..e], FileLines(text[e + 1..]));
      } else if |text| >= n {
        SlicesAreLines(text[n..], n, current + text[..n]);
        assert all[1..] == ReadSlices(text[n..], n);
        SkippedLine(text, n);
        BehindMore(current, text[..n], FileLines(text[n..]));
      } else {
        assert all[1..] == [] && text[..e] == text;
        BehindOne(current, text, []);
      }
    }
  }

  lemma NothingBehind(current: string)
    ensures FileLines("") == [] && LinesFrom([], current) == Behind(current, [])
  {
  }

  lemma LinesFromNext(all: seq<Fragment>, current: string)
    requires all != []
    ensures LinesFrom(all, current) == if all[0].ending.BufferFull? then LinesFrom(all[1..], current + all[0].data)
                                       else [current + all[0].data] + LinesFrom(all[1..], "")
    ensures all[1..] == [] ==> LinesFrom(all[1..], "") == []
  {
  }

  lemma BehindNothing(lines: seq<string>)
    ensures Behind("", lines) == lines
  {
    if lines != [] { FirstAndRest(lines); }
  }

  lemma BehindOne(current: string, line: string, rest: seq<string>)
    ensures Behind(current, [line] + rest) == [current + line] + rest
  {
  }

  lemma BehindMore(current: string, part: string, rest: seq<string>)
    requires part != ""
    ensures Behind(current + part, rest) == Behind(current, Behind(part, rest))
  {
    if rest != [] { assert current + part + rest[0] == current + (part + rest[0]); }
  }

  lemma FirstAndRest(lines: seq<string>)
    requires lines != []
    ensures ["" + lines[0]] + lines[1..] == lines
  {
    assert "" + lines[0] == lines[0];
  }

  /** The first line begins with what a full buffer holds of it. */
  lemma SkippedLine(text: string, n: nat)
    requires 0 < n <= LineEnd(text)
    ensures FileLines(text) == Behind(text[..n], FileLines(text[n..]))
  {
    hide FileLines, LineEnd;
    LineEndSkips(text, n);
    FirstLine(text);
    SliceFacts(text, n, LineEnd(text));
    if text[n..] != "" { FirstLine(text[n..]); }
  }

  lemma SliceFacts(text: string, n: nat, e: nat)
    requires n <= e <= |text|
    ensures text[..n] + text[n..][..e - n] == text[..e]
    ensures e < |text| ==> text[n..][e - n + 1..] == text[e + 1..]
    ensures text[n..] == "" ==> text[..e] == text[..n] && e == |text|
  {
  }

  lemma FirstLine(text: string)
    requires text != ""
    ensures var e := LineEnd(text);
            FileLines(text) == [text[..e]] + (if e < |text| then FileLines(text[e + 1..]) else [])
  {
    assert text[..|text|] == text;
  }

  /** The last slice leaves its line unended exactly if the last line fills whole buffers. */
  lemma {:induction false} SlicesEnd(text: string, n: nat)
    requires n > 0
    ensures Ended(ReadSlices(text, n)) <==> !FillsBuffer(text, n)
    decreases |text|
  {
    hide FillsBuffer, LineEnd;
    if text == "" {
      NothingFills(n);
    } else {
      var e, all := LineEnd(text), ReadSlices(text, n);
      if e < |text| && e < n {
        SlicesEnd(text[e + 1..], n);
        EndedNext(all, ReadSlices(text[e + 1..], n));
        FillsNext(text, n);
      } else if |text| >= n {
        SlicesEnd(text[n..], n);
        EndedNext(all, ReadSlices(text[n..], n));
        LineEndSkips(text, n);
        FillsSkips(text, n);
      } else {
        FillsShort(text, n);
      }
    }
  }

  lemma EndedNext(all: seq<Fragment>, rest: seq<Fragment>)
    requires all != [] && all[1..] == rest
    ensures Ended(all) <==> if rest == [] then !all[0].ending.BufferFull? else Ended(rest)
  {
    if rest != [] { assert all[|all| - 1] == rest[|rest| - 1]; }
  }

  lemma NothingFills(n: nat)
    requires n > 0
    ensures !FillsBuffer("", n)
  {
  }

  lemma FillsNext(text: string, n: nat)
    requires n > 0 && LineEnd(text) < |text|
    ensures FillsBuffer(text, n) <==> FillsBuffer(text[LineEnd(text) + 1..], n)
  {
    hide LineEnd;
  }

  lemma FillsShort(text: string, n: nat)
    requires 0 < |text| < n && LineEnd(text) == |text|
    ensures !FillsBuffer(text, n)
  {
    hide LineEnd;
    LessThanBuffer(|text|, n);
  }

  lemma FillsSkips(text: string, n: nat)
    requires 0 < n <= LineEnd(text) == n + LineEnd(text[n..])
    ensures FillsBuffer(text, n) <==> if text[n..] == "" then true else FillsBuffer(text[n..], n)
  {
    hide LineEnd;
    var e, rest := LineEnd(text), text[n..];
    if e < |text| {
      assert rest[LineEnd(rest) + 1..] == text[e + 1..];
    } else {
      OneBufferLess(|text|, n);
    }
  }

  lemma OneBufferLess(k: nat, n: nat)
    requires 0 < n <= k
    ensures k % n == (k - n) % n
  {
    var d := k / n - (k - n) / n - 1;
    assert n * (k / n) + k % n == k && n * ((k - n) / n) + (k - n) % n == k - n;
    assert n * d == n * (k / n) - n * ((k - n) / n) - n;
    if d > 0 { Grows(n, d); }
    if d < 0 { Grows(n, -d); }
  }

  lemma Grows(n: nat, d: nat)
    requires n > 0 && d > 0
    ensures n * d >= n
  {
  }

  lemma LessThanBuffer(k: nat, n: nat)
    requires 0 < k < n
    ensures k % n == k
  {
  }

  /** The view of a file read through a buffer of `n` bytes. */
  function FileView(text: string, n: nat, range: Range, force: bool): View
    requires n > 0
  {
    Viewed(ReadSlices(text, n), range, force)
  }

  /**
   * It is the numbered lines of the range, or, unforced, a part of them that fits; and the newline of the last line is missing
   * exactly if that line has none in the file, fills whole buffers, is in the range and is not cut.
   */
  lemma FileViewIsRendering(text: string, n: nat, range: Range, force: bool)
    requires n > 0 && Texts(FileLines(text))
    ensures var lines := FileLines(text);
            var full, v := Rendering(lines, 1, range), FileView(text, n, range, force);
            && v.Text? && (v.truncated <==> !force && |full| > MAX_VIEW_BYTES)
            && (v.truncated ==> |v.content| <= MAX_VIEW_BYTES && Prefixes(v.content, full))
            && (!v.truncated ==> (if FillsBuffer(text, n) && InRange(|lines|, range) then v.content + "\n" else v.content) == full)
            && (v != Shown(lines, 1, range, force, "") <==> FillsBuffer(text, n) && InRange(|lines|, range) && !v.truncated)
  {
    hide Texts, Rendering, Shown, FileLines, ReadSlices, Ended, Prefixes, FillsBuffer, Delivered;
    FileSlices(text, n);
    ViewedIsRendering(ReadSlices(text, n), range, force);
  }

  lemma FileSlices(text: string, n: nat)
    requires n > 0
    ensures var slices := ReadSlices(text, n);
            Delivered(slices) && LinesFrom(slices, "") == FileLines(text) && (Ended(slices) <==> !FillsBuffer(text, n))
  {
    hide ReadSlices, LinesFrom, Ended, FillsBuffer, Delivered;
    SlicesDelivered(text, n);
    SlicesAreLines(text, n, "");
    SlicesEnd(text, n);
    BehindNothing(FileLines(text));
  }

  /** `daemonViewRegularFile`, for a text file. */
  method ViewFile(text: string, range: Range, force: bool) returns (r: View)
    ensures Texts(FileLines(text)) ==> r == FileView(text, BUFFER, range, force)
    ensures Texts(FileLines(text)) ==>
              var full, unended := Rendering(FileLines(text), 1, range), FillsBuffer(text, 4096) && InRange(|FileLines(text)|, range);
              && r.Text? && (r.truncated <==> !force && |full| > 20 * 1024)
              && (r.truncated ==> |r.content| <= 20 * 1024 && Prefixes(r.content, full))
              && (!r.truncated ==> (if unended then r.content + "\n" else r.content) == full)
  {
    hide Texts, FileLines, Ended, Viewed, FillsBuffer, Delivered, Rendering, Prefixes, InRange;
    FileSlices(text, BUFFER);
    r := ViewTextFile(ReadSlices(text, BUFFER), range, force);
    if Texts(FileLines(text)) { FileViewIsRendering(text, BUFFER, range, force); }
  }

  lemma {:induction false} NoNewline(text: string)
    requires '\n' !in text
    ensures LineEnd(text) == |text|
  {
    if text != "" { NoNewline(text[1..]); }
  }

  /** The condition matters: of one line of exactly the buffer's size, the view lacks the newline every other last line gets. */
  lemma FullBufferLineDiffers(text: string)
    requires text == seq(BUFFER, _ => 'x')
    ensures Texts(FileLines(text)) && FillsBuffer(text, BUFFER)
    ensures FileView(text, BUFFER, All, false) == Text("1. " + text, false)
    ensures Shown(FileLines(text), 1, All, false, "") == Text("1. " + text + "\n", false)
  {
    hide Valid, Viewed, ReadSlices, Prefixes;
    NoNewline(text);
    AsciiValid(text);
    assert FileLines(text) == [text];
    assert Decimal(1) == "1";
    FileViewIsRendering(text, BUFFER, All, false);
    assert [text][1..] == [];
    var full := "1. " + text + "\n";
    assert Rendering([text], 1, All) == NumberPrefix(1) + text + "\n" + Rendering([], 2, All) == full;
    assert "" + NumberPrefix(1) + text + "\n" == full;
    assert Shown([text], 1, All, false, "") == Shown([], 2, All, false, full);
    var v := FileView(text, BUFFER, All, false);
    assert v.content + "\n" == full;
    assert v.content == (v.content + "\n")[..|full| - 1] == "1. " + text;
  }
}
