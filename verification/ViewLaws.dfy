/** What is shown of a file is its rendering, or a prefix of it that fits. */
module ViewLaws {
  import opened Options
  import opened Utf8
  import opened Alias
  import opened View

  lemma {:induction false} AsciiValid(s: string)
    requires forall k :: 0 <= k < |s| ==> Byte(s[k]) < 0x80
    ensures Valid(s)
  {
    if s != "" { AsciiValid(s[1..]); }
  }

  lemma NumberPrefixValid(line: nat)
    ensures Valid(NumberPrefix(line)) && |NumberPrefix(line)| >= 3
  {
    DecimalDigits(line);
    AsciiValid(NumberPrefix(line));
  }

  /** `content` is a prefix of `full` on a sequence boundary, with or without a newline after it. */
  ghost predicate Prefixes(content: string, full: string) {
    exists p :: 0 <= p <= |full| && Valid(full[..p]) && (content == full[..p] || content == full[..p] + "\n")
  }

  lemma PrefixIs(content: string, full: string, p: nat)
    requires p <= |full| && Valid(full[..p]) && (content == full[..p] || content == full[..p] + "\n")
    ensures Prefixes(content, full)
  {
  }

  /** Forced, or if it fits, all of `full`; otherwise a part of it that fits. */
  ghost predicate ShowsWell(shown: View, full: string, force: bool) {
    && shown.Text? && (shown.truncated <==> !force && |full| > MAX_VIEW_BYTES)
    && (if shown.truncated then |shown.content| <= MAX_VIEW_BYTES && Prefixes(shown.content, full) else shown.content == full)
  }

  /** What is shown is the whole rendering, or a prefix of it on a sequence boundary that fits in 20 KiB. */
  lemma {:induction false} ShownIsRendering(lines: seq<string>, first: nat, range: Range, force: bool, out: string)
    requires Texts(lines) && Valid(out) && (!force ==> |out| <= MAX_VIEW_BYTES)
    ensures ShowsWell(Shown(lines, first, range, force, out), out + Rendering(lines, first, range), force)
    decreases |lines|
  {
    hide Prefixes, NumberPrefix, Cut, Valid, ShowsWell, Rendering;
    RenderingNext(lines, first, range);
    if lines == [] {
      assert out + Rendering(lines, first, range) == out;
      AllShown(out, force);
    } else if !InRange(first, range) {
      ShownIsRendering(lines[1..], first + 1, range, force, out);
    } else {
      var prefix := NumberPrefix(first);
      var rest := Rendering(lines[1..], first + 1, range);
      NumberPrefixValid(first);
      RenderingBehind(out, prefix, lines[0], rest);
      if !force && |out| + |prefix| + 1 > MAX_VIEW_BYTES {
        PrefixRefused(out, prefix, lines[0] + "\n" + rest);
      } else if force || |lines[0]| <= MAX_VIEW_BYTES - |out + prefix| - 1 {
        LineValid(out, prefix, lines[0]);
        ShownIsRendering(lines[1..], first + 1, range, force, out + prefix + lines[0] + "\n");
      } else {
        LineCut(out + prefix, lines[0], rest);
        ValidConcat(out, prefix);
      }
    }
  }

  lemma RenderingNext(lines: seq<string>, first: nat, range: Range)
    ensures Rendering(lines, first, range) ==
              if lines == [] then ""
              else if InRange(first, range) then NumberPrefix(first) + lines[0] + "\n" + Rendering(lines[1..], first + 1, range)
              else Rendering(lines[1..], first + 1, range)
  {
    hide NumberPrefix;
    if lines != [] && !InRange(first, range) {
      assert "" + Rendering(lines[1..], first + 1, range) == Rendering(lines[1..], first + 1, range);
    }
  }

  lemma RenderingBehind(out: string, prefix: string, line: string, rest: string)
    ensures out + (prefix + line + "\n" + rest) == out + prefix + line + "\n" + rest
    ensures out + (prefix + line + "\n" + rest) == out + prefix + (line + "\n" + rest)
  {
  }

  /** The rendering can be cut behind its first `q` bytes: within a line's text, on a sequence boundary. */
  predicate Inside(lines: seq<string>, first: nat, range: Range, q: nat) {
    if lines == [] then false
    else if !InRange(first, range) then Inside(lines[1..], first + 1, range, q)
    else
      var start, len := |NumberPrefix(first)|, |lines[0]|;
      || (start <= q <= start + len && Valid(lines[0][..q - start]))
      || (q > start + len && Inside(lines[1..], first + 1, range, q - (start + len + 1)))
  }

  /** And no place to cut further on leaves a text that fits. */
  lemma {:induction false} NothingLongerFits(lines: seq<string>, first: nat, range: Range, out: string, q: nat)
    requires |out| <= MAX_VIEW_BYTES
    ensures var v := Shown(lines, first, range, false, out);
            && v.Text? && |v.content| >= |out|
            && (v.truncated && Inside(lines, first, range, q) && |out| + q + 1 <= MAX_VIEW_BYTES ==> |out| + q + 1 <= |v.content|)
    decreases |lines|
  {
    hide Valid, NumberPrefix, Cut;
    if lines != [] {
      if !InRange(first, range) {
        NothingLongerFits(lines[1..], first + 1, range, out, q);
      } else {
        var started := out + NumberPrefix(first);
        if |started| + 1 <= MAX_VIEW_BYTES {
          if |lines[0]| <= MAX_VIEW_BYTES - |started| - 1 {
            var skip := |NumberPrefix(first)| + |lines[0]| + 1;
            NothingLongerFits(lines[1..], first + 1, range, started + lines[0] + "\n", if q < skip then 0 else q - skip);
          } else {
            CutIsValid(lines[0], MAX_VIEW_BYTES - |started| - 1);
          }
        }
      }
    }
  }

  lemma AllShown(out: string, force: bool)
    requires !force ==> |out| <= MAX_VIEW_BYTES
    ensures ShowsWell(Text(out, false), out, force)
  {
  }

  lemma PrefixRefused(out: string, prefix: string, rest: string)
    requires Valid(out) && |out| <= MAX_VIEW_BYTES && |out| + |prefix| + 1 > MAX_VIEW_BYTES && |rest| >= 1
    ensures ShowsWell(Text(out, true), out + prefix + rest, false)
  {
    hide Valid, Prefixes;
    var full := out + prefix + rest;
    assert full[..|out|] == out;
    PrefixIs(out, full, |out|);
  }

  lemma LineCut(started: string, line: string, rest: string)
    requires |started| + 1 <= MAX_VIEW_BYTES && |line| > MAX_VIEW_BYTES - |started| - 1
    ensures Valid(started) ==>
              ShowsWell(Text(started + line[..Cut(line, MAX_VIEW_BYTES - |started| - 1)] + "\n", true), started + line + "\n" + rest, false)
  {
    hide Valid, Prefixes, Cut;
    if Valid(started) {
      var c := Cut(line, MAX_VIEW_BYTES - |started| - 1);
      CutIsValid(line, MAX_VIEW_BYTES - |started| - 1);
      CutPrefixes(started, line, rest, c);
    }
  }

  lemma CutPrefixes(started: string, line: string, rest: string, c: nat)
    requires Valid(started) && c <= |line| && Valid(line[..c])
    ensures Prefixes(started + line[..c] + "\n", started + line + "\n" + rest)
  {
    hide Valid, Prefixes;
    ValidConcat(started, line[..c]);
    var full := started + line + "\n" + rest;
    assert full[..|started| + c] == started + line[..c];
    PrefixIs(started + line[..c] + "\n", full, |started| + c);
  }

  lemma LineValid(out: string, prefix: string, line: string)
    requires Valid(out) && Valid(prefix) && Valid(line)
    ensures Valid(out + prefix + line + "\n")
  {
    ValidConcat(out, prefix);
    ValidConcat(out + prefix, line);
    AsciiValid("\n");
    ValidConcat(out + prefix + line, "\n");
  }

  lemma {:induction false} RenderingEnds(lines: seq<string>, first: nat, range: Range)
    requires lines != [] && InRange(first + |lines| - 1, range)
    ensures var full := Rendering(lines, first, range); full != "" && full[|full| - 1] == '\n'
    decreases |lines|
  {
    var start := if InRange(first, range) then NumberPrefix(first) + lines[0] + "\n" else "";
    if |lines| == 1 {
      assert Rendering(lines, first, range) == start + Rendering([], first + 1, range) == start;
    } else {
      RenderingEnds(lines[1..], first + 1, range);
    }
  }

  lemma UnendedHasLines(fragments: seq<Fragment>)
    requires Delivered(fragments) && !Ended(fragments)
    ensures LinesFrom(fragments, "") != []
  {
    FirstLineGrows(fragments, "");
  }

  /** What the reader's fragments make of the file: its rendering or a prefix of it, as above; and the newline of the last line
      is missing exactly when that line is in the range, not cut, and not ended. */
  lemma ViewedIsRendering(fragments: seq<Fragment>, range: Range, force: bool)
    requires Delivered(fragments) && Texts(LinesFrom(fragments, ""))
    ensures var lines := LinesFrom(fragments, "");
            var full, v := Rendering(lines, 1, range), Viewed(fragments, range, force);
            && v.Text? && (v.truncated <==> !force && |full| > MAX_VIEW_BYTES)
            && (v.truncated ==> |v.content| <= MAX_VIEW_BYTES && Prefixes(v.content, full))
            && (!v.truncated ==> (if Ended(fragments) || !InRange(|lines|, range) then v.content else v.content + "\n") == full)
            && (v == Shown(lines, 1, range, force, "") <==> Ended(fragments) || !InRange(|lines|, range) || v.truncated)
  {
    hide Texts, Delivered, Rendering, Shown, LinesFrom, Ended, Prefixes, Valid;
    var lines := LinesFrom(fragments, "");
    var full := Rendering(lines, 1, range);
    EmptyIsValid();
    ShownIsRendering(lines, 1, range, force, "");
    assert "" + full == full;
    if !Ended(fragments) {
      UnendedHasLines(fragments);
      if InRange(|lines|, range) { RenderingEnds(lines, 1, range); }
    }
  }

  lemma EmptyIsValid()
    ensures Valid("")
  {
  }

  /** Two readers that deliver the same lines get the same view, whatever fragments they cut them into, if both end the last line or neither. */
  method ChunkIndependent(some: seq<Fragment>, other: seq<Fragment>, range: Range, force: bool) returns (a: View, b: View)
    ensures Delivered(some) && Delivered(other) && Texts(LinesFrom(some, "")) && LinesFrom(some, "") == LinesFrom(other, "")
            && Ended(some) == Ended(other) ==>
              a == b && (Ended(some) ==> a == Shown(LinesFrom(some, ""), 1, range, force, ""))
  {
    hide Shown, Texts, LinesFrom, Delivered, Ended;
    a := ViewTextFile(some, range, force);
    b := ViewTextFile(other, range, force);
  }
}
