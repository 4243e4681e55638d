/** Numbered lines of a text file, rendered fragment by fragment as a buffered reader delivers it. */
module View {
  import opened Options
  import opened Utf8
  import opened Alias

  const MAX_VIEW_BYTES: nat := 20 * 1024

  /** How a fragment ended: at a newline, which is not part of it; because the buffer was full; or at the end of the file. */
  datatype Ending = Newline | BufferFull | EndOfFile

  datatype Fragment = Fragment(data: string, ending: Ending)

  /** No range, or first and last line, -1 standing for the last of the file. */
  datatype Range = All | Lines(first: int, last: int)

  datatype View = Text(content: string, truncated: bool) | Binary

  /** `daemonLineInRange`. */
  predicate InRange(line: int, range: Range) {
    range.All? || (range.first <= line && (range.last == -1 || line <= range.last))
  }

  /** The lines the fragments make up, `current` being what has been read of the first. */
  function LinesFrom(fragments: seq<Fragment>, current: string): seq<string> {
    if fragments == [] then if current == "" then [] else [current]
    else if fragments[0].ending.BufferFull? then LinesFrom(fragments[1..], current + fragments[0].data)
    else [current + fragments[0].data] + LinesFrom(fragments[1..], "")
  }

  function NumberPrefix(line: nat): string { Decimal(line) + ". " }

  /** The whole rendering: every line of the range with its number. */
  function Rendering(lines: seq<string>, first: nat, range: Range): string {
    if lines == [] then "" else
      (if InRange(first, range) then NumberPrefix(first) + lines[0] + "\n" else "") + Rendering(lines[1..], first + 1, range)
  }

  /** What is shown: the rendering, or, unforced, as much of it as fits, cut on a sequence boundary and ended by a newline. */
  function Shown(lines: seq<string>, first: nat, range: Range, force: bool, out: string): View {
    if lines == [] then Text(out, false)
    else if !InRange(first, range) then Shown(lines[1..], first + 1, range, force, out)
    else
      var prefix := NumberPrefix(first);
      if !force && |out| + |prefix| + 1 > MAX_VIEW_BYTES then Text(out, true)
      else
        var started := out + prefix;
        if force || |lines[0]| <= MAX_VIEW_BYTES - |started| - 1 then Shown(lines[1..], first + 1, range, force, started + lines[0] + "\n")
        else Text(started + lines[0][..Cut(lines[0], MAX_VIEW_BYTES - |started| - 1)] + "\n", true)
  }

  /** Valid UTF-8 without NUL. */
  predicate Texts(lines: seq<string>) {
    forall k :: 0 <= k < |lines| ==> Valid(lines[k]) && (0 as char) !in lines[k]
  }

  /** What a reader delivers: only the last fragment can end with the file, and without a newline a fragment is not empty. */
  predicate Delivered(fragments: seq<Fragment>) {
    && (forall k :: 0 <= k < |fragments| - 1 ==> !fragments[k].ending.EndOfFile?)
    && (forall k :: 0 <= k < |fragments| ==> !fragments[k].ending.Newline? ==> fragments[k].data != "")
  }

  /** The last fragment ends its line. It does not if the file's last line has no newline and just fills the buffer. */
  predicate Ended(fragments: seq<Fragment>) {
    fragments != [] ==> !fragments[|fragments| - 1].ending.BufferFull?
  }

  /** What the reader's fragments make of a view: an unended last line loses its newline, if it is shown and not cut. */
  function AsEnded(shown: View, ended: bool, lastInRange: bool): View {
    if ended || !lastInRange || !shown.Text? || shown.truncated || shown.content == "" then shown
    else shown.(content := shown.content[..|shown.content| - 1])
  }

  /** The view of the lines the fragments make up. */
  function Viewed(fragments: seq<Fragment>, range: Range, force: bool): View {
    var lines := LinesFrom(fragments, "");
    AsEnded(Shown(lines, 1, range, force, ""), Ended(fragments), InRange(|lines|, range))
  }

  lemma {:induction false} ShownAfterRange(lines: seq<string>, first: nat, range: Range, force: bool, out: string)
    requires range.Lines? && range.last != -1 && first > range.last
    ensures Shown(lines, first, range, force, out) == Text(out, false)
    decreases |lines|
  {
    if lines != [] { ShownAfterRange(lines[1..], first + 1, range, force, out); }
  }

  lemma {:induction false} FirstLineGrows(fragments: seq<Fragment>, current: string)
    requires current != "" || fragments != []
    requires Delivered(fragments)
    ensures var all := LinesFrom(fragments, current); all != [] && |current| <= |all[0]| && all[0][..|current|] == current
  {
    if fragments != [] && fragments[0].ending.BufferFull? {
      FirstLineGrows(fragments[1..], current + fragments[0].data);
      var all := LinesFrom(fragments, current);
      assert all[0][..|current|] == all[0][..|current + fragments[0].data|][..|current|];
    }
  }

  /** How much content fits behind what is written, leaving room for a newline. */
  function Room(written: nat): nat {
    if written + 1 <= MAX_VIEW_BYTES then MAX_VIEW_BYTES - written - 1 else 0
  }

  /** `daemonAppendViewContent`. */
  method AppendViewContent(out: string, content: string, force: bool) returns (after: string, full: bool)
    ensures full <==> !force && |content| > Room(|out|)
    ensures !full ==> after == out + content
    ensures full && |out| < MAX_VIEW_BYTES ==> after == out + content[..Cut(content, Room(|out|))] + "\n"
  {
    if force { return out + content, false; }
    var available := if MAX_VIEW_BYTES - |out| - 1 < 0 then 0 else MAX_VIEW_BYTES - |out| - 1;
    if |content| <= available { return out + content, false; }
    var cut := available;
    while cut > 0 && !Valid(content[..cut])
      invariant 0 <= cut <= available && Cut(content, available) == Cut(content, cut)
    {
      cut := cut - 1;
    }
    after := out + content[..cut];
    if |after| < MAX_VIEW_BYTES { after := after + "\n"; }
    full := true;
  }

  /** Where the output stands within a line: `before` is what was shown of earlier lines, `current` what has been read of this one. */
  ghost predicate Standing(before: string, out: string, started: bool, line: nat, current: string, pending: string, force: bool) {
    if !started then out == before && pending == ""
    else
      var w := WholeRunes(current);
      && out == before + NumberPrefix(line) + current[..w] && pending == current[w..]
      && (!force ==> |before + NumberPrefix(line)| + 1 <= MAX_VIEW_BYTES && w <= Room(|before + NumberPrefix(line)|))
  }

  datatype Verdict = GoesOn | Cuts | IsBinary

  /** What a fragment leads to, for the line's whole `text`: more of the line, its end, or the cut. */
  ghost predicate Leads(before: string, line: nat, text: string, sofar: string, final: bool, force: bool,
                        after: string, begun: bool, rest: string, verdict: Verdict) {
    match verdict
    case IsBinary => false
    case Cuts => forall more, range :: InRange(line, range) ==> Shown([text] + more, line, range, force, before) == Text(after, true)
    case GoesOn =>
      if final then
        && !begun && rest == "" && after == before + NumberPrefix(line) + text + "\n"
        && forall more, range :: InRange(line, range) ==> Shown([text] + more, line, range, force, before) == Shown(more, line + 1, range, force, after)
      else begun && Standing(before, after, true, line, sofar, rest, force)
  }

  /** The line as far as it is known: what has been read of it is the start of a valid text, and all of it if this fragment ends it. */
  ghost predicate LineOf(current: string, data: string, final: bool, text: string) {
    && Valid(text) && (0 as char) !in text && |current + data| <= |text| && text[..|current + data|] == current + data
    && (final ==> text == current + data)
  }

  /** The text of one fragment, the line's number being written. `fine`: the line is valid text. */
  method ShowContent(out: string, pending: string, ghost line: nat, data: string, final: bool, force: bool,
                     ghost fine: bool, ghost before: string, ghost current: string, ghost text: string)
    returns (after: string, begun: bool, rest: string, verdict: Verdict)
    requires fine ==> Standing(before, out, true, line, current, pending, force) && LineOf(current, data, final, text)
    ensures fine ==> !verdict.IsBinary? && Leads(before, line, text, current + data, final, force, after, begun, rest, verdict)
  {
    hide Valid, WholeRunes, FullRune, RuneAt, Shown, NumberPrefix;
    var chunk := pending + data;
    var whole, invalid := CompletePrefix(chunk, final);
    ghost var w := WholeRunes(current);
    if fine { ChunkFacts(current, data, text, final); }
    if invalid { return out, true, pending, IsBinary; }
    var appended, full := AppendViewContent(out, chunk[..whole], force);
    if full {
      if fine {
        CutFacts(before + NumberPrefix(line), current, data, text, w, whole);
        ContentDoesNotFit(text, line, force, before, appended);
      }
      return appended, true, "", Cuts;
    }
    if fine { ContentJoins(before + NumberPrefix(line), current, data, whole); }
    after, begun, rest, verdict := appended, true, chunk[whole..], GoesOn;
    if final {
      after, begun, rest := after + "\n", false, "";
      if fine {
        FinalWhole(text, w + whole);
        LineFits(text, line, force, before, after);
      }
    }
  }

  lemma ContentJoins(started: string, current: string, data: string, whole: nat)
    requires var chunk := current[WholeRunes(current)..] + data; whole <= |chunk|
    ensures var w := WholeRunes(current);
            var chunk := current[w..] + data;
            && w + whole <= |current + data|
            && started + current[..w] + chunk[..whole] == started + (current + data)[..w + whole]
            && chunk[whole..] == (current + data)[w + whole..]
  {
    hide WholeRunes;
    var w := WholeRunes(current);
    var chunk := current[w..] + data;
    assert current[..w] + chunk == current + data;
    assert current[..w] + chunk[..whole] == (current + data)[..w + whole];
    assert started + current[..w] + chunk[..whole] == started + (current[..w] + chunk[..whole]);
  }

  /** One fragment of a line in the range. */
  method ShowFragment(out: string, started: bool, pending: string, line: nat, data: string, final: bool, force: bool,
                      ghost fine: bool, ghost before: string, ghost current: string, ghost text: string)
    returns (after: string, begun: bool, rest: string, verdict: Verdict)
    requires fine ==> Standing(before, out, started, line, current, pending, force) && (!started ==> current == "")
    requires fine ==> LineOf(current, data, final, text)
    ensures fine ==> !verdict.IsBinary? && Leads(before, line, text, current + data, final, force, after, begun, rest, verdict)
  {
    hide Valid, Shown, NumberPrefix, Leads;
    NothingWhole();
    if fine { NulNotInText(data, current, text); }
    if (0 as char) in data { return out, started, pending, IsBinary; }
    after := out;
    if !started {
      if !force && |out| + |NumberPrefix(line)| + 1 > MAX_VIEW_BYTES {
        PrefixDoesNotFit(text, line, current + data, final, force, out);
        return out, false, pending, Cuts;
      }
      after := out + NumberPrefix(line);
    }
    after, begun, rest, verdict := ShowContent(after, pending, line, data, final, force, fine, before, current, text);
  }

  lemma NulNotInText(data: string, current: string, text: string)
    requires (0 as char) !in text && |current + data| <= |text| && text[..|current + data|] == current + data
    ensures (0 as char) !in data
  {
    forall k | 0 <= k < |data|
      ensures data[k] != 0 as char
    {
      assert text[|current| + k] == (current + data)[|current| + k];
    }
  }

  lemma NothingWhole()
    ensures WholeRunes("") == 0
  {
  }

  /** Whole sequences of the line read so far: those before, and those the new fragment completes; nothing malformed shows. */
  lemma ChunkFacts(current: string, data: string, text: string, final: bool)
    requires Valid(text) && |current + data| <= |text| && text[..|current + data|] == current + data
    requires final ==> text == current + data
    ensures var w := WholeRunes(current);
            var chunk := current[w..] + data;
            && WholeRunes(current + data) == w + WholeRunes(chunk)
            && !(WholeRunes(chunk) < |chunk| && (final || FullRune(chunk[WholeRunes(chunk)..])))
  {
    hide Valid, WholeRunes, FullRune, RuneAt;
    var w := WholeRunes(current);
    var chunk := current[w..] + data;
    WholeIsValid(current);
    WholeConcat(current[..w], chunk);
    assert current[..w] + chunk == current + data;
    var n := WholeRunes(current + data);
    assert (current + data) + text[|current + data|..] == text;
    PrefixOfValid(current + data, text[|current + data|..]);
    assert (current + data)[n..] == chunk[WholeRunes(chunk)..];
    if final { ValidWhole(text); }
  }

  lemma FinalWhole(text: string, n: nat)
    requires Valid(text) && n == WholeRunes(text)
    ensures n == |text| && text[..n] == text
  {
    ValidWhole(text);
  }

  lemma PrefixDoesNotFit(text: string, line: nat, sofar: string, final: bool, force: bool, before: string)
    requires !force && |before| + |NumberPrefix(line)| + 1 > MAX_VIEW_BYTES
    ensures forall begun, rest :: Leads(before, line, text, sofar, final, force, before, begun, rest, Cuts)
  {
  }

  lemma LineFits(text: string, line: nat, force: bool, before: string, after: string)
    requires after == before + NumberPrefix(line) + text + "\n"
    requires !force ==> |before + NumberPrefix(line)| + 1 <= MAX_VIEW_BYTES && |text| <= Room(|before + NumberPrefix(line)|)
    ensures forall more, range :: InRange(line, range) ==> Shown([text] + more, line, range, force, before) == Shown(more, line + 1, range, force, after)
  {
    forall more, range | InRange(line, range)
      ensures Shown([text] + more, line, range, force, before) == Shown(more, line + 1, range, force, after)
    {
      assert ([text] + more)[1..] == more;
    }
  }

  lemma ContentDoesNotFit(text: string, line: nat, force: bool, before: string, after: string)
    requires !force && |before + NumberPrefix(line)| + 1 <= MAX_VIEW_BYTES && |text| > Room(|before + NumberPrefix(line)|)
    requires after == before + NumberPrefix(line) + text[..Cut(text, Room(|before + NumberPrefix(line)|))] + "\n"
    ensures forall more, range :: InRange(line, range) ==> Shown([text] + more, line, range, force, before) == Text(after, true)
  {
  }

  /** However the fragments fall, the cut is that of the whole line. */
  lemma CutFacts(started: string, current: string, data: string, text: string, w: nat, whole: nat)
    requires w == WholeRunes(current) && |current + data| <= |text| && text[..|current + data|] == current + data
    requires var chunk := current[w..] + data; whole <= |chunk| && whole > Room(|started + current[..w]|)
    requires |started| + 1 <= MAX_VIEW_BYTES && w <= Room(|started|)
    ensures var chunk := current[w..] + data;
            && |text| > Room(|started|)
            && started + current[..w] + chunk[..whole][..Cut(chunk[..whole], Room(|started + current[..w]|))] == started + text[..Cut(text, Room(|started|))]
  {
    hide Valid, WholeRunes;
    var chunk := current[w..] + data;
    var room := Room(|started + current[..w]|);
    assert Room(|started|) == w + room;
    WholeIsValid(current);
    CutConcat(current[..w], chunk[..whole], room);
    var shown := current[..w] + chunk[..whole];
    assert shown == text[..w + whole] by { assert shown == (current + data)[..w + whole]; }
    assert shown + text[w + whole..] == text;
    CutPrefix(shown, text[w + whole..], w + room);
    var c := Cut(chunk[..whole], room);
    assert text[..w + c] == current[..w] + chunk[..whole][..c];
    assert started + current[..w] + chunk[..whole][..c] == started + (current[..w] + chunk[..whole][..c]);
  }

  /** With `lines` still to come from `line` on, the view is what showing them adds to `before`. */
  ghost predicate Remains(fragments: seq<Fragment>, range: Range, force: bool, line: nat, before: string, lines: seq<string>) {
    var all := LinesFrom(fragments, "");
    Shown(all, 1, range, force, "") == Shown(lines, line, range, force, before) && line - 1 + |lines| == |all|
  }

  /** The loop of `daemonViewTextFile` has read `i` fragments: lines before `line` are shown, `current` is the line being read. */
  ghost predicate Viewing(fragments: seq<Fragment>, range: Range, force: bool, i: nat, out: string, line: nat, started: bool,
                          pending: string, before: string, current: string) {
    && i <= |fragments| && line >= 1
    && Remains(fragments, range, force, line, before, LinesFrom(fragments[i..], current))
    && Texts(LinesFrom(fragments[i..], current)) && Delivered(fragments[i..])
    && (current == "" <==> i == 0 || !fragments[i - 1].ending.BufferFull?)
    && (started <==> InRange(line, range) && current != "")
    && (if InRange(line, range) then Standing(before, out, started, line, current, pending, force) else out == before && pending == "")
  }

  lemma ViewingStarts(fragments: seq<Fragment>, range: Range, force: bool)
    requires Delivered(fragments) && Texts(LinesFrom(fragments, ""))
    ensures Viewing(fragments, range, force, 0, "", 1, false, "", "", "")
  {
    assert fragments[0..] == fragments;
  }

  /** The line the next fragment belongs to. */
  lemma NextLine(fragments: seq<Fragment>, i: nat, current: string) returns (text: string, more: seq<string>)
    requires i < |fragments| && Delivered(fragments[i..]) && Texts(LinesFrom(fragments[i..], current))
    ensures LinesFrom(fragments[i..], current) == [text] + more
    ensures Valid(text) && (0 as char) !in text
    ensures |current + fragments[i].data| <= |text| && text[..|current + fragments[i].data|] == current + fragments[i].data
    ensures !fragments[i].ending.BufferFull? ==> text == current + fragments[i].data && more == LinesFrom(fragments[i + 1..], "")
    ensures fragments[i].ending.BufferFull? ==> LinesFrom(fragments[i + 1..], current + fragments[i].data) == [text] + more
    ensures Delivered(fragments[i + 1..]) && (Texts(more))
  {
    hide Valid;
    var f := fragments[i];
    var all := LinesFrom(fragments[i..], current);
    assert fragments[i..][0] == f && fragments[i..][1..] == fragments[i + 1..];
    DeliveredTail(fragments, i);
    if f.ending.BufferFull? {
      FirstLineGrows(fragments[i + 1..], current + f.data);
    }
    text, more := all[0], all[1..];
  }

  lemma DeliveredTail(fragments: seq<Fragment>, i: nat)
    requires i < |fragments| && Delivered(fragments[i..])
    ensures Delivered(fragments[i + 1..]) && (fragments[i].ending.BufferFull? ==> fragments[i].data != "")
    ensures fragments[i].ending.EndOfFile? ==> i + 1 == |fragments|
  {
    assert fragments[i..][0] == fragments[i];
    assert fragments[i + 1..] == fragments[i..][1..];
  }

  /** The loop goes on to the next fragment. */
  lemma ViewingNext(fragments: seq<Fragment>, range: Range, force: bool, i: nat, line: nat, before: string, current: string,
                    text: string, more: seq<string>, after: string, begun: bool, rest: string)
    requires i < |fragments| && line >= 1 && InRange(line, range) && (fragments[i].ending.BufferFull? ==> fragments[i].data != "")
    requires Remains(fragments, range, force, line, before, [text] + more)
    requires Texts([text] + more) && Delivered(fragments[i + 1..])
    requires !fragments[i].ending.BufferFull? ==> more == LinesFrom(fragments[i + 1..], "")
    requires fragments[i].ending.BufferFull? ==> LinesFrom(fragments[i + 1..], current + fragments[i].data) == [text] + more
    requires Leads(before, line, text, current + fragments[i].data, !fragments[i].ending.BufferFull?, force, after, begun, rest, GoesOn)
    ensures if fragments[i].ending.BufferFull?
            then Viewing(fragments, range, force, i + 1, after, line, begun, rest, before, current + fragments[i].data)
            else Viewing(fragments, range, force, i + 1, after, line + 1, begun, rest, after, "")
  {
    hide Valid, Standing, Shown, NumberPrefix;
    if !fragments[i].ending.BufferFull? {
      assert Texts(more) by { assert forall k :: 0 <= k < |more| ==> more[k] == ([text] + more)[k + 1]; }
      NotStarted(after, line + 1, force);
    }
  }

  lemma NotStarted(before: string, line: nat, force: bool)
    ensures Standing(before, before, false, line, "", "", force)
  {
  }

  /** A line outside the range is skipped. */
  lemma ViewingSkips(fragments: seq<Fragment>, range: Range, force: bool, i: nat, line: nat, before: string, current: string,
                     text: string, more: seq<string>)
    requires i < |fragments| && line >= 1 && !InRange(line, range) && (fragments[i].ending.BufferFull? ==> fragments[i].data != "")
    requires Remains(fragments, range, force, line, before, [text] + more)
    requires Texts([text] + more) && Delivered(fragments[i + 1..])
    requires !fragments[i].ending.BufferFull? ==> more == LinesFrom(fragments[i + 1..], "")
    requires fragments[i].ending.BufferFull? ==> LinesFrom(fragments[i + 1..], current + fragments[i].data) == [text] + more
    ensures if fragments[i].ending.BufferFull?
            then Viewing(fragments, range, force, i + 1, before, line, false, "", before, current + fragments[i].data)
            else Viewing(fragments, range, force, i + 1, before, line + 1, false, "", before, "")
  {
    hide Valid, NumberPrefix;
    if !fragments[i].ending.BufferFull? {
      assert ([text] + more)[1..] == more;
      assert Texts(more) by { assert forall k :: 0 <= k < |more| ==> more[k] == ([text] + more)[k + 1]; }
    }
  }

  /** Before each fragment: the line it belongs to. */
  lemma Unpack(fragments: seq<Fragment>, range: Range, force: bool, i: nat, out: string, line: nat, started: bool,
               pending: string, before: string, current: string) returns (text: string, more: seq<string>)
    requires i < |fragments| && Viewing(fragments, range, force, i, out, line, started, pending, before, current)
    ensures Remains(fragments, range, force, line, before, [text] + more)
    ensures Texts([text] + more) && Delivered(fragments[i + 1..])
    ensures !fragments[i].ending.BufferFull? ==> more == LinesFrom(fragments[i + 1..], "")
    ensures fragments[i].ending.BufferFull? ==> LinesFrom(fragments[i + 1..], current + fragments[i].data) == [text] + more
    ensures fragments[i].ending.BufferFull? ==> fragments[i].data != ""
    ensures fragments[i].ending.EndOfFile? ==> i + 1 == |fragments|
    ensures LineOf(current, fragments[i].data, !fragments[i].ending.BufferFull?, text)
    ensures if InRange(line, range) then Standing(before, out, started, line, current, pending, force) && (!started ==> current == "")
            else out == before && pending == "" && !started
  {
    hide Valid, Shown, Standing, LinesFrom, Texts, Delivered;
    text, more := NextLine(fragments, i, current);
    DeliveredTail(fragments, i);
  }

  lemma CutShown(before: string, line: nat, text: string, more: seq<string>, range: Range, sofar: string, final: bool, force: bool,
                 after: string, begun: bool, rest: string)
    requires Leads(before, line, text, sofar, final, force, after, begun, rest, Cuts) && InRange(line, range)
    ensures Shown([text] + more, line, range, force, before) == Text(after, true)
  {
  }

  lemma PastRange(fragments: seq<Fragment>, range: Range, force: bool, i: nat, out: string, line: nat, started: bool,
                  pending: string, before: string, current: string)
    requires Viewing(fragments, range, force, i, out, line, started, pending, before, current)
    requires range.Lines? && range.last != -1 && line > range.last && 0 < i && !fragments[i - 1].ending.BufferFull?
    ensures Viewed(fragments, range, force) == Text(out, false)
  {
    hide Shown, LinesFrom, Texts;
    ShownAfterRange(LinesFrom(fragments[i..], current), line, range, force, before);
    if i < |fragments| { FirstLineGrows(fragments[i..], current); }
  }

  lemma AtEnd(fragments: seq<Fragment>, range: Range, force: bool, out: string, line: nat, started: bool,
              pending: string, before: string, current: string)
    requires Viewing(fragments, range, force, |fragments|, out, line, started, pending, before, current)
    ensures Viewed(fragments, range, force) == Text(out, false)
  {
    hide Valid, NumberPrefix, WholeRunes;
    if current != "" {
      assert LinesFrom(fragments[|fragments|..], current) == [current];
      assert [current][1..] == [];
      if InRange(line, range) {
        FinalWhole(current, WholeRunes(current));
        LineFits(current, line, force, before, before + NumberPrefix(line) + current + "\n");
        assert [current] + [] == [current];
        assert Shown([current] + [], line, range, force, before) == Text(out + "\n", false);
      } else {
        assert Shown([current], line, range, force, before) == Shown([], line + 1, range, force, before);
      }
    }
  }

  /** `daemonViewTextFile`. However the reader splits them, lines of valid text are shown as the lines they are,
      but for the newline of a last line that has none and just fills the reader's buffer. */
  method ViewTextFile(fragments: seq<Fragment>, range: Range, force: bool) returns (r: View)
    ensures Delivered(fragments) && Texts(LinesFrom(fragments, "")) ==> r == Viewed(fragments, range, force)
  {
    hide Viewing, Shown, Leads, Standing, LinesFrom, Texts, Delivered, Valid;
    ghost var fine := Delivered(fragments) && Texts(LinesFrom(fragments, ""));
    var out, line, started, pending := "", 1, false, "";
    ghost var before, current, text, more := "", "", "", [];
    if fine { ViewingStarts(fragments, range, force); }
    for i := 0 to |fragments|
      invariant line >= 1
      invariant fine ==> Viewing(fragments, range, force, i, out, line, started, pending, before, current)
    {
      var f := fragments[i];
      var final := !f.ending.BufferFull?;
      if fine { text, more := Unpack(fragments, range, force, i, out, line, started, pending, before, current); }
      if InRange(line, range) {
        var verdict;
        out, started, pending, verdict := ShowFragment(out, started, pending, line, f.data, final, force, fine, before, current, text);
        if verdict.IsBinary? {
          return Binary;
        }
        if verdict.Cuts? {
          if fine { CutShown(before, line, text, more, range, current + f.data, final, force, out, started, pending); }
          return Text(out, true);
        }
        if fine { ViewingNext(fragments, range, force, i, line, before, current, text, more, out, started, pending); }
        before, current := if final then out else before, if final then "" else current + f.data;
      } else {
        if fine { ViewingSkips(fragments, range, force, i, line, before, current, text, more); }
        current := if final then "" else current + f.data;
      }
      if final {
        line := line + 1;
        if range.Lines? && range.last != -1 && line > range.last {
          if fine { PastRange(fragments, range, force, i + 1, out, line, started, pending, before, current); }
          return Text(out, false);
        }
      }
      if f.ending.EndOfFile? {
        if fine { AtEnd(fragments, range, force, out, line, started, pending, before, current); }
        return Text(out, false);
      }
    }
    if fine { AtEnd(fragments, range, force, out, line, started, pending, before, current); }
    r := Text(out, false);
  }
}
