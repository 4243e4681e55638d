/** The patch format as a grammar, and that the parser accepts exactly what it describes. */
module PatchGrammar {
  import opened Options
  import opened Text
  import opened PatchHunks
  import opened PatchText
  import opened PatchParser
  import opened PatchPrinter
  import opened PatchRoundTrip

  predicate Spaces(s: string) {
    forall k :: 0 <= k < |s| ==> IsSpace(s[k])
  }

  /** A header: its marker and the path, with white space around it. */
  ghost predicate Heads(line: string, marker: string, path: string) {
    Trimmed(path) && exists left, right :: Spaces(left) && Spaces(right) && line == marker + (left + path + right)
  }

  predicate Spelled(line: string, l: HunkLine) {
    line == (match l.op case Keep => " " case Remove => "-" case Insert => "+") + l.text
  }

  /** One hunk: its header, its lines, and a last line if it reaches the end of the file. */
  predicate WrittenHunk(lines: seq<string>, h: Hunk) {
    && h.lines != [] && |lines| == HunkSize(h)
    && (lines[0] == "@@ " + h.context || (lines[0] == "@@" && h.context == ""))
    && (forall k :: 0 <= k < |h.lines| ==> Spelled(lines[1 + k], h.lines[k]))
    && (h.endOfFile ==> lines[|h.lines| + 1] == "*** End of File")
  }

  function HunkSize(h: Hunk): nat { 1 + |h.lines| + if h.endOfFile then 1 else 0 }

  predicate WrittenHunks(lines: seq<string>, hunks: seq<Hunk>)
    decreases |hunks|
  {
    if hunks == [] then lines == [] else
      var n := HunkSize(hunks[0]);
      n <= |lines| && WrittenHunk(lines[..n], hunks[0]) && WrittenHunks(lines[n..], hunks[1..])
  }

  function HunksSize(hunks: seq<Hunk>): nat { if hunks == [] then 0 else HunkSize(hunks[0]) + HunksSize(hunks[1..]) }

  ghost predicate WrittenOperation(lines: seq<string>, op: Operation) {
    && |lines| == OperationSize(op)
    && match op
       case AddFile(path, added) =>
         Heads(lines[0], "*** Add File: ", path) && added != [] && forall k :: 0 <= k < |added| ==> lines[1 + k] == "+" + added[k]
       case DeleteFile(path) =>
         Heads(lines[0], "*** Delete File: ", path)
       case UpdateFile(path, moveTo, hunks) =>
         && Heads(lines[0], "*** Update File: ", path) && (hunks != [] || moveTo != "")
         && if moveTo == "" then WrittenHunks(lines[1..], hunks)
            else Heads(lines[1], "*** Move to: ", moveTo) && WrittenHunks(lines[2..], hunks)
  }

  function OperationSize(op: Operation): nat {
    match op
    case AddFile(_, added) => 1 + |added|
    case DeleteFile(_) => 1
    case UpdateFile(_, moveTo, hunks) => 1 + (if moveTo == "" then 0 else 1) + HunksSize(hunks)
  }

  ghost predicate WrittenOperations(lines: seq<string>, ops: seq<Operation>)
    decreases |ops|
  {
    if ops == [] then lines == [] else
      var n := OperationSize(ops[0]);
      n <= |lines| && WrittenOperation(lines[..n], ops[0]) && WrittenOperations(lines[n..], ops[1..])
  }

  predicate Blank(lines: seq<string>) {
    forall k :: 0 <= k < |lines| ==> lines[k] == ""
  }

  /** A whole patch: the operations between the two markers, and nothing but empty lines behind. */
  ghost predicate Written(lines: seq<string>, ops: seq<Operation>) {
    ops != [] && exists body, blanks ::
      lines == ["*** Begin Patch"] + body + ["*** End Patch"] + blanks && WrittenOperations(body, ops) && Blank(blanks)
  }

  // White space around a path.

  lemma {:induction false} TrimLeftSplits(s: string) returns (left: string)
    ensures s == left + TrimLeft(s) && Spaces(left)
  {
    if s != "" && IsSpace(s[0]) {
      var rest := TrimLeftSplits(s[1..]);
      left := [s[0]] + rest;
      assert s == [s[0]] + s[1..];
    } else {
      left := "";
    }
  }

  lemma {:induction false} TrimRightSplits(s: string) returns (right: string)
    ensures s == TrimRight(s) + right && Spaces(right)
    decreases |s|
  {
    if s != "" && IsSpace(s[|s| - 1]) {
      var rest := TrimRightSplits(s[..|s| - 1]);
      right := rest + [s[|s| - 1]];
      assert s == s[..|s| - 1] + [s[|s| - 1]];
    } else {
      right := "";
    }
  }

  lemma {:induction false} TrimLeftSkips(left: string, s: string)
    requires Spaces(left) && s != "" && !IsSpace(s[0])
    ensures TrimLeft(left + s) == s
  {
    if left == "" {
      assert left + s == s;
    } else {
      TrimLeftSkips(left[1..], s);
      assert (left + s)[1..] == left[1..] + s;
    }
  }

  lemma {:induction false} TrimRightSkips(s: string, right: string)
    requires Spaces(right) && s != "" && !IsSpace(s[|s| - 1])
    ensures TrimRight(s + right) == s
    decreases |right|
  {
    if right == "" {
      assert s + right == s;
    } else {
      var n := |right| - 1;
      TrimRightSkips(s, right[..n]);
      assert (s + right)[..|s + right| - 1] == s + right[..n];
    }
  }

  lemma HeaderRead(line: string, marker: string, path: string)
    requires Heads(line, marker, path)
    ensures HasPrefix(line, marker) && HeaderPath(line, marker) == path && path != ""
  {
    var left, right :| Spaces(left) && Spaces(right) && line == marker + (left + path + right);
    assert line[..|marker|] == marker && line[|marker|..] == left + path + right;
    assert left + path + right == left + (path + right);
    TrimLeftSkips(left, path + right);
    TrimRightSkips(path, right);
  }

  lemma HeaderWritten(line: string, marker: string)
    requires HasPrefix(line, marker) && HeaderPath(line, marker) != ""
    ensures Heads(line, marker, HeaderPath(line, marker))
  {
    hide TrimLeft, TrimRight;
    var rest := line[|marker|..];
    HeaderPathTrimmed(line, marker);
    var left := TrimLeftSplits(rest);
    var right := TrimRightSplits(TrimLeft(rest));
    var path := HeaderPath(line, marker);
    assert line == line[..|marker|] + rest;
    assert rest == left + (path + right) == left + path + right;
  }

  // What is written is read.

  lemma {:induction false} BodyPrinted(lines: seq<string>, body: seq<HunkLine>)
    requires |lines| == |body| && forall k :: 0 <= k < |body| ==> Spelled(lines[k], body[k])
    ensures lines == PrintBody(body)
  {
    if body != [] {
      assert Spelled(lines[0], body[0]);
      BodyPrinted(lines[1..], body[1..]);
      assert lines == [lines[0]] + lines[1..];
      assert lines[0] == [CharOf(body[0].op)] + body[0].text;
    }
  }

  lemma {:induction false} AddedPrinted(lines: seq<string>, added: seq<string>)
    requires |lines| == |added| && forall k :: 0 <= k < |added| ==> lines[k] == "+" + added[k]
    ensures lines == PrintAdded(added)
  {
    if added != [] {
      AddedPrinted(lines[1..], added[1..]);
      assert lines == [lines[0]] + lines[1..];
    }
  }

  lemma HeaderOfHunk(line: string, context: string)
    requires line == "@@ " + context || (line == "@@" && context == "")
    ensures IsHunkHeader(line) && !HasPrefix(line, MARKER) && line != END_OF_FILE && HunkContext(line) == context
  {
    assert line[0] == '@' && END_OF_FILE[0] == '*';
    PrefixAt(line, MARKER, 0);
    if line == "@@ " + context {
      assert line[..3] == "@@ " && line[3..] == context;
    }
  }

  lemma HunkParts(lines: seq<string>, h: Hunk)
    requires WrittenHunk(lines, h)
    ensures !HasPrefix(lines[0], MARKER) && IsHunkHeader(lines[0]) && HunkContext(lines[0]) == h.context
    ensures lines == [lines[0]] + PrintBody(h.lines) + if h.endOfFile then [END_OF_FILE] else []
    ensures h.lines != []
  {
    hide HasPrefix, IsHunkHeader, HunkContext, PrintBody;
    var body := lines[1..|h.lines| + 1];
    HeaderOfHunk(lines[0], h.context);
    BodyPrinted(body, h.lines);
  }

  /** Lines, a header before them and others around, in the two ways they are put together. */
  lemma Regroup(before: seq<string>, head: string, body: seq<string>, end: seq<string>, rest: seq<string>)
    ensures before + ([head] + body + end) + rest == (before + [head]) + body + end + rest
  {
  }

  lemma BodyMoved(before: seq<string>, lines: seq<string>, header: string, h: Hunk, rest: seq<string>)
    requires var end := if h.endOfFile then [END_OF_FILE] else [];
             && lines == [header] + PrintBody(h.lines) + end
             && TakeBody(before + [header] + PrintBody(h.lines) + end + rest, |before + [header]|) ==
                  Some(Parsed(Body(h.lines, h.endOfFile), |before + [header]| + |PrintBody(h.lines)| + |end|))
    ensures TakeBody(before + lines + rest, |before| + 1) == Some(Parsed(Body(h.lines, h.endOfFile), |before| + |lines|))
  {
    hide TakeBody, PrintBody;
    Regroup(before, header, PrintBody(h.lines), if h.endOfFile then [END_OF_FILE] else [], rest);
  }

  lemma OneHunkRead(before: seq<string>, lines: seq<string>, h: Hunk, rest: seq<string>)
    requires WrittenHunk(lines, h) && HunkAhead(rest)
    ensures !HasPrefix(lines[0], MARKER) && IsHunkHeader(lines[0]) && HunkContext(lines[0]) == h.context
    ensures TakeBody(before + lines + rest, |before| + 1) == Some(Parsed(Body(h.lines, h.endOfFile), |before| + |lines|))
  {
    hide *;
    HunkParts(lines, h);
    TakesBody(before + [lines[0]], h.lines, h.endOfFile, rest);
    BodyMoved(before, lines, lines[0], h, rest);
  }

  lemma HunksAhead(lines: seq<string>, hunks: seq<Hunk>, rest: seq<string>)
    requires WrittenHunks(lines, hunks) && MarkerAhead(rest)
    ensures HunkAhead(lines + rest)
  {
    hide HasPrefix, IsHunkHeader;
    if hunks == [] {
      assert lines + rest == rest;
    } else {
      HeaderOfHunk(lines[0], hunks[0].context);
    }
  }

  lemma FirstHunk(lines: seq<string>, hunks: seq<Hunk>)
    requires WrittenHunks(lines, hunks) && hunks != []
    ensures var n := HunkSize(hunks[0]);
            0 < n <= |lines| && WrittenHunk(lines[..n], hunks[0]) && WrittenHunks(lines[n..], hunks[1..]) && hunks[0].lines != []
    ensures hunks == [hunks[0]] + hunks[1..]
  {
    hide Spelled;
  }

  lemma NoHunksRead(before: seq<string>, lines: seq<string>, rest: seq<string>)
    requires WrittenHunks(lines, []) && MarkerAhead(rest)
    ensures TakeHunks(before + lines + rest, |before|) == Some(Parsed([], |before| + |lines|))
  {
    hide HasPrefix;
    assert (before + lines + rest)[|before|] == rest[0];
  }

  lemma {:induction false} HunksRead(before: seq<string>, lines: seq<string>, hunks: seq<Hunk>, rest: seq<string>)
    requires WrittenHunks(lines, hunks) && MarkerAhead(rest)
    ensures TakeHunks(before + lines + rest, |before|) == Some(Parsed(hunks, |before| + |lines|))
    decreases |hunks|
  {
    hide *;
    if hunks == [] {
      NoHunksRead(before, lines, rest);
    } else {
      var h, n := hunks[0], HunkSize(hunks[0]);
      FirstHunk(lines, hunks);
      HunksAhead(lines[n..], hunks[1..], rest);
      OneHunkRead(before, lines[..n], h, lines[n..] + rest);
      SplitLines(before, lines, n, rest);
      Regrouped(before, lines[..n], lines[n..], rest);
      HunksRead(before + lines[..n], lines[n..], hunks[1..], rest);
      InMiddle(before, lines, 0, rest);
      TakesOneHunk(before + lines + rest, |before|, h, Parsed(hunks[1..], |before| + |lines|), |before| + n);
    }
  }

  lemma MarkersDiffer(line: string)
    ensures HasPrefix(line, ADD) ==> line != END && MarkerAhead([line])
    ensures HasPrefix(line, DELETE) ==> line != END && !HasPrefix(line, ADD) && MarkerAhead([line])
    ensures HasPrefix(line, UPDATE) ==> line != END && !HasPrefix(line, ADD) && !HasPrefix(line, DELETE) && MarkerAhead([line])
    ensures HasPrefix(line, MOVE) ==> line != END
  {
    assert ADD[4] == 'A' && DELETE[4] == 'D' && UPDATE[4] == 'U' && MOVE[4] == 'M' && END[4] == 'E' && END_OF_FILE[4] == 'E';
    assert ADD[..4] == MARKER && DELETE[..4] == MARKER && UPDATE[..4] == MARKER;
    if HasPrefix(line, ADD) { assert line[..|ADD|][4] == line[4] && line[..4] == line[..|ADD|][..4]; }
    if HasPrefix(line, DELETE) { assert line[..|DELETE|][4] == line[4] && line[..4] == line[..|DELETE|][..4]; }
    if HasPrefix(line, UPDATE) { assert line[..|UPDATE|][4] == line[4] && line[..4] == line[..|UPDATE|][..4]; }
    if HasPrefix(line, MOVE) { assert line[..|MOVE|][4] == line[4]; }
  }

  lemma OperationHeader(lines: seq<string>, op: Operation)
    requires WrittenOperation(lines, op)
    ensures lines != [] && lines[0] != END && MarkerAhead([lines[0]])
  {
    hide HasPrefix, Heads, WrittenHunks;
    MarkersDiffer(lines[0]);
    match op
    case AddFile(path, _) => HeaderRead(lines[0], ADD, path);
    case DeleteFile(path) => HeaderRead(lines[0], DELETE, path);
    case UpdateFile(path, _, _) => HeaderRead(lines[0], UPDATE, path);
  }

  lemma OperationRead(before: seq<string>, lines: seq<string>, op: Operation, rest: seq<string>)
    requires WrittenOperation(lines, op) && MarkerAhead(rest)
    ensures TakeOperation(before + lines + rest, |before|) == Some(Parsed(op, |before| + |lines|))
  {
    hide HasPrefix, Heads, WrittenHunks, HeaderPath, TakeAdded, TakeHunks, Trimmed;
    var all := before + lines + rest;
    assert all[|before|] == lines[0];
    MarkersDiffer(lines[0]);
    match op
    case AddFile(path, added) =>
      HeaderRead(lines[0], ADD, path);
      AddedPrinted(lines[1..], added);
      TakesAdded(before + [lines[0]], added, rest);
      assert all == (before + [lines[0]]) + PrintAdded(added) + rest;
    case DeleteFile(path) =>
      HeaderRead(lines[0], DELETE, path);
    case UpdateFile(path, moveTo, hunks) =>
      HeaderRead(lines[0], UPDATE, path);
      UpdateRead(before, lines, path, moveTo, hunks, rest);
  }

  lemma UpdateParts(lines: seq<string>, path: string, moveTo: string, hunks: seq<Hunk>)
    requires WrittenOperation(lines, UpdateFile(path, moveTo, hunks))
    ensures |lines| >= 2 && WrittenHunks(lines[if moveTo == "" then 1 else 2..], hunks)
    ensures if moveTo == "" then !HasPrefix(lines[1], MOVE) else HasPrefix(lines[1], MOVE) && HeaderPath(lines[1], MOVE) == moveTo
  {
    hide Heads, HeaderPath, Trimmed, WrittenHunks;
    if moveTo == "" {
      NoMoveLine(lines[1..], hunks);
      assert lines[1..][0] == lines[1];
    } else {
      HeaderRead(lines[1], MOVE, moveTo);
    }
  }

  lemma UpdateRead(before: seq<string>, lines: seq<string>, path: string, moveTo: string, hunks: seq<Hunk>, rest: seq<string>)
    requires WrittenOperation(lines, UpdateFile(path, moveTo, hunks)) && MarkerAhead(rest)
    ensures var all := before + lines + rest;
            && |all| > |before| + 1 && (HasPrefix(all[|before| + 1], MOVE) <==> moveTo != "")
            && (moveTo != "" ==> HeaderPath(all[|before| + 1], MOVE) == moveTo)
            && TakeHunks(all, if moveTo != "" then |before| + 2 else |before| + 1) == Some(Parsed(hunks, |before| + |lines|))
  {
    hide *;
    var n := if moveTo == "" then 1 else 2;
    UpdateParts(lines, path, moveTo, hunks);
    InMiddle(before, lines, 1, rest);
    SplitLines(before, lines, n, rest);
    HunksRead(before + lines[..n], lines[n..], hunks, rest);
  }

  lemma InMiddle(before: seq<string>, lines: seq<string>, k: nat, rest: seq<string>)
    requires k < |lines|
    ensures (before + lines + rest)[|before| + k] == lines[k]
  {
  }

  lemma SplitLines(before: seq<string>, lines: seq<string>, n: nat, rest: seq<string>)
    requires n <= |lines|
    ensures before + lines + rest == (before + lines[..n]) + lines[n..] + rest
  {
  }

  lemma NoMoveLine(lines: seq<string>, hunks: seq<Hunk>)
    requires WrittenHunks(lines, hunks) && hunks != []
    ensures lines != [] && !HasPrefix(lines[0], MOVE)
  {
    FirstOfHunks(lines, hunks);
    PrefixAt(lines[0], MOVE, 0);
  }

  lemma FirstOfHunks(lines: seq<string>, hunks: seq<Hunk>)
    requires WrittenHunks(lines, hunks) && hunks != []
    ensures lines != [] && lines[0] != "" && lines[0][0] == '@'
  {
  }

  lemma FirstOperation(lines: seq<string>, ops: seq<Operation>)
    requires WrittenOperations(lines, ops) && ops != []
    ensures var n := OperationSize(ops[0]);
            0 < n <= |lines| && WrittenOperation(lines[..n], ops[0]) && WrittenOperations(lines[n..], ops[1..])
    ensures ops == [ops[0]] + ops[1..]
  {
    hide WrittenOperation;
  }

  lemma NoOperationsRead(before: seq<string>, lines: seq<string>, tail: seq<string>)
    requires WrittenOperations(lines, []) && tail != [] && tail[0] == END && Blank(tail[1..])
    ensures TakeOperations(before + lines + tail, |before|) == Some([])
  {
    var all := before + lines + tail;
    assert all[|before|] == END;
    assert forall k :: |before| < k < |all| ==> all[k] == tail[1..][k - |before| - 1];
  }

  lemma {:induction false} OperationsRead(before: seq<string>, lines: seq<string>, ops: seq<Operation>, tail: seq<string>)
    requires WrittenOperations(lines, ops) && tail != [] && tail[0] == END && Blank(tail[1..])
    ensures TakeOperations(before + lines + tail, |before|) == Some(ops)
    decreases |ops|
  {
    hide *;
    if ops == [] {
      NoOperationsRead(before, lines, tail);
    } else {
      var n := OperationSize(ops[0]);
      FirstOperation(lines, ops);
      OperationHeader(lines[..n], ops[0]);
      RestAhead(lines[n..], ops[1..], tail);
      OperationRead(before, lines[..n], ops[0], lines[n..] + tail);
      SplitLines(before, lines, n, tail);
      Regrouped(before, lines[..n], lines[n..], tail);
      OperationsRead(before + lines[..n], lines[n..], ops[1..], tail);
      InMiddle(before, lines, 0, tail);
      TakesFirst(before + lines + tail, |before|, ops[0], |before| + n, ops[1..]);
    }
  }

  lemma Regrouped(before: seq<string>, first: seq<string>, more: seq<string>, tail: seq<string>)
    ensures (before + first) + more + tail == before + first + (more + tail)
  {
  }

  lemma TakesFirst(lines: seq<string>, i: nat, op: Operation, next: nat, rest: seq<Operation>)
    requires i < |lines| && next <= |lines| && lines[i] != END && TakeOperation(lines, i) == Some(Parsed(op, next))
    requires TakeOperations(lines, next) == Some(rest)
    ensures TakeOperations(lines, i) == Some([op] + rest)
  {
    hide TakeOperation;
  }

  lemma RestAhead(lines: seq<string>, ops: seq<Operation>, tail: seq<string>)
    requires WrittenOperations(lines, ops) && tail != [] && tail[0] == END
    ensures MarkerAhead(lines + tail)
  {
    hide WrittenOperation, HasPrefix;
    EndAhead();
    if ops != [] {
      var first := lines[..OperationSize(ops[0])];
      OperationHeader(first, ops[0]);
      assert (lines + tail)[0] == first[0];
    }
  }

  // What is read is written.

  lemma {:induction false} AddedWritten(lines: seq<string>, i: nat)
    requires i <= |lines| && TakeAdded(lines, i).Some?
    ensures var p := TakeAdded(lines, i).value;
            p.next == i + |p.value| && forall k :: 0 <= k < |p.value| ==> lines[i + k] == "+" + p.value[k]
    decreases |lines| - i
  {
    if i < |lines| && !HasPrefix(lines[i], MARKER) {
      AddedWritten(lines, i + 1);
      var p, rest := TakeAdded(lines, i).value, TakeAdded(lines, i + 1).value;
      assert lines[i] == lines[i][..1] + lines[i][1..];
      forall k | 0 <= k < |p.value|
        ensures lines[i + k] == "+" + p.value[k]
      {
        if k > 0 { assert lines[i + 1 + (k - 1)] == "+" + rest.value[k - 1]; }
      }
    }
  }

  lemma SpelledOut(line: string)
    requires line != "" && OpOf(line[0]).Some?
    ensures Spelled(line, HunkLine(OpOf(line[0]).value, line[1..]))
  {
    assert line == [line[0]] + line[1..];
  }

  lemma {:induction false} BodyWritten(lines: seq<string>, i: nat)
    requires i <= |lines| && TakeBody(lines, i).Some?
    ensures var p := TakeBody(lines, i).value;
            var body := p.value.lines;
            && p.next == i + |body| + (if p.value.endOfFile then 1 else 0)
            && (forall k :: 0 <= k < |body| ==> Spelled(lines[i + k], body[k]))
            && (p.value.endOfFile ==> lines[i + |body|] == "*** End of File")
    decreases |lines| - i
  {
    hide HasPrefix, IsHunkHeader, Spelled;
    if i < |lines| && lines[i] != END_OF_FILE && !IsHunkHeader(lines[i]) && !HasPrefix(lines[i], MARKER) {
      BodyWritten(lines, i + 1);
      SpelledOut(lines[i]);
      var body, rest := TakeBody(lines, i).value.value.lines, TakeBody(lines, i + 1).value.value.lines;
      forall k | 0 <= k < |body|
        ensures Spelled(lines[i + k], body[k])
      {
        if k > 0 { assert Spelled(lines[i + 1 + (k - 1)], rest[k - 1]); }
      }
    }
  }

  lemma OneHunkWritten(lines: seq<string>, i: nat)
    requires i < |lines| && IsHunkHeader(lines[i]) && TakeBody(lines, i + 1).Some? && TakeBody(lines, i + 1).value.value.lines != []
    ensures var b := TakeBody(lines, i + 1).value;
            var h := Hunk(HunkContext(lines[i]), b.value.lines, b.value.endOfFile);
            b.next == i + HunkSize(h) && WrittenHunk(lines[i..b.next], h)
  {
    hide Spelled, TakeBody;
    BodyWritten(lines, i + 1);
    var b := TakeBody(lines, i + 1).value;
    var h := Hunk(HunkContext(lines[i]), b.value.lines, b.value.endOfFile);
    var own := lines[i..b.next];
    if HasPrefix(lines[i], "@@ ") { assert lines[i] == lines[i][..3] + lines[i][3..]; }
    forall k | 0 <= k < |h.lines|
      ensures Spelled(own[1 + k], h.lines[k])
    {
      assert own[1 + k] == lines[i + 1 + k];
    }
  }

  lemma {:induction false} HunksWritten(lines: seq<string>, i: nat)
    requires i <= |lines| && TakeHunks(lines, i).Some?
    ensures var p := TakeHunks(lines, i).value;
            p.next == i + HunksSize(p.value) && WrittenHunks(lines[i..p.next], p.value)
    decreases |lines| - i
  {
    hide HasPrefix, IsHunkHeader, HunkContext, TakeBody, WrittenHunk;
    if i < |lines| && !HasPrefix(lines[i], MARKER) {
      OneHunkWritten(lines, i);
      var b := TakeBody(lines, i + 1).value;
      HunksWritten(lines, b.next);
      var p := TakeHunks(lines, i).value;
      assert lines[i..p.next][..b.next - i] == lines[i..b.next];
      assert lines[i..p.next][b.next - i..] == lines[b.next..p.next];
    }
  }

  lemma OperationWritten(lines: seq<string>, i: nat)
    requires i < |lines| && TakeOperation(lines, i).Some?
    ensures var p := TakeOperation(lines, i).value;
            p.next == i + OperationSize(p.value) && WrittenOperation(lines[i..p.next], p.value)
  {
    hide HasPrefix, Heads, WrittenHunks, HeaderPath, TakeAdded, TakeHunks, Trimmed;
    var p := TakeOperation(lines, i).value;
    match p.value
    case AddFile(path, added) =>
      HeaderWritten(lines[i], ADD);
      AddedWritten(lines, i + 1);
      forall k | 0 <= k < |added|
        ensures lines[i..p.next][1 + k] == "+" + added[k]
      {
        assert lines[i..p.next][1 + k] == lines[i + 1 + k];
      }
    case DeleteFile(path) =>
      HeaderWritten(lines[i], DELETE);
    case UpdateFile(path, moveTo, hunks) =>
      HeaderWritten(lines[i], UPDATE);
      var first := if HasMove(lines, i + 1) then i + 2 else i + 1;
      if HasMove(lines, i + 1) { HeaderWritten(lines[i + 1], MOVE); }
      HunksWritten(lines, first);
      assert lines[i..p.next][first - i..] == lines[first..p.next];
  }

  lemma {:induction false} OperationsWritten(lines: seq<string>, i: nat) returns (end: nat)
    requires i <= |lines| && TakeOperations(lines, i).Some?
    ensures i <= end < |lines| && lines[end] == END && Blank(lines[end + 1..])
    ensures WrittenOperations(lines[i..end], TakeOperations(lines, i).value)
    decreases |lines| - i
  {
    hide TakeOperation, WrittenOperation;
    if lines[i] == END {
      end := i;
    } else {
      var p := TakeOperation(lines, i).value;
      OperationWritten(lines, i);
      end := OperationsWritten(lines, p.next);
      var n := OperationSize(p.value);
      assert lines[i..end][..n] == lines[i..p.next] && lines[i..end][n..] == lines[p.next..end];
    }
  }

  /** The parser accepts exactly the patches the grammar describes, and reads the operations they are written from. */
  lemma AcceptsExactly(patch: string, ops: seq<Operation>)
    ensures Meaning(patch) == Some(ops) <==> Written(PatchLines(patch), ops)
  {
    hide TakeOperations, WrittenOperations, Split, CRLFToLF;
    var lines := PatchLines(patch);
    if Meaning(patch) == Some(ops) {
      var end := OperationsWritten(lines, 1);
      var body, blanks := lines[1..end], lines[end + 1..];
      assert lines == ["*** Begin Patch"] + body + ["*** End Patch"] + blanks;
    }
    if Written(lines, ops) {
      var body, blanks :| lines == ["*** Begin Patch"] + body + ["*** End Patch"] + blanks && WrittenOperations(body, ops) && Blank(blanks);
      var tail := ["*** End Patch"] + blanks;
      assert tail[1..] == blanks && lines == ["*** Begin Patch"] + body + tail;
      OperationsRead(["*** Begin Patch"], body, ops, tail);
    }
  }

  // What may follow the end marker.

  lemma {:induction false} EndingBehind(a: string, ending: string)
    requires ending in {LF, CRLF} && (a == "" || a[|a| - 1] != '\r')
    ensures CRLFToLF(a + ending) == CRLFToLF(a) + LF
    decreases |a|
  {
    if a == "" {
      assert a + ending == ending;
      assert ending == CRLF ==> ending[2..] == "";
      if ending == LF { PrefixAt(LF, CRLF, 0); }
    } else if HasPrefix(a, CRLF) {
      EndingBehind(a[2..], ending);
      assert (a + ending)[..2] == a[..2] && (a + ending)[2..] == a[2..] + ending;
      assert LF + (CRLFToLF(a[2..]) + LF) == LF + CRLFToLF(a[2..]) + LF;
    } else {
      EndingBehind(a[1..], ending);
      assert (a + ending)[1..] == a[1..] + ending;
      NoPrefixBehind(a, ending);
      assert [a[0]] + (CRLFToLF(a[1..]) + LF) == [a[0]] + CRLFToLF(a[1..]) + LF;
    }
  }

  lemma NoPrefixBehind(a: string, more: string)
    requires a != "" && a[|a| - 1] != '\r' && !HasPrefix(a, CRLF)
    ensures !HasPrefix(a + more, CRLF)
  {
    if |a| >= 2 { assert (a + more)[..2] == a[..2]; } else { PrefixAt(a + more, CRLF, 0); }
  }

  lemma {:induction false} LastStays(a: string)
    requires a != "" && a[|a| - 1] == '\r'
    ensures var b := CRLFToLF(a); b != "" && b[|b| - 1] == '\r'
    decreases |a|
  {
    if |a| == 1 {
      assert a[1..] == "";
    } else if HasPrefix(a, CRLF) {
      assert |a| > 2 by { if |a| == 2 { assert a == CRLF; } }
      LastStays(a[2..]);
    } else {
      LastStays(a[1..]);
    }
  }

  lemma {:induction false} LastLine(s: string)
    requires s != "" && s[|s| - 1] != '\n'
    ensures var lines := Split(s, '\n');
            var last := lines[|lines| - 1];
            last != "" && last[|last| - 1] == s[|s| - 1]
  {
    if |s| > 1 {
      LastLine(s[1..]);
    } else {
      assert s[1..] == "";
    }
  }

  lemma {:induction false} NewlineSplits(s: string)
    ensures Split(s + LF, '\n') == Split(s, '\n') + [""]
  {
    if s == "" {
      assert s + LF == LF && LF[1..] == "";
    } else {
      NewlineSplits(s[1..]);
      assert (s + LF)[1..] == s[1..] + LF;
    }
  }

  /** The last line of an accepted patch is the end marker or empty. */
  lemma WrittenEnds(lines: seq<string>, ops: seq<Operation>)
    requires Written(lines, ops)
    ensures lines != [] && (lines[|lines| - 1] == "" || lines[|lines| - 1] == END)
    ensures Written(lines + [""], ops)
  {
    hide WrittenOperations;
    var body, blanks :| lines == ["*** Begin Patch"] + body + ["*** End Patch"] + blanks && WrittenOperations(body, ops) && Blank(blanks);
    assert lines + [""] == ["*** Begin Patch"] + body + ["*** End Patch"] + (blanks + [""]) && Blank(blanks + [""]);
    if blanks != [] { assert lines[|lines| - 1] == blanks[|blanks| - 1]; }
  }

  /** A line ending behind an accepted patch changes nothing. */
  lemma EndingKeepsMeaning(patch: string, ending: string)
    requires Meaning(patch).Some? && ending in {LF, CRLF}
    ensures Meaning(patch + ending) == Meaning(patch)
  {
    hide *;
    var ops := Meaning(patch).value;
    AcceptsExactly(patch, ops);
    WrittenEnds(PatchLines(patch), ops);
    LinesBehind(patch, ending);
    AcceptsExactly(patch + ending, ops);
  }

  lemma LinesBehind(patch: string, ending: string)
    requires ending in {LF, CRLF}
    requires var lines := PatchLines(patch); lines != [] && (lines[|lines| - 1] == "" || lines[|lines| - 1] == END)
    ensures PatchLines(patch + ending) == PatchLines(patch) + [""]
  {
    hide CRLFToLF, Split;
    assert END[|END| - 1] == 'h';
    if patch != "" && patch[|patch| - 1] == '\r' {
      LastStays(patch);
      LastLine(CRLFToLF(patch));
    }
    EndingBehind(patch, ending);
    NewlineSplits(CRLFToLF(patch));
  }

  function Repeated(ending: string, n: nat): string { if n == 0 then "" else Repeated(ending, n - 1) + ending }

  /** The parser inverts the printer with any number of line endings behind. */
  lemma {:induction false} ParserInvertsPrinted(ops: seq<Operation>, ending: string, n: nat)
    requires ops != [] && ending in {LF, CRLF}
    requires forall k :: 0 <= k < |ops| ==> Sensible(ops[k]) && CleanOperation(ops[k])
    ensures Meaning(PrintPatch(ops, ending) + Repeated(ending, n)) == Some(ops)
  {
    hide Meaning, PrintPatch, Sensible, CleanOperation;
    var patch := PrintPatch(ops, ending);
    if n == 0 {
      ParserInvertsPrinter(ops, ending);
      assert patch + "" == patch;
    } else {
      ParserInvertsPrinted(ops, ending, n - 1);
      EndingKeepsMeaning(patch + Repeated(ending, n - 1), ending);
      assert patch + Repeated(ending, n - 1) + ending == patch + (Repeated(ending, n - 1) + ending);
    }
  }

  lemma {:induction false} NoEndInHunks(lines: seq<string>, hunks: seq<Hunk>)
    requires WrittenHunks(lines, hunks)
    ensures END !in lines
    decreases |hunks|
  {
    if hunks != [] {
      var n := HunkSize(hunks[0]);
      NoEndInHunk(lines[..n], hunks[0]);
      NoEndInHunks(lines[n..], hunks[1..]);
      assert lines == lines[..n] + lines[n..];
    }
  }

  lemma NoEndInHunk(lines: seq<string>, h: Hunk)
    requires WrittenHunk(lines, h)
    ensures END !in lines
  {
    assert END[0] == '*' && END[4] == 'E' && END[8] == 'P' && END_OF_FILE[8] == 'o';
    forall k | 0 <= k < |lines|
      ensures lines[k] != END
    {
      if 1 <= k <= |h.lines| { assert Spelled(lines[1 + (k - 1)], h.lines[k - 1]); }
    }
  }

  lemma NoEndInOperation(lines: seq<string>, op: Operation)
    requires WrittenOperation(lines, op)
    ensures END !in lines
  {
    hide Heads, WrittenHunks, HasPrefix;
    OperationHeader(lines, op);
    assert END[0] == '*';
    match op
    case AddFile(_, added) =>
      forall k | 0 < k < |lines|
        ensures lines[k] != END
      {
        assert lines[1 + (k - 1)] == "+" + added[k - 1];
      }
    case DeleteFile(_) =>
    case UpdateFile(_, moveTo, hunks) =>
      if moveTo == "" {
        NoEndInHunks(lines[1..], hunks);
        assert lines == [lines[0]] + lines[1..];
      } else {
        HeaderRead(lines[1], MOVE, moveTo);
        MarkersDiffer(lines[1]);
        NoEndInHunks(lines[2..], hunks);
        assert lines == [lines[0], lines[1]] + lines[2..];
      }
  }

  lemma {:induction false} NoEndInside(lines: seq<string>, ops: seq<Operation>)
    requires WrittenOperations(lines, ops)
    ensures END !in lines
    decreases |ops|
  {
    hide WrittenOperation;
    if ops != [] {
      var n := OperationSize(ops[0]);
      NoEndInOperation(lines[..n], ops[0]);
      NoEndInside(lines[n..], ops[1..]);
      assert lines == lines[..n] + lines[n..];
    }
  }

  lemma NothingBehind(lines: seq<string>, ops: seq<Operation>, i: nat, k: nat)
    requires Written(lines, ops) && i < k < |lines| && lines[i] == "*** End Patch"
    ensures lines[k] == ""
  {
    hide WrittenOperations;
    var body, blanks :| lines == ["*** Begin Patch"] + body + ["*** End Patch"] + blanks && WrittenOperations(body, ops) && Blank(blanks);
    NoEndInside(body, ops);
    assert lines[0][4] == 'B' && lines[i][4] == 'E';
    assert forall m :: 0 <= m < |body| ==> lines[1 + m] == body[m];
    assert lines[k] == blanks[k - |body| - 2];
  }

  /** Text behind the end marker is refused. */
  lemma NothingBehindEnd(patch: string, i: nat, k: nat)
    requires var lines := PatchLines(patch); i < k < |lines| && lines[i] == "*** End Patch" && lines[k] != ""
    ensures Meaning(patch).None?
  {
    hide *;
    if Meaning(patch).Some? {
      AcceptsExactly(patch, Meaning(patch).value);
      NothingBehind(PatchLines(patch), Meaning(patch).value, i, k);
    }
  }
}
