/** Parsing inverts printing on whole patch texts, and whatever parses can be printed. */
module PatchRoundTrip {
  import opened Options
  import opened Text
  import opened PatchHunks
  import opened PatchText
  import opened PatchParser
  import opened PatchPrinter

  /** A line the text format can carry. */
  predicate Clean(line: string) {
    '\n' !in line && (line == "" || line[|line| - 1] != '\r')
  }

  predicate AllClean(lines: seq<string>) {
    forall k :: 0 <= k < |lines| ==> Clean(lines[k])
  }

  predicate CleanHunk(hunk: Hunk) {
    Clean(hunk.context) && forall k :: 0 <= k < |hunk.lines| ==> Clean(hunk.lines[k].text)
  }

  predicate CleanOperation(op: Operation) {
    && Clean(op.path)
    && (op.AddFile? ==> AllClean(op.lines))
    && (op.UpdateFile? ==> Clean(op.moveTo) && forall k :: 0 <= k < |op.hunks| ==> CleanHunk(op.hunks[k]))
  }

  lemma CleanJoined(a: string, b: string)
    requires Clean(a) && Clean(b)
    ensures Clean(a + b)
  {
    assert b != "" ==> (a + b)[|a + b| - 1] == b[|b| - 1];
  }

  lemma {:induction false} AddedClean(lines: seq<string>)
    requires AllClean(lines)
    ensures AllClean(PrintAdded(lines))
  {
    if lines != [] {
      CleanJoined("+", lines[0]);
      AddedClean(lines[1..]);
    }
  }

  lemma {:induction false} BodyClean(lines: seq<HunkLine>)
    requires forall k :: 0 <= k < |lines| ==> Clean(lines[k].text)
    ensures AllClean(PrintBody(lines))
  {
    if lines != [] {
      CleanJoined([CharOf(lines[0].op)], lines[0].text);
      BodyClean(lines[1..]);
    }
  }

  lemma {:induction false} HunksClean(hunks: seq<Hunk>)
    requires forall k :: 0 <= k < |hunks| ==> CleanHunk(hunks[k])
    ensures AllClean(PrintHunks(hunks))
  {
    hide PrintBody, Clean;
    if hunks != [] {
      BodyClean(hunks[0].lines);
      ConstantsClean();
      CleanJoined("@@ ", hunks[0].context);
      HunksClean(hunks[1..]);
    }
  }

  lemma ConstantsClean()
    ensures Clean("@@ ") && Clean("@@") && Clean(END_OF_FILE) && Clean(ADD) && Clean(DELETE) && Clean(UPDATE) && Clean(MOVE)
    ensures Clean(BEGIN) && Clean(END)
  {
  }

  lemma OperationPrintsClean(op: Operation)
    requires CleanOperation(op)
    ensures AllClean(PrintOperation(op))
  {
    hide Clean, PrintAdded, PrintHunks, CleanHunk;
    ConstantsClean();
    match op
    case AddFile(path, lines) => CleanJoined(ADD, path); AddedClean(lines);
    case DeleteFile(path) => CleanJoined(DELETE, path);
    case UpdateFile(path, moveTo, hunks) => CleanJoined(UPDATE, path); CleanJoined(MOVE, moveTo); HunksClean(hunks);
  }

  lemma {:induction false} OperationsPrintClean(ops: seq<Operation>)
    requires forall k :: 0 <= k < |ops| ==> CleanOperation(ops[k])
    ensures AllClean(PrintOperations(ops))
  {
    hide Clean, PrintOperation, CleanOperation;
    if ops != [] {
      OperationPrintsClean(ops[0]);
      OperationsPrintClean(ops[1..]);
    }
  }

  lemma {:induction false} CleanToEnding(line: string, ending: string, rest: string)
    requires Clean(line) && ending in {LF, CRLF}
    ensures CRLFToLF(line + ending + rest) == line + LF + CRLFToLF(rest)
  {
    var s := line + ending + rest;
    if line == "" {
      assert s == ending + rest;
      if ending == CRLF {
        assert s[..2] == CRLF && s[2..] == rest;
      } else {
        assert s[0] == '\n' && s[1..] == rest;
        assert !HasPrefix(s, CRLF) by { PrefixAt(s, CRLF, 0); }
      }
    } else {
      assert s[1..] == line[1..] + ending + rest;
      if |line| > 1 {
        PrefixAt(s, CRLF, 1);
      } else {
        PrefixAt(s, CRLF, 0);
      }
      CleanToEnding(line[1..], ending, rest);
    }
  }

  lemma {:induction false} CleanAlone(line: string)
    requires '\n' !in line
    ensures CRLFToLF(line) == line
  {
    if line != "" {
      if |line| > 1 { PrefixAt(line, CRLF, 1); }
      CleanAlone(line[1..]);
    }
  }

  /** Either line ending: normalizing the joined text gives it with plain newlines. */
  lemma {:induction false} JoinedToLF(lines: seq<string>, ending: string)
    requires AllClean(lines) && lines != [] && ending in {LF, CRLF}
    ensures CRLFToLF(Join(lines, ending)) == Join(lines, LF)
  {
    if |lines| == 1 {
      CleanAlone(lines[0]);
    } else {
      JoinedToLF(lines[1..], ending);
      CleanToEnding(lines[0], ending, Join(lines[1..], ending));
    }
  }

  /** The parser inverts the printer, whichever line ending the text uses. */
  lemma ParserInvertsPrinter(ops: seq<Operation>, ending: string)
    requires ops != [] && ending in {LF, CRLF}
    requires forall k :: 0 <= k < |ops| ==> Sensible(ops[k]) && CleanOperation(ops[k])
    ensures Meaning(PrintPatch(ops, ending)) == Some(ops)
  {
    hide Sensible, CleanOperation, PrintOperations, TakeOperations, CRLFToLF, Clean, Split, Join;
    var lines := [BEGIN] + PrintOperations(ops) + [END];
    OperationsPrintClean(ops);
    ConstantsClean();
    JoinedToLF(lines, ending);
    NoNewlines(lines);
    SplitJoin(lines, '\n');
    TakesOperations([BEGIN], ops);
  }

  lemma NoNewlines(lines: seq<string>)
    requires AllClean(lines)
    ensures forall k :: 0 <= k < |lines| ==> '\n' !in lines[k]
  {
  }

  lemma {:induction false} TrimLeftPart(s: string)
    ensures TrimLeft(s) == "" || !IsSpace(TrimLeft(s)[0])
    ensures '\n' !in s ==> '\n' !in TrimLeft(s)
  {
    if s != "" && IsSpace(s[0]) { TrimLeftPart(s[1..]); }
  }

  lemma {:induction false} TrimRightPart(s: string)
    ensures TrimRight(s) == "" || (TrimRight(s)[0] == s[0] && !IsSpace(TrimRight(s)[|TrimRight(s)| - 1]))
    ensures |TrimRight(s)| <= |s|
    ensures '\n' !in s ==> '\n' !in TrimRight(s)
  {
    if s != "" && IsSpace(s[|s| - 1]) { TrimRightPart(s[..|s| - 1]); }
  }

  lemma HeaderPathTrimmed(line: string, prefix: string)
    ensures HeaderPath(line, prefix) == "" || Trimmed(HeaderPath(line, prefix))
    ensures Clean(line) ==> Clean(HeaderPath(line, prefix))
  {
    hide TrimLeft, TrimRight, HasPrefix;
    var rest := TrimPrefix(line, prefix);
    TrimLeftPart(rest);
    TrimRightPart(TrimLeft(rest));
  }

  lemma CleanTail(line: string, n: nat)
    requires Clean(line) && n <= |line|
    ensures Clean(line[n..])
  {
  }

  lemma {:induction false} AddedParts(lines: seq<string>, i: nat)
    requires i <= |lines| && TakeAdded(lines, i).Some? && AllClean(lines)
    ensures AllClean(TakeAdded(lines, i).value.value)
    decreases |lines| - i
  {
    hide Clean;
    if i < |lines| && !HasPrefix(lines[i], MARKER) {
      CleanTail(lines[i], 1);
      AddedParts(lines, i + 1);
    }
  }

  lemma {:induction false} BodyParts(lines: seq<string>, i: nat)
    requires i <= |lines| && TakeBody(lines, i).Some? && AllClean(lines)
    ensures var body := TakeBody(lines, i).value.value.lines; forall k :: 0 <= k < |body| ==> Clean(body[k].text)
    decreases |lines| - i
  {
    hide Clean, HasPrefix, IsHunkHeader;
    if i < |lines| && lines[i] != END_OF_FILE && !IsHunkHeader(lines[i]) && !HasPrefix(lines[i], MARKER) {
      CleanTail(lines[i], 1);
      BodyParts(lines, i + 1);
    }
  }

  lemma {:induction false} HunksParts(lines: seq<string>, i: nat)
    requires i <= |lines| && TakeHunks(lines, i).Some?
    ensures var hunks := TakeHunks(lines, i).value.value;
            && (forall k :: 0 <= k < |hunks| ==> hunks[k].lines != [])
            && (AllClean(lines) ==> forall k :: 0 <= k < |hunks| ==> CleanHunk(hunks[k]))
    decreases |lines| - i
  {
    hide Clean, HasPrefix, IsHunkHeader, TakeBody;
    if i < |lines| && !HasPrefix(lines[i], MARKER) {
      var body := TakeBody(lines, i + 1).value;
      HunksParts(lines, body.next);
      if AllClean(lines) {
        HeaderContextClean(lines[i]);
        BodyParts(lines, i + 1);
      }
    }
  }

  lemma HeaderContextClean(line: string)
    requires Clean(line)
    ensures Clean(HunkContext(line))
  {
  }

  lemma OperationParts(lines: seq<string>, i: nat)
    requires i < |lines| && TakeOperation(lines, i).Some?
    ensures Sensible(TakeOperation(lines, i).value.value)
    ensures AllClean(lines) ==> CleanOperation(TakeOperation(lines, i).value.value)
  {
    hide Clean, HasPrefix, TakeHunks, TakeAdded, HeaderPath, Trimmed;
    var op := TakeOperation(lines, i).value.value;
    match op
    case AddFile(path, added) =>
      HeaderPathTrimmed(lines[i], ADD);
      if AllClean(lines) { AddedParts(lines, i + 1); }
    case DeleteFile(path) =>
      HeaderPathTrimmed(lines[i], DELETE);
    case UpdateFile(path, moveTo, hunks) =>
      HeaderPathTrimmed(lines[i], UPDATE);
      if HasMove(lines, i + 1) { HeaderPathTrimmed(lines[i + 1], MOVE); }
      HunksParts(lines, if HasMove(lines, i + 1) then i + 2 else i + 1);
      ConstantsClean();
      EmptyClean();
  }

  lemma EmptyClean()
    ensures Clean("")
  {
  }

  lemma {:induction false} OperationsParts(lines: seq<string>, i: nat)
    requires i <= |lines| && TakeOperations(lines, i).Some?
    ensures var ops := TakeOperations(lines, i).value;
            forall k :: 0 <= k < |ops| ==> Sensible(ops[k]) && (AllClean(lines) ==> CleanOperation(ops[k]))
    decreases |lines| - i
  {
    hide AllClean, TakeOperation, Sensible, CleanOperation;
    if lines[i] != END {
      OperationParts(lines, i);
      OperationsParts(lines, TakeOperation(lines, i).value.next);
    }
  }

  /** Every accepted patch text means sensible operations, and printing them gives a text with the same meaning. */
  lemma AcceptedPrintsBack(patch: string)
    requires Meaning(patch).Some?
    ensures var ops := Meaning(patch).value;
            && ops != [] && (forall k :: 0 <= k < |ops| ==> Sensible(ops[k]))
            && (AllClean(PatchLines(patch)) ==> Meaning(PrintPatch(ops, LF)) == Some(ops))
  {
    hide AllClean, Sensible, CleanOperation, PatchLines, PrintPatch;
    OperationsParts(PatchLines(patch), 1);
    if AllClean(PatchLines(patch)) { ParserInvertsPrinter(Meaning(patch).value, LF); }
  }

  lemma {:induction false} AddedWhole(lines: seq<string>, i: nat)
    requires i <= |lines| && TakeAdded(lines, i).Some? && forall k :: 0 <= k < |lines| ==> '\n' !in lines[k]
    ensures var added := TakeAdded(lines, i).value.value; forall k :: 0 <= k < |added| ==> '\n' !in added[k]
    decreases |lines| - i
  {
    if i < |lines| && !HasPrefix(lines[i], MARKER) { AddedWhole(lines, i + 1); }
  }

  /** An added file has lines, and none of them contains a newline. */
  predicate WholeLines(op: Operation) {
    op.AddFile? ==> op.lines != [] && forall k :: 0 <= k < |op.lines| ==> '\n' !in op.lines[k]
  }

  lemma {:induction false} OperationsWhole(lines: seq<string>, i: nat)
    requires i <= |lines| && TakeOperations(lines, i).Some? && forall k :: 0 <= k < |lines| ==> '\n' !in lines[k]
    ensures var ops := TakeOperations(lines, i).value; forall k :: 0 <= k < |ops| ==> WholeLines(ops[k])
    decreases |lines| - i
  {
    hide TakeAdded, TakeHunks, HasPrefix, HeaderPath;
    if lines[i] != END {
      var op := TakeOperation(lines, i).value;
      if op.value.AddFile? { AddedWhole(lines, i + 1); }
      OperationsWhole(lines, op.next);
    }
  }

  /** No added line the parser reads contains a newline, so an added file's lines fix its content. */
  lemma AcceptedAreWhole(patch: string)
    requires Meaning(patch).Some?
    ensures forall op :: op in Meaning(patch).value ==> WholeLines(op)
  {
    hide Split, TakeOperations, WholeLines;
    SplitClean(CRLFToLF(patch), '\n');
    OperationsWhole(PatchLines(patch), 1);
  }
}
