/** Prints operations as patch text, and shows that the parser reads them back. */
module PatchPrinter {
  import opened Options
  import opened Text
  import opened PatchHunks
  import opened PatchText
  import opened PatchParser

  function PrintAdded(lines: seq<string>): seq<string> {
    if lines == [] then [] else ["+" + lines[0]] + PrintAdded(lines[1..])
  }

  function PrintBody(lines: seq<HunkLine>): seq<string> {
    if lines == [] then [] else [[CharOf(lines[0].op)] + lines[0].text] + PrintBody(lines[1..])
  }

  function PrintHunk(hunk: Hunk): seq<string> {
    [if hunk.context == "" then "@@" else "@@ " + hunk.context] + PrintBody(hunk.lines) + if hunk.endOfFile then [END_OF_FILE] else []
  }

  function PrintHunks(hunks: seq<Hunk>): seq<string> {
    if hunks == [] then [] else PrintHunk(hunks[0]) + PrintHunks(hunks[1..])
  }

  function PrintOperation(op: Operation): (r: seq<string>) {
    match op
    case AddFile(path, lines) => [ADD + path] + PrintAdded(lines)
    case DeleteFile(path) => [DELETE + path]
    case UpdateFile(path, moveTo, hunks) =>
      [UPDATE + path] + (if moveTo == "" then [] else [MOVE + moveTo]) + PrintHunks(hunks)
  }

  function PrintOperations(ops: seq<Operation>): seq<string> {
    if ops == [] then [] else PrintOperation(ops[0]) + PrintOperations(ops[1..])
  }

  function PrintPatch(ops: seq<Operation>, ending: string): string {
    Join([BEGIN] + PrintOperations(ops) + [END], ending)
  }

  /** Operations the format can carry: trimmed paths, and something to do. */
  predicate Sensible(op: Operation) {
    match op
    case AddFile(path, lines) => Trimmed(path) && lines != []
    case DeleteFile(path) => Trimmed(path)
    case UpdateFile(path, moveTo, hunks) =>
      && Trimmed(path) && (moveTo == "" || Trimmed(moveTo)) && (hunks != [] || moveTo != "")
      && forall k :: 0 <= k < |hunks| ==> hunks[k].lines != []
  }

  /** The rest of the patch does not run on: it starts with a marker line. */
  predicate MarkerAhead(rest: seq<string>) {
    rest != [] && HasPrefix(rest[0], MARKER) && rest[0] != END_OF_FILE
  }

  lemma {:induction false} TakesAdded(before: seq<string>, added: seq<string>, rest: seq<string>)
    requires MarkerAhead(rest)
    ensures TakeAdded(before + PrintAdded(added) + rest, |before|) == Some(Parsed(added, |before| + |PrintAdded(added)|))
    decreases added
  {
    var lines := before + PrintAdded(added) + rest;
    if added == [] {
      assert lines[|before|] == rest[0];
    } else {
      var line := "+" + added[0];
      assert PrintAdded(added) == [line] + PrintAdded(added[1..]);
      assert lines == (before + [line]) + PrintAdded(added[1..]) + rest;
      assert lines[|before|] == line && line[1..] == added[0] && line[0] == '+' && HasPrefix(line, "+");
      TakesAdded(before + [line], added[1..], rest);
      assert added == [added[0]] + added[1..];
    }
  }

  lemma PrefixAt(s: string, prefix: string, k: nat)
    requires k < |prefix| && k < |s|
    ensures HasPrefix(s, prefix) ==> s[k] == prefix[k]
  {
    if HasPrefix(s, prefix) { assert s[..|prefix|][k] == s[k]; }
  }

  lemma BodyLine(line: HunkLine)
    ensures var printed := [CharOf(line.op)] + line.text;
            && printed != "" && printed != END_OF_FILE && !IsHunkHeader(printed) && !HasPrefix(printed, MARKER)
            && OpOf(printed[0]) == Some(line.op) && printed[1..] == line.text
  {
    var printed := [CharOf(line.op)] + line.text;
    PrefixAt(printed, MARKER, 0);
    PrefixAt(printed, "@@ ", 0);
    assert END_OF_FILE[0] == '*' && "@@"[0] == '@';
  }

  predicate HunkAhead(rest: seq<string>) {
    rest != [] && (IsHunkHeader(rest[0]) || HasPrefix(rest[0], MARKER)) && rest[0] != END_OF_FILE
  }

  lemma {:induction false} TakesBody(before: seq<string>, body: seq<HunkLine>, endOfFile: bool, rest: seq<string>)
    requires HunkAhead(rest)
    ensures var end := if endOfFile then [END_OF_FILE] else [];
            TakeBody(before + PrintBody(body) + end + rest, |before|) ==
              Some(Parsed(Body(body, endOfFile), |before| + |PrintBody(body)| + |end|))
    decreases body
  {
    hide HasPrefix, IsHunkHeader;
    var end := if endOfFile then [END_OF_FILE] else [];
    var lines := before + PrintBody(body) + end + rest;
    if body == [] {
      assert lines[|before|] == (end + rest)[0];
    } else {
      var line := [CharOf(body[0].op)] + body[0].text;
      BodyLine(body[0]);
      assert PrintBody(body) == [line] + PrintBody(body[1..]);
      assert lines == (before + [line]) + PrintBody(body[1..]) + end + rest;
      assert lines[|before|] == line;
      TakesBody(before + [line], body[1..], endOfFile, rest);
      assert body == [body[0]] + body[1..];
    }
  }

  lemma HunkHeaderLine(context: string)
    ensures var header := if context == "" then "@@" else "@@ " + context;
            IsHunkHeader(header) && !HasPrefix(header, MARKER) && header != END_OF_FILE && HunkContext(header) == context
  {
    var header := if context == "" then "@@" else "@@ " + context;
    assert header[0] == '@' && END_OF_FILE[0] == '*';
    PrefixAt(header, MARKER, 0);
    if context != "" {
      assert header[..3] == "@@ ";
      assert header[3..] == context;
    }
  }

  lemma TakesOneHunk(lines: seq<string>, i: nat, hunk: Hunk, rest: Parsed<seq<Hunk>>, next: nat)
    requires i < |lines| && next <= |lines| && !HasPrefix(lines[i], MARKER) && IsHunkHeader(lines[i]) && HunkContext(lines[i]) == hunk.context
    requires TakeBody(lines, i + 1) == Some(Parsed(Body(hunk.lines, hunk.endOfFile), next)) && hunk.lines != []
    requires TakeHunks(lines, next) == Some(rest)
    ensures TakeHunks(lines, i) == Some(Parsed([hunk] + rest.value, rest.next))
  {
    hide HasPrefix, IsHunkHeader, HunkContext, TakeBody;
  }

  lemma {:induction false} TakesHunks(before: seq<string>, hunks: seq<Hunk>, rest: seq<string>)
    requires MarkerAhead(rest) && forall k :: 0 <= k < |hunks| ==> hunks[k].lines != []
    ensures TakeHunks(before + PrintHunks(hunks) + rest, |before|) == Some(Parsed(hunks, |before| + |PrintHunks(hunks)|))
    decreases hunks
  {
    hide HasPrefix, IsHunkHeader, HunkContext, TakeBody, PrintBody;
    var lines := before + PrintHunks(hunks) + rest;
    if hunks == [] {
      assert lines[|before|] == rest[0];
    } else {
      hide TakeHunks;
      var h, more := hunks[0], PrintHunks(hunks[1..]) + rest;
      var printed := PrintHunk(h);
      var header := if h.context == "" then "@@" else "@@ " + h.context;
      HunkHeaderLine(h.context);
      assert lines == before + printed + more;
      TakesBodyOf(before, h, hunks[1..], rest);
      assert lines == (before + printed) + PrintHunks(hunks[1..]) + rest;
      TakesHunks(before + printed, hunks[1..], rest);
      assert lines[|before|] == printed[0] == header;
      TakesOneHunk(lines, |before|, h, Parsed(hunks[1..], |before + printed| + |PrintHunks(hunks[1..])|), |before + printed|);
      assert hunks == [h] + hunks[1..];
    }
  }

  lemma TakesBodyOf(before: seq<string>, h: Hunk, hunks: seq<Hunk>, rest: seq<string>)
    requires MarkerAhead(rest)
    ensures TakeBody(before + PrintHunk(h) + (PrintHunks(hunks) + rest), |before| + 1) ==
              Some(Parsed(Body(h.lines, h.endOfFile), |before + PrintHunk(h)|))
  {
    hide HasPrefix, IsHunkHeader, TakeBody, PrintBody, PrintHunks;
    var header := if h.context == "" then "@@" else "@@ " + h.context;
    var end := if h.endOfFile then [END_OF_FILE] else [];
    HunkAheadOf(hunks, rest);
    TakesBody(before + [header], h.lines, h.endOfFile, PrintHunks(hunks) + rest);
    assert before + PrintHunk(h) + (PrintHunks(hunks) + rest) ==
           (before + [header]) + PrintBody(h.lines) + end + (PrintHunks(hunks) + rest);
  }

  lemma HunkAheadOf(hunks: seq<Hunk>, rest: seq<string>)
    requires MarkerAhead(rest)
    ensures HunkAhead(PrintHunks(hunks) + rest)
  {
    hide HasPrefix, IsHunkHeader;
    if hunks != [] {
      HunkHeaderLine(hunks[0].context);
      assert (PrintHunks(hunks) + rest)[0] == PrintHunk(hunks[0])[0];
    }
  }

  lemma HeaderLines(path: string)
    requires Trimmed(path)
    ensures HasPrefix(ADD + path, ADD) && HeaderPath(ADD + path, ADD) == path
    ensures HasPrefix(DELETE + path, DELETE) && HeaderPath(DELETE + path, DELETE) == path && !HasPrefix(DELETE + path, ADD)
    ensures HasPrefix(UPDATE + path, UPDATE) && HeaderPath(UPDATE + path, UPDATE) == path
    ensures !HasPrefix(UPDATE + path, ADD) && !HasPrefix(UPDATE + path, DELETE)
    ensures HasPrefix(MOVE + path, MOVE) && HeaderPath(MOVE + path, MOVE) == path
    ensures MarkerAhead([ADD + path]) && MarkerAhead([DELETE + path]) && MarkerAhead([UPDATE + path])
    ensures path != "" && ADD + path != END && DELETE + path != END && UPDATE + path != END
  {
    TrimTrimmed(path);
    HeaderLine(ADD, path);
    HeaderLine(DELETE, path);
    HeaderLine(UPDATE, path);
    HeaderLine(MOVE, path);
    assert (ADD + path)[4] == 'A' && (DELETE + path)[4] == 'D' && (UPDATE + path)[4] == 'U';
    assert ADD[4] == 'A' && DELETE[4] == 'D' && END[4] == 'E' && END_OF_FILE[4] == 'E';
    DifferAt4(UPDATE + path, ADD);
    DifferAt4(UPDATE + path, DELETE);
    DifferAt4(DELETE + path, ADD);
  }

  lemma DifferAt4(s: string, prefix: string)
    requires |s| > 4 && |prefix| > 4 && s[4] != prefix[4]
    ensures !HasPrefix(s, prefix)
  {
    PrefixAt(s, prefix, 4);
  }

  lemma HeaderLine(prefix: string, path: string)
    requires HasPrefix(prefix, MARKER)
    ensures HasPrefix(prefix + path, prefix) && TrimPrefix(prefix + path, prefix) == path && HasPrefix(prefix + path, MARKER)
  {
    assert (prefix + path)[..|prefix|] == prefix;
    assert (prefix + path)[..4] == prefix[..4];
  }

  lemma TakesOperation(before: seq<string>, op: Operation, rest: seq<string>)
    requires Sensible(op) && MarkerAhead(rest)
    ensures TakeOperation(before + PrintOperation(op) + rest, |before|) == Some(Parsed(op, |before| + |PrintOperation(op)|))
  {
    hide HasPrefix, HeaderPath, TakeAdded, TakeHunks, PrintAdded, PrintHunks, Trimmed;
    HeaderLines(op.path);
    var lines := before + PrintOperation(op) + rest;
    match op
    case AddFile(path, added) =>
      assert lines[|before|] == ADD + path;
      assert lines == (before + [ADD + path]) + PrintAdded(added) + rest;
      TakesAdded(before + [ADD + path], added, rest);
    case DeleteFile(path) =>
    case UpdateFile(path, moveTo, hunks) =>
      UpdateFollows(lines, |before| + 1, moveTo, hunks, rest);
      if moveTo == "" {
        assert lines == (before + [UPDATE + path]) + PrintHunks(hunks) + rest;
        TakesHunks(before + [UPDATE + path], hunks, rest);
      } else {
        assert lines == (before + [UPDATE + path, MOVE + moveTo]) + PrintHunks(hunks) + rest;
        TakesHunks(before + [UPDATE + path, MOVE + moveTo], hunks, rest);
      }
  }

  /** After the header of an update comes its move line exactly if it moves. */
  lemma UpdateFollows(lines: seq<string>, i: nat, moveTo: string, hunks: seq<Hunk>, rest: seq<string>)
    requires i <= |lines| && lines[i..] == (if moveTo == "" then [] else [MOVE + moveTo]) + PrintHunks(hunks) + rest
    requires (moveTo == "" || Trimmed(moveTo)) && (hunks != [] || moveTo != "")
    ensures HasMove(lines, i) <==> moveTo != ""
    ensures moveTo != "" ==> HeaderPath(lines[i], MOVE) == moveTo
  {
    if moveTo != "" {
      HeaderLines(moveTo);
      assert lines[i] == lines[i..][0] == MOVE + moveTo;
    } else {
      HunkHeaderLine(hunks[0].context);
      assert lines[i] == lines[i..][0] == PrintHunk(hunks[0])[0];
      assert lines[i][0] == '@' && MOVE[0] == '*';
      PrefixAt(lines[i], MOVE, 0);
    }
  }

  lemma {:induction false} TakesOperations(before: seq<string>, ops: seq<Operation>)
    requires forall k :: 0 <= k < |ops| ==> Sensible(ops[k])
    ensures TakeOperations(before + PrintOperations(ops) + [END], |before|) == Some(ops)
    decreases ops
  {
    hide TakeOperation, Sensible, PrintOperation, HasPrefix;
    var lines := before + PrintOperations(ops) + [END];
    if ops == [] {
      assert lines[|before|] == END;
    } else {
      var rest := PrintOperations(ops[1..]) + [END];
      assert lines == before + PrintOperation(ops[0]) + rest;
      OperationsAhead(ops[1..]);
      TakesOperation(before, ops[0], rest);
      assert lines == (before + PrintOperation(ops[0])) + PrintOperations(ops[1..]) + [END];
      TakesOperations(before + PrintOperation(ops[0]), ops[1..]);
      PrintedHeader(ops[0]);
      assert lines[|before|] == PrintOperation(ops[0])[0];
      assert ops == [ops[0]] + ops[1..];
    }
  }

  lemma PrintedHeader(op: Operation)
    requires Sensible(op)
    ensures PrintOperation(op) != [] && MarkerAhead([PrintOperation(op)[0]]) && PrintOperation(op)[0] != END
  {
    hide HasPrefix, PrintAdded, PrintHunks, Trimmed;
    HeaderLines(op.path);
  }

  lemma EndAhead()
    ensures MarkerAhead([END])
  {
    assert END[..4] == MARKER;
  }

  lemma OperationsAhead(ops: seq<Operation>)
    requires forall k :: 0 <= k < |ops| ==> Sensible(ops[k])
    ensures MarkerAhead(PrintOperations(ops) + [END])
  {
    hide PrintOperation, Sensible, HasPrefix;
    EndAhead();
    if ops != [] {
      PrintedHeader(ops[0]);
      assert (PrintOperations(ops) + [END])[0] == PrintOperation(ops[0])[0];
    }
  }
}
