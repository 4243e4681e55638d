/** The patch text format: its parser, and the printer the parser inverts. */
module PatchParser {
  import opened Options
  import opened Text
  import opened PatchHunks
  import opened PatchText

  datatype Operation =
    | AddFile(path: string, lines: seq<string>)
    | DeleteFile(path: string)
    | UpdateFile(path: string, moveTo: string, hunks: seq<Hunk>)

  /** An operation and the index of the line after it. */
  datatype Parsed<T> = Parsed(value: T, next: nat)

  /** The body of a hunk, as far as its lines reach. */
  datatype Body = Body(lines: seq<HunkLine>, endOfFile: bool)

  const BEGIN: string := "*** Begin Patch"
  const END: string := "*** End Patch"
  const ADD: string := "*** Add File: "
  const DELETE: string := "*** Delete File: "
  const UPDATE: string := "*** Update File: "
  const MOVE: string := "*** Move to: "
  const END_OF_FILE: string := "*** End of File"
  const MARKER: string := "*** "

  predicate IsHunkHeader(line: string) {
    line == "@@" || HasPrefix(line, "@@ ")
  }

  function OpOf(c: char): Option<LineOp> {
    if c == ' ' then Some(Keep) else if c == '-' then Some(Remove) else if c == '+' then Some(Insert) else None
  }

  function CharOf(op: LineOp): char {
    match op case Keep => ' ' case Remove => '-' case Insert => '+'
  }

  /** The '+' lines from `i` on, up to the next marker. */
  function TakeAdded(lines: seq<string>, i: nat): (r: Option<Parsed<seq<string>>>)
    requires i <= |lines|
    ensures r.Some? ==> i <= r.value.next <= |lines|
    decreases |lines| - i
  {
    if i == |lines| || HasPrefix(lines[i], MARKER) then Some(Parsed([], i))
    else if !HasPrefix(lines[i], "+") then None
    else
      match TakeAdded(lines, i + 1)
      case None => None
      case Some(p) => Some(Parsed([lines[i][1..]] + p.value, p.next))
  }

  function TakeBody(lines: seq<string>, i: nat): (r: Option<Parsed<Body>>)
    requires i <= |lines|
    ensures r.Some? ==> i <= r.value.next <= |lines|
    decreases |lines| - i
  {
    if i == |lines| then Some(Parsed(Body([], false), i))
    else if lines[i] == END_OF_FILE then Some(Parsed(Body([], true), i + 1))
    else if IsHunkHeader(lines[i]) || HasPrefix(lines[i], MARKER) then Some(Parsed(Body([], false), i))
    else if lines[i] == "" || OpOf(lines[i][0]).None? then None
    else
      match TakeBody(lines, i + 1)
      case None => None
      case Some(p) => Some(Parsed(Body([HunkLine(OpOf(lines[i][0]).value, lines[i][1..])] + p.value.lines, p.value.endOfFile), p.next))
  }

  function TakeHunks(lines: seq<string>, i: nat): (r: Option<Parsed<seq<Hunk>>>)
    requires i <= |lines|
    ensures r.Some? ==> i <= r.value.next <= |lines|
    decreases |lines| - i
  {
    if i == |lines| || HasPrefix(lines[i], MARKER) then Some(Parsed([], i))
    else if !IsHunkHeader(lines[i]) then None
    else
      match TakeBody(lines, i + 1)
      case None => None
      case Some(b) =>
        if b.value.lines == [] then None else
        match TakeHunks(lines, b.next)
        case None => None
        case Some(p) => Some(Parsed([Hunk(HunkContext(lines[i]), b.value.lines, b.value.endOfFile)] + p.value, p.next))
  }

  function HunkContext(header: string): string {
    if HasPrefix(header, "@@ ") then header[3..] else ""
  }

  function HeaderPath(line: string, prefix: string): string {
    TrimSpace(TrimPrefix(line, prefix))
  }

  function TakeAdd(lines: seq<string>, start: nat): (r: Option<Parsed<Operation>>)
    requires start < |lines|
    ensures r.Some? ==> start < r.value.next <= |lines|
  {
    var path := HeaderPath(lines[start], ADD);
    if path == "" then None else
      match TakeAdded(lines, start + 1)
      case None => None
      case Some(p) => if p.value == [] then None else Some(Parsed(AddFile(path, p.value), p.next))
  }

  function TakeDelete(lines: seq<string>, start: nat): (r: Option<Parsed<Operation>>)
    requires start < |lines|
    ensures r.Some? ==> start < r.value.next <= |lines|
  {
    var path := HeaderPath(lines[start], DELETE);
    if path == "" then None else Some(Parsed(DeleteFile(path), start + 1))
  }

  predicate HasMove(lines: seq<string>, i: nat) {
    i < |lines| && HasPrefix(lines[i], MOVE)
  }

  function TakeUpdate(lines: seq<string>, start: nat): (r: Option<Parsed<Operation>>)
    requires start < |lines|
    ensures r.Some? ==> start < r.value.next <= |lines|
  {
    var path := HeaderPath(lines[start], UPDATE);
    var moves := HasMove(lines, start + 1);
    var moveTo := if moves then HeaderPath(lines[start + 1], MOVE) else "";
    if path == "" || (moves && moveTo == "") then None else
      match TakeHunks(lines, if moves then start + 2 else start + 1)
      case None => None
      case Some(p) => if p.value == [] && moveTo == "" then None else Some(Parsed(UpdateFile(path, moveTo, p.value), p.next))
  }

  function TakeOperation(lines: seq<string>, i: nat): (r: Option<Parsed<Operation>>)
    requires i < |lines|
    ensures r.Some? ==> i < r.value.next <= |lines|
  {
    if HasPrefix(lines[i], ADD) then TakeAdd(lines, i)
    else if HasPrefix(lines[i], DELETE) then TakeDelete(lines, i)
    else if HasPrefix(lines[i], UPDATE) then TakeUpdate(lines, i)
    else None
  }

  /** All operations from line `i` to the end marker. */
  function TakeOperations(lines: seq<string>, i: nat): Option<seq<Operation>>
    requires i <= |lines|
    decreases |lines| - i
  {
    if i == |lines| then None
    else if lines[i] == END then
      if forall k :: i < k < |lines| ==> lines[k] == "" then Some([]) else None
    else
      match TakeOperation(lines, i)
      case None => None
      case Some(p) =>
        match TakeOperations(lines, p.next)
        case None => None
        case Some(rest) => Some([p.value] + rest)
  }

  function PatchLines(patch: string): seq<string> {
    Split(CRLFToLF(patch), '\n')
  }

  /** What a patch text means: its operations, or nothing if it is malformed. */
  function Meaning(patch: string): Option<seq<Operation>> {
    var lines := PatchLines(patch);
    if lines[0] != BEGIN then None else
      match TakeOperations(lines, 1)
      case None => None
      case Some(ops) => if ops == [] then None else Some(ops)
  }

  /** Parsing from the start gives what has been read, followed by what parsing from here gives. */
  ghost predicate Continues<T>(whole: Option<Parsed<seq<T>>>, done: seq<T>, rest: Option<Parsed<seq<T>>>) {
    && (whole.None? <==> rest.None?)
    && (whole.Some? ==> whole.value.next == rest.value.next && whole.value.value == done + rest.value.value)
  }

  /** `daemonParseAddPatch`. */
  method ParseAddPatch(lines: seq<string>, start: nat) returns (r: Option<Parsed<Operation>>)
    requires start < |lines|
    ensures r == TakeAdd(lines, start)
  {
    var path := TrimSpace(TrimPrefix(lines[start], ADD));
    if path == "" { return None; }
    var added: seq<string> := [];
    var index := start + 1;
    while index < |lines|
      invariant start < index <= |lines|
      invariant Continues(TakeAdded(lines, start + 1), added, TakeAdded(lines, index))
    {
      var line := lines[index];
      if HasPrefix(line, MARKER) { break; }
      if !HasPrefix(line, "+") { return None; }
      added := added + [line[1..]];
      index := index + 1;
    }
    assert added + [] == added;
    if |added| == 0 { return None; }
    r := Some(Parsed(AddFile(path, added), index));
  }

  /** `daemonParseDeletePatch`. */
  method ParseDeletePatch(lines: seq<string>, start: nat) returns (r: Option<Parsed<Operation>>)
    requires start < |lines|
    ensures r == TakeDelete(lines, start)
  {
    var path := TrimSpace(TrimPrefix(lines[start], DELETE));
    if path == "" { return None; }
    r := Some(Parsed(DeleteFile(path), start + 1));
  }

  ghost predicate BodyContinues(whole: Option<Parsed<Body>>, done: seq<HunkLine>, rest: Option<Parsed<Body>>) {
    && (whole.None? <==> rest.None?)
    && (whole.Some? ==>
          && whole.value.next == rest.value.next && whole.value.value.endOfFile == rest.value.value.endOfFile
          && whole.value.value.lines == done + rest.value.value.lines)
  }

  ghost predicate OperationsContinue(whole: Option<seq<Operation>>, done: seq<Operation>, rest: Option<seq<Operation>>) {
    (whole.None? <==> rest.None?) && (whole.Some? ==> whole.value == done + rest.value)
  }

  method ParseHunkBody(lines: seq<string>, start: nat) returns (r: Option<Parsed<Body>>)
    requires start <= |lines|
    ensures r == TakeBody(lines, start)
  {
    hide HasPrefix, IsHunkHeader;
    var body: seq<HunkLine> := [];
    var index := start;
    while index < |lines|
      invariant start <= index <= |lines|
      invariant BodyContinues(TakeBody(lines, start), body, TakeBody(lines, index))
    {
      var line := lines[index];
      assert body + [] == body;
      if line == END_OF_FILE { return Some(Parsed(Body(body, true), index + 1)); }
      if IsHunkHeader(line) || HasPrefix(line, MARKER) { break; }
      if line == "" { return None; }
      var op := OpOf(line[0]);
      if op.None? { return None; }
      var next := HunkLine(op.value, line[1..]);
      body := body + [next];
      index := index + 1;
    }
    assert body + [] == body;
    r := Some(Parsed(Body(body, false), index));
  }

  /** The hunk loop of `daemonParseUpdatePatch`. */
  method ParseHunks(lines: seq<string>, start: nat) returns (r: Option<Parsed<seq<Hunk>>>)
    requires start <= |lines|
    ensures r == TakeHunks(lines, start)
  {
    hide TakeBody, HasPrefix, IsHunkHeader, HunkContext;
    var hunks: seq<Hunk> := [];
    var index := start;
    while index < |lines|
      invariant start <= index <= |lines|
      invariant Continues(TakeHunks(lines, start), hunks, TakeHunks(lines, index))
    {
      var line := lines[index];
      if HasPrefix(line, MARKER) { break; }
      if !IsHunkHeader(line) { return None; }
      var body := ParseHunkBody(lines, index + 1);
      if body.None? || |body.value.value.lines| == 0 { return None; }
      hunks := hunks + [Hunk(HunkContext(line), body.value.value.lines, body.value.value.endOfFile)];
      index := body.value.next;
    }
    assert hunks + [] == hunks;
    r := Some(Parsed(hunks, index));
  }

  /** `daemonParseUpdatePatch`. */
  method ParseUpdatePatch(lines: seq<string>, start: nat) returns (r: Option<Parsed<Operation>>)
    requires start < |lines|
    ensures r == TakeUpdate(lines, start)
  {
    hide TakeHunks, TrimSpace;
    var path := TrimSpace(TrimPrefix(lines[start], UPDATE));
    if path == "" { return None; }
    var index := start + 1;
    var moveTo := "";
    if index < |lines| && HasPrefix(lines[index], MOVE) {
      moveTo := TrimSpace(TrimPrefix(lines[index], MOVE));
      if moveTo == "" { return None; }
      index := index + 1;
    }
    var hunks := ParseHunks(lines, index);
    if hunks.None? || (|hunks.value.value| == 0 && moveTo == "") { return None; }
    r := Some(Parsed(UpdateFile(path, moveTo, hunks.value.value), hunks.value.next));
  }

  /** One turn of the switch in `daemonParsePatch`. */
  method ParseOperation(lines: seq<string>, index: nat) returns (r: Option<Parsed<Operation>>)
    requires index < |lines|
    ensures r == TakeOperation(lines, index)
  {
    hide TakeAdd, TakeDelete, TakeUpdate, HasPrefix;
    if HasPrefix(lines[index], ADD) {
      r := ParseAddPatch(lines, index);
    } else if HasPrefix(lines[index], DELETE) {
      r := ParseDeletePatch(lines, index);
    } else if HasPrefix(lines[index], UPDATE) {
      r := ParseUpdatePatch(lines, index);
    } else {
      r := None;
    }
  }

  /** `daemonParsePatch`: terminates because the index only moves forward. */
  method ParsePatch(patch: string) returns (r: Option<seq<Operation>>)
    ensures r == Meaning(patch)
  {
    hide TakeOperation, Split, CRLFToLF;
    var lines := Split(CRLFToLF(patch), '\n');
    if lines[0] != BEGIN { return None; }
    var ops: seq<Operation> := [];
    var index := 1;
    while index < |lines|
      invariant 1 <= index <= |lines|
      invariant OperationsContinue(TakeOperations(lines, 1), ops, TakeOperations(lines, index))
    {
      if lines[index] == END {
        assert ops + [] == ops;
        for k := index + 1 to |lines|
          invariant forall j :: index < j < k ==> lines[j] == ""
        {
          if lines[k] != "" { return None; }
        }
        return if |ops| == 0 then None else Some(ops);
      }
      var op := ParseOperation(lines, index);
      if op.None? { return None; }
      ops := ops + [op.value.value];
      index := op.value.next;
    }
    r := None;
  }
}
