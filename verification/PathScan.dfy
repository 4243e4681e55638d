/** The workspace's scan of a patch text covers every path the parser will find in it. */
module PathScan {
  import opened Options
  import opened Text
  import opened PatchHunks
  import opened PatchText
  import opened PatchParser
  import opened WorkspacePath

  /** The scan of one line: a header's path must be within the workdir. */
  predicate LinePasses(line: string, workdir: string, cwd: string) {
    && (HasPrefix(line, ADD) ==> RemotePath(workdir, HeaderPath(line, ADD), cwd).Some?)
    && (HasPrefix(line, UPDATE) ==> RemotePath(workdir, HeaderPath(line, UPDATE), cwd).Some?)
    && (HasPrefix(line, DELETE) ==> RemotePath(workdir, HeaderPath(line, DELETE), cwd).Some?)
    && (HasPrefix(line, MOVE) ==> RemotePath(workdir, HeaderPath(line, MOVE), cwd).Some?)
  }

  /** The patch scan of `ordinaryArgs`. */
  method ScanPatch(patch: string, workdir: string, cwd: string) returns (ok: bool)
    ensures ok <==> forall k :: 0 <= k < |PatchLines(patch)| ==> LinePasses(PatchLines(patch)[k], workdir, cwd)
    ensures Meaning(patch).Some? ==> (ok <==> PathsPass(Meaning(patch).value, workdir, cwd))
  {
    hide RemotePath, HasPrefix, Split, CRLFToLF, TakeOperations, PathsPass;
    if Meaning(patch).Some? { ScanIsExact(patch, workdir, cwd); }
    var lines := Split(CRLFToLF(patch), '\n');
    for k := 0 to |lines|
      invariant forall j :: 0 <= j < k ==> LinePasses(lines[j], workdir, cwd)
    {
      var prefixes := [ADD, UPDATE, DELETE, MOVE];
      for p := 0 to |prefixes|
        invariant forall j :: 0 <= j < p ==> HasPrefix(lines[k], prefixes[j]) ==> RemotePath(workdir, HeaderPath(lines[k], prefixes[j]), cwd).Some?
      {
        if HasPrefix(lines[k], prefixes[p]) && RemotePath(workdir, TrimSpace(TrimPrefix(lines[k], prefixes[p])), cwd).None? {
          assert prefixes[p] == ADD || prefixes[p] == UPDATE || prefixes[p] == DELETE || prefixes[p] == MOVE;
          assert !LinePasses(PatchLines(patch)[k], workdir, cwd);
          return false;
        }
      }
      assert prefixes[0] == ADD && prefixes[1] == UPDATE && prefixes[2] == DELETE && prefixes[3] == MOVE;
    }
    ok := true;
  }

  predicate PathPasses(path: string, workdir: string, cwd: string) {
    RemotePath(workdir, path, cwd).Some?
  }

  predicate OperationPasses(op: Operation, workdir: string, cwd: string) {
    PathPasses(op.path, workdir, cwd) && (op.UpdateFile? && op.moveTo != "" ==> PathPasses(op.moveTo, workdir, cwd))
  }

  /** A header starts with the marker, and its fifth character tells which it is. */
  lemma HeaderStarts(line: string, marker: string)
    requires marker in {ADD, UPDATE, DELETE, MOVE} && HasPrefix(line, marker)
    ensures HasPrefix(line, MARKER) && |line| > 12 && line[4] == marker[4]
  {
    assert marker[..4] == MARKER;
    assert line[..4] == line[..|marker|][..4];
    assert line[4] == line[..|marker|][4];
  }

  lemma NoMarker(line: string, workdir: string, cwd: string)
    requires !HasPrefix(line, MARKER) || line == END_OF_FILE || line == END || line == BEGIN
    ensures LinePasses(line, workdir, cwd)
  {
    hide RemotePath, HeaderPath, HasPrefix;
    if HasPrefix(line, ADD) { HeaderStarts(line, ADD); }
    if HasPrefix(line, UPDATE) { HeaderStarts(line, UPDATE); }
    if HasPrefix(line, DELETE) { HeaderStarts(line, DELETE); }
    if HasPrefix(line, MOVE) { HeaderStarts(line, MOVE); }
  }

  /** A header is checked for its own path alone. */
  lemma OneHeader(line: string, marker: string, workdir: string, cwd: string)
    requires marker in {ADD, UPDATE, DELETE, MOVE} && HasPrefix(line, marker)
    ensures LinePasses(line, workdir, cwd) <==> PathPasses(HeaderPath(line, marker), workdir, cwd)
  {
    hide RemotePath, HeaderPath, HasPrefix;
    HeaderStarts(line, marker);
    forall other | other in {ADD, UPDATE, DELETE, MOVE} && HasPrefix(line, other)
      ensures line[4] == other[4]
    {
      HeaderStarts(line, other);
    }
  }

  ghost predicate NoMarkers(lines: seq<string>, i: nat, n: nat)
    requires n <= |lines|
  {
    forall k :: i <= k < n ==> !HasPrefix(lines[k], MARKER) || lines[k] == END_OF_FILE
  }

  lemma {:induction false} AddedPlain(lines: seq<string>, i: nat)
    requires i <= |lines| && TakeAdded(lines, i).Some?
    ensures NoMarkers(lines, i, TakeAdded(lines, i).value.next)
    decreases |lines| - i
  {
    hide HasPrefix;
    if i < |lines| && !HasPrefix(lines[i], MARKER) { AddedPlain(lines, i + 1); }
  }

  lemma {:induction false} BodyPlain(lines: seq<string>, i: nat)
    requires i <= |lines| && TakeBody(lines, i).Some?
    ensures NoMarkers(lines, i, TakeBody(lines, i).value.next)
    decreases |lines| - i
  {
    hide HasPrefix, IsHunkHeader, OpOf;
    if i < |lines| && lines[i] != END_OF_FILE && !IsHunkHeader(lines[i]) && !HasPrefix(lines[i], MARKER) { BodyPlain(lines, i + 1); }
  }

  lemma {:induction false} HunksPlain(lines: seq<string>, i: nat)
    requires i <= |lines| && TakeHunks(lines, i).Some?
    ensures NoMarkers(lines, i, TakeHunks(lines, i).value.next)
    decreases |lines| - i
  {
    hide HasPrefix, IsHunkHeader, TakeBody, HunkContext;
    if i < |lines| && !HasPrefix(lines[i], MARKER) {
      BodyPlain(lines, i + 1);
      HunksPlain(lines, TakeBody(lines, i + 1).value.next);
    }
  }

  ghost predicate AllPass(lines: seq<string>, i: nat, n: nat, workdir: string, cwd: string)
    requires n <= |lines|
  {
    forall k :: i <= k < n ==> LinePasses(lines[k], workdir, cwd)
  }

  lemma PlainPass(lines: seq<string>, i: nat, n: nat, workdir: string, cwd: string)
    requires i <= n <= |lines| && NoMarkers(lines, i, n)
    ensures AllPass(lines, i, n, workdir, cwd)
  {
    hide LinePasses, HasPrefix;
    forall k | i <= k < n
      ensures LinePasses(lines[k], workdir, cwd)
    {
      NoMarker(lines[k], workdir, cwd);
    }
  }

  /** The lines of one operation pass exactly if its paths do. */
  lemma OperationExact(lines: seq<string>, i: nat, workdir: string, cwd: string)
    requires i < |lines| && TakeOperation(lines, i).Some?
    ensures AllPass(lines, i, TakeOperation(lines, i).value.next, workdir, cwd) <==>
            OperationPasses(TakeOperation(lines, i).value.value, workdir, cwd)
  {
    hide HasPrefix, HeaderPath, PathPasses, TakeHunks, TakeAdded, LinePasses;
    var next := TakeOperation(lines, i).value.next;
    if HasPrefix(lines[i], ADD) {
      OneHeader(lines[i], ADD, workdir, cwd);
      AddedPlain(lines, i + 1);
      PlainPass(lines, i + 1, next, workdir, cwd);
    } else if HasPrefix(lines[i], DELETE) {
      OneHeader(lines[i], DELETE, workdir, cwd);
    } else {
      OneHeader(lines[i], UPDATE, workdir, cwd);
      if HasMove(lines, i + 1) { OneHeader(lines[i + 1], MOVE, workdir, cwd); }
      var from := if HasMove(lines, i + 1) then i + 2 else i + 1;
      HunksPlain(lines, from);
      PlainPass(lines, from, next, workdir, cwd);
    }
  }

  ghost predicate PathsPass(ops: seq<Operation>, workdir: string, cwd: string) {
    forall op :: op in ops ==> OperationPasses(op, workdir, cwd)
  }

  lemma {:induction false} OperationsExact(lines: seq<string>, i: nat, workdir: string, cwd: string)
    requires i <= |lines| && TakeOperations(lines, i).Some?
    ensures AllPass(lines, i, |lines|, workdir, cwd) <==> PathsPass(TakeOperations(lines, i).value, workdir, cwd)
    decreases |lines| - i
  {
    hide TakeOperation, LinePasses, OperationPasses, HasPrefix;
    if lines[i] == END {
      forall k | i <= k < |lines|
        ensures LinePasses(lines[k], workdir, cwd)
      {
        EmptyIsNone(MARKER);
        NoMarker(lines[k], workdir, cwd);
      }
    } else {
      var p := TakeOperation(lines, i).value;
      OperationExact(lines, i, workdir, cwd);
      OperationsExact(lines, p.next, workdir, cwd);
      assert AllPass(lines, i, |lines|, workdir, cwd) <==>
             AllPass(lines, i, p.next, workdir, cwd) && AllPass(lines, p.next, |lines|, workdir, cwd);
    }
  }

  lemma EmptyIsNone(marker: string)
    ensures marker != "" ==> !HasPrefix("", marker)
  {
  }

  /** The scan of a patch that parses asks for the paths of its operations, and for nothing else. */
  lemma ScanIsExact(patch: string, workdir: string, cwd: string)
    requires Meaning(patch).Some?
    ensures AllPass(PatchLines(patch), 0, |PatchLines(patch)|, workdir, cwd) <==> PathsPass(Meaning(patch).value, workdir, cwd)
  {
    hide LinePasses, TakeOperations, PathsPass, Split, HasPrefix;
    var lines := PatchLines(patch);
    NoMarker(lines[0], workdir, cwd);
    OperationsExact(lines, 1, workdir, cwd);
  }

  /** In a patch that passes the scan and parses, every path and move target, resolved by the daemon against the checked
      directory, is the workdir or below it. */
  lemma ScanCoversParser(patch: string, workdir: string, cwd: string)
    requires Meaning(patch).Some? && IsAbs(workdir) && IsAbs(cwd)
    requires forall k :: 0 <= k < |PatchLines(patch)| ==> LinePasses(PatchLines(patch)[k], workdir, cwd)
    ensures forall op :: op in Meaning(patch).value ==>
              && Inside(workdir, DaemonResolvePath(cwd, op.path))
              && (op.UpdateFile? && op.moveTo != "" ==> Inside(workdir, DaemonResolvePath(cwd, op.moveTo)))
  {
    hide LinePasses, Inside, DaemonResolvePath, TakeOperations, Split, RemotePath;
    ScanIsExact(patch, workdir, cwd);
    forall op | op in Meaning(patch).value
      ensures Inside(workdir, DaemonResolvePath(cwd, op.path))
      ensures op.UpdateFile? && op.moveTo != "" ==> Inside(workdir, DaemonResolvePath(cwd, op.moveTo))
    {
      CheckedIsInside(workdir, op.path, cwd);
      if op.UpdateFile? && op.moveTo != "" { CheckedIsInside(workdir, op.moveTo, cwd); }
    }
  }

  /** The checked directory itself is absolute and within the workdir, so the workspace meets the lemma's conditions:
      its workdir is cleaned and absolute, and its directory is the workdir or has passed the same check. */
  lemma CheckedDirectory(workdir: string, cwd: string)
    requires IsAbs(workdir) && RemotePath(workdir, cwd, workdir).Some?
    ensures IsAbs(RemotePath(workdir, cwd, workdir).value) && Inside(workdir, RemotePath(workdir, cwd, workdir).value)
  {
    hide Inside, RemotePath;
    SamePath(workdir, cwd, workdir);
    CheckedIsInside(workdir, cwd, workdir);
  }
}
