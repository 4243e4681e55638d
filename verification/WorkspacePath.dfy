/** Lexical paths: cleaning, joining, and the workspace's check that a path stays below its workdir. */
module WorkspacePath {
  import opened Options
  import opened Text

  const DOT: string := "."
  const UP: string := ".."

  /** The segments that say where a path leads: neither empty nor `.`. */
  function Named(parts: seq<string>): seq<string> {
    if parts == [] then [] else (if parts[0] == "" || parts[0] == DOT then [] else [parts[0]]) + Named(parts[1..])
  }

  function Segments(p: string): seq<string> { Named(Split(p, '/')) }

  predicate IsAbs(p: string) { p != "" && p[0] == '/' }

  /** `..` removes the segment before it; at the front it stays in a relative path and vanishes in an absolute one. */
  function Reduce(segments: seq<string>, abs: bool): seq<string> {
    if segments == [] then [] else
      var before := Reduce(segments[..|segments| - 1], abs);
      var last := segments[|segments| - 1];
      if last != UP then before + [last]
      else if before != [] && before[|before| - 1] != UP then before[..|before| - 1]
      else if abs then before
      else before + [UP]
  }

  /** `path.Clean`. */
  function Clean(p: string): string {
    var reduced := Reduce(Segments(p), IsAbs(p));
    if IsAbs(p) then "/" + Join(reduced, "/") else if reduced == [] then DOT else Join(reduced, "/")
  }

  /** `path.Join` of two elements. */
  function JoinPath(base: string, p: string): string {
    if base == "" && p == "" then "" else if base == "" then Clean(p) else if p == "" then Clean(base) else Clean(base + "/" + p)
  }

  predicate Contains(s: string, part: string) {
    exists i :: 0 <= i <= |s| && HasPrefix(s[i..], part)
  }

  /** `invalidWorkspacePath`. */
  predicate InvalidWorkspacePath(value: string) {
    || (exists i :: 0 <= i < |value| && value[i] in {0 as char, '\r', '\n', '\\'})
    || Contains(value, "://")
    || UP in Split(value, '/')
  }

  /** `remotePath`. */
  function RemotePath(workdir: string, value: string, base: string): Option<string> {
    if TrimSpace(value) == "" || InvalidWorkspacePath(value) then None else
      var clean := Clean(value);
      var resolved := if IsAbs(clean) then clean else JoinPath(base, clean);
      if resolved != workdir && !HasPrefix(resolved, workdir + "/") then None else Some(resolved)
  }

  /** `daemonResolvePath`, what the daemon makes of the same path. */
  function DaemonResolvePath(cwd: string, p: string): string {
    var q := if p == "" then DOT else p;
    if IsAbs(q) then Clean(q) else if cwd == "" then Clean(q) else Clean(JoinPath(cwd, q))
  }

  /** Below the workdir, or the workdir itself: its segments come first, and none of the path's leads up. */
  predicate Inside(workdir: string, p: string) {
    IsAbs(p) && Segments(workdir) <= Segments(p) && UP !in Segments(p)
  }

  predicate Proper(segments: seq<string>) {
    forall k :: 0 <= k < |segments| ==> segments[k] != "" && segments[k] != DOT && '/' !in segments[k]
  }

  lemma {:induction false} NamedProper(parts: seq<string>)
    requires forall k :: 0 <= k < |parts| ==> '/' !in parts[k]
    ensures Proper(Named(parts))
    ensures forall s :: s in Named(parts) <==> s in parts && s != "" && s != DOT
  {
    if parts != [] { NamedProper(parts[1..]); }
  }

  lemma {:induction false} NamedSame(segments: seq<string>)
    requires Proper(segments)
    ensures Named(segments) == segments
  {
    if segments != [] { NamedSame(segments[1..]); }
  }

  lemma SegmentsProper(p: string)
    ensures Proper(Segments(p)) && (UP in Segments(p) <==> UP in Split(p, '/'))
  {
    SplitClean(p, '/');
    NamedProper(Split(p, '/'));
  }

  lemma {:induction false} ReduceSame(segments: seq<string>, abs: bool)
    requires UP !in segments
    ensures Reduce(segments, abs) == segments
    decreases |segments|
  {
    if segments != [] { ReduceSame(segments[..|segments| - 1], abs); }
  }

  lemma {:induction false} ReduceProper(segments: seq<string>)
    requires Proper(segments)
    ensures Proper(Reduce(segments, true)) && UP !in Reduce(segments, true)
    decreases |segments|
  {
    if segments != [] { ReduceProper(segments[..|segments| - 1]); }
  }

  lemma {:induction false} SplitConcat(a: string, b: string)
    ensures Split(a + "/" + b, '/') == Split(a, '/') + Split(b, '/')
  {
    hide Split;
    var s := a + "/" + b;
    if a == "" {
      SplitNothing();
      SplitStep(s, '/');
      assert s[0] == '/' && s[1..] == b;
    } else {
      SplitConcat(a[1..], b);
      assert s[0] == a[0];
      assert s[1..] == a[1..] + "/" + b;
      SplitStep(a, '/');
      SplitStep(s, '/');
      Regroup(s[0], Split(a[1..], '/'), Split(b, '/'));
    }
  }

  lemma Regroup(c: char, rest: seq<string>, more: seq<string>)
    requires |rest| >= 1
    ensures [""] + (rest + more) == ([""] + rest) + more
    ensures [[c] + (rest + more)[0]] + (rest + more)[1..] == ([[c] + rest[0]] + rest[1..]) + more
  {
  }

  lemma SplitNothing()
    ensures Split("", '/') == [""]
  {
  }

  lemma SplitStep(s: string, sep: char)
    requires s != ""
    ensures var rest := Split(s[1..], sep);
            Split(s, sep) == if s[0] == sep then [""] + rest else [[s[0]] + rest[0]] + rest[1..]
  {
  }

  lemma NamedStep(parts: seq<string>)
    requires parts != []
    ensures Named(parts) == (if parts[0] == "" || parts[0] == DOT then [] else [parts[0]]) + Named(parts[1..])
  {
  }

  lemma NoneNamed(ys: seq<string>)
    ensures Named([]) == [] && [] + ys == ys && Named([]) + Named(ys) == Named(ys)
  {
  }

  lemma Joined(a: seq<string>, b: seq<string>, c: seq<string>)
    ensures a + (b + c) == (a + b) + c
  {
  }

  lemma {:induction false} NamedConcat(xs: seq<string>, ys: seq<string>)
    ensures Named(xs + ys) == Named(xs) + Named(ys)
  {
    hide *;
    if xs == [] {
      NoneNamed(ys);
    } else {
      var all := xs + ys;
      NamedConcat(xs[1..], ys);
      NamedStep(xs);
      NamedStep(all);
      assert all[1..] == xs[1..] + ys && all[0] == xs[0];
      Joined(if xs[0] == "" || xs[0] == DOT then [] else [xs[0]], Named(xs[1..]), Named(ys));
    }
  }

  lemma SegmentsConcat(a: string, b: string)
    ensures Segments(a + "/" + b) == Segments(a) + Segments(b)
  {
    SplitConcat(a, b);
    NamedConcat(Split(a, '/'), Split(b, '/'));
  }

  lemma SegmentsJoin(segments: seq<string>)
    requires Proper(segments)
    ensures Segments(Join(segments, "/")) == segments
  {
    if segments == [] {
      assert Split("", '/') == [""];
    } else {
      SplitJoin(segments, '/');
      NamedSame(segments);
    }
  }

  /** A clean absolute path has its segments and no others. */
  lemma CleanAbsolute(segments: seq<string>)
    requires Proper(segments) && UP !in segments
    ensures Segments("/" + Join(segments, "/")) == segments && Clean("/" + Join(segments, "/")) == "/" + Join(segments, "/")
  {
    SegmentsJoin(segments);
    SegmentsConcat("", Join(segments, "/"));
    assert "" + "/" + Join(segments, "/") == "/" + Join(segments, "/");
    assert Segments("") == [] by { assert Split("", '/') == [""]; }
    ReduceSame(segments, true);
  }

  /** Cleaning an absolute path leaves no way up. */
  lemma CleanedAbsolute(p: string)
    requires IsAbs(p)
    ensures IsAbs(Clean(p)) && Segments(Clean(p)) == Reduce(Segments(p), true) && UP !in Segments(Clean(p)) && Clean(Clean(p)) == Clean(p)
  {
    SegmentsProper(p);
    ReduceProper(Segments(p));
    CleanAbsolute(Reduce(Segments(p), true));
  }

  lemma CleanedRelative(p: string)
    requires !IsAbs(p) && UP !in Split(p, '/')
    ensures Segments(Clean(p)) == Segments(p) && Clean(p) != "" && !IsAbs(Clean(p))
  {
    hide Segments, Reduce, Join;
    SegmentsProper(p);
    ReduceSame(Segments(p), false);
    SegmentsJoin(Segments(p));
    DotIsNothing();
    if Segments(p) != [] { FirstChar(Segments(p)); }
  }

  lemma DotIsNothing()
    ensures Segments(DOT) == []
  {
    SplitOne(DOT, '/');
    NamedStep([DOT]);
  }

  lemma FirstChar(segments: seq<string>)
    requires Proper(segments) && segments != []
    ensures Join(segments, "/") != "" && Join(segments, "/")[0] != '/'
  {
    assert segments[0] != "" && segments[0][0] in segments[0];
  }

  /** The daemon resolves a path without `..` to what the check makes of it. */
  lemma ResolvedSame(value: string, cwd: string)
    requires IsAbs(cwd) && value != "" && UP !in Split(value, '/')
    ensures var clean := Clean(value);
            (if IsAbs(clean) then clean else JoinPath(cwd, clean)) == DaemonResolvePath(cwd, value)
    ensures IsAbs(DaemonResolvePath(cwd, value)) && UP !in Segments(DaemonResolvePath(cwd, value))
    ensures Clean(DaemonResolvePath(cwd, value)) == DaemonResolvePath(cwd, value)
  {
    hide Segments, InvalidWorkspacePath;
    if IsAbs(value) {
      CleanedAbsolute(value);
    } else {
      CleanedRelative(value);
      SegmentsConcat(cwd, value);
      SegmentsConcat(cwd, Clean(value));
      var joined := cwd + "/" + value;
      assert IsAbs(joined) && IsAbs(cwd + "/" + Clean(value));
      CleanedAbsolute(joined);
      CleanedAbsolute(cwd + "/" + Clean(value));
    }
  }

  /** A checked path, resolved by the daemon against the checked directory, is the path that was checked. */
  lemma SamePath(workdir: string, value: string, cwd: string)
    requires RemotePath(workdir, value, cwd).Some? && IsAbs(cwd)
    ensures DaemonResolvePath(cwd, value) == RemotePath(workdir, value, cwd).value
    ensures IsAbs(DaemonResolvePath(cwd, value))
    ensures UP !in Segments(DaemonResolvePath(cwd, value))
  {
    hide Segments, InvalidWorkspacePath;
    ValidValue(value);
    ResolvedSame(value, cwd);
  }

  lemma ValidValue(value: string)
    requires TrimSpace(value) != "" && !InvalidWorkspacePath(value)
    ensures value != "" && UP !in Split(value, '/')
  {
  }

  /** A clean path that has the clean workdir and a slash as its prefix has the workdir's segments first. */
  lemma PrefixIsInside(workdir: string, p: string)
    requires IsAbs(workdir) && IsAbs(p) && UP !in Segments(p)
    requires p == workdir || HasPrefix(p, workdir + "/")
    ensures Inside(workdir, p)
  {
    if p != workdir {
      var rest := p[|workdir| + 1..];
      assert p == workdir + "/" + rest by { assert p[..|workdir| + 1] == workdir + "/"; }
      SegmentsConcat(workdir, rest);
    }
  }

  /** What passes the check is the workdir or below it, as the daemon will resolve it. */
  lemma CheckedIsInside(workdir: string, value: string, cwd: string)
    requires RemotePath(workdir, value, cwd).Some? && IsAbs(cwd) && IsAbs(workdir)
    ensures Inside(workdir, DaemonResolvePath(cwd, value))
  {
    hide Segments, InvalidWorkspacePath, Clean, JoinPath, DaemonResolvePath, HasPrefix;
    SamePath(workdir, value, cwd);
    PrefixIsInside(workdir, RemotePath(workdir, value, cwd).value);
  }

  lemma {:induction false} JoinPrefix(a: seq<string>, b: seq<string>)
    requires a != [] && b != []
    ensures Join(a + b, "/") == Join(a, "/") + "/" + Join(b, "/")
  {
    if |a| == 1 {
      assert (a + b)[1..] == b;
    } else {
      JoinPrefix(a[1..], b);
      assert (a + b)[1..] == a[1..] + b;
      assert a[0] + "/" + (Join(a[1..], "/") + "/" + Join(b, "/")) == (a[0] + "/" + Join(a[1..], "/")) + "/" + Join(b, "/");
    }
  }

  /** A clean path inside the workdir is the workdir, or has it and a slash as its prefix; below the root there is no such prefix. */
  lemma InsideIsPrefix(workdir: string, p: string)
    requires IsAbs(workdir) && IsAbs(p) && Clean(workdir) == workdir && Clean(p) == p && UP !in Segments(workdir) && Inside(workdir, p)
    ensures workdir != "/" ==> p == workdir || HasPrefix(p, workdir + "/")
    ensures workdir == "/" ==> p == workdir || !HasPrefix(p, workdir + "/")
  {
    hide *;
    var a, all := Segments(workdir), Segments(p);
    InsideMeans(workdir, p);
    CleanIsJoined(workdir);
    CleanIsJoined(p);
    JoinedPrefix(a, all);
    RootIsSlash();
  }

  lemma RootIsSlash()
    ensures "/" + Join([], "/") == "/"
  {
  }

  lemma CleanIsJoined(p: string)
    requires IsAbs(p) && Clean(p) == p && UP !in Segments(p)
    ensures p == "/" + Join(Segments(p), "/") && Proper(Segments(p))
  {
    SegmentsProper(p);
    ReduceSame(Segments(p), true);
  }

  lemma InsideMeans(workdir: string, p: string)
    requires Inside(workdir, p)
    ensures Segments(workdir) <= Segments(p) && UP !in Segments(p)
  {
  }

  /** Absolute paths written from segments, the first's being the start of the second's. */
  lemma JoinedPrefix(a: seq<string>, all: seq<string>)
    requires Proper(all) && a <= all
    ensures var workdir, p := "/" + Join(a, "/"), "/" + Join(all, "/");
            && (a != [] ==> workdir != "/" && (p == workdir || HasPrefix(p, workdir + "/")))
            && (a == [] ==> workdir == "/" && (p == workdir || !HasPrefix(p, workdir + "/")))
  {
    hide Join, HasPrefix, Proper;
    var b := all[|a|..];
    assert all == a + b;
    RootIsSlash();
    if a == [] {
      assert all == b;
      if all != [] { NotBelowRoot(all); }
    } else {
      ProperStart(a, b);
      FirstChar(a);
      if b != [] {
        JoinPrefix(a, b);
        StartsWith("/" + Join(a, "/"), Join(b, "/"));
        Reassociate("/", Join(a, "/"), "/", Join(b, "/"));
      } else {
        assert all == a;
      }
    }
  }

  lemma ProperStart(a: seq<string>, b: seq<string>)
    requires Proper(a + b)
    ensures Proper(a)
  {
    assert forall k :: 0 <= k < |a| ==> (a + b)[k] == a[k];
  }

  lemma Reassociate(a: string, b: string, c: string, d: string)
    ensures a + (b + c + d) == a + b + c + d
  {
  }

  lemma NotBelowRoot(segments: seq<string>)
    requires Proper(segments) && segments != []
    ensures !HasPrefix("/" + Join(segments, "/"), "/" + "/")
  {
    hide Join;
    FirstChar(segments);
    var p := "/" + Join(segments, "/");
    assert p[1] == Join(segments, "/")[0];
    assert p[..2][1] == p[1];
  }

  lemma NoSlashFirst(s: string)
    requires s == "" || s[0] != '/' || s == "/"
    ensures !HasPrefix(s, "//")
  {
    if |s| >= 2 { assert s[..2][0] == s[0]; }
  }

  /** A clean path has one slash at the front at most. */
  lemma CleanNotDoubled(p: string)
    ensures !HasPrefix(Clean(p), "//") && (IsAbs(p) ==> Clean(p)[0] == '/')
  {
    hide Join, HasPrefix, Segments, Reduce;
    SegmentsProper(p);
    var reduced := Reduce(Segments(p), IsAbs(p));
    ReducedProper(Segments(p), IsAbs(p));
    if reduced == [] {
      RootIsSlash();
      NoSlashFirst(Clean(p));
    } else {
      FirstChar(reduced);
      assert "/" + "/" == "//";
      if IsAbs(p) { NotBelowRoot(reduced); } else { NoSlashFirst(Clean(p)); }
    }
  }

  lemma {:induction false} ReducedProper(segments: seq<string>, abs: bool)
    requires Proper(segments)
    ensures Proper(Reduce(segments, abs))
    decreases |segments|
  {
    if segments != [] { ReducedProper(segments[..|segments| - 1], abs); }
  }

  lemma SlashBefore(p: string)
    ensures Segments("/" + p) == Segments(p)
  {
    SegmentsConcat("", p);
    assert "" + "/" + p == "/" + p;
    assert Segments("") == [] by { assert Split("", '/') == [""]; }
  }

  lemma StartsWith(a: string, b: string)
    ensures HasPrefix(a + "/" + b, a + "/")
  {
    assert (a + "/" + b)[..|a + "/"|] == a + "/";
  }

  /** The check passes exactly the paths that are not blank, hold none of the refused characters, no `://` and no `..`, and that
      the daemon resolves to the workdir or below it; a workdir that is the root admits itself alone. */
  lemma PassesExactly(workdir: string, value: string, cwd: string)
    requires IsAbs(workdir) && Clean(workdir) == workdir && UP !in Segments(workdir) && IsAbs(cwd)
    ensures RemotePath(workdir, value, cwd).Some? <==>
              && TrimSpace(value) != ""
              && (forall i :: 0 <= i < |value| ==> value[i] != 0 as char && value[i] != '\r' && value[i] != '\n' && value[i] != '\\')
              && (forall i :: 0 <= i <= |value| ==> !HasPrefix(value[i..], "://"))
              && ".." !in Split(value, '/')
              && (if workdir == "/" then DaemonResolvePath(cwd, value) == "/" else Inside(workdir, DaemonResolvePath(cwd, value)))
  {
    hide Segments, Clean, JoinPath, DaemonResolvePath, Inside;
    if TrimSpace(value) != "" && !InvalidWorkspacePath(value) {
      ValidValue(value);
      ResolvedSame(value, cwd);
      var p := DaemonResolvePath(cwd, value);
      if Inside(workdir, p) { InsideIsPrefix(workdir, p); }
      if p == workdir || HasPrefix(p, workdir + "/") {
        PrefixIsInside(workdir, p);
        InsideIsPrefix(workdir, p);
      }
    }
  }

  /** A name goes down; going down and up again leads nowhere; from the root there is no way up. */
  lemma DownAndUp(segments: seq<string>, name: string, abs: bool)
    requires name != ".."
    ensures Reduce(segments + [name], abs) == Reduce(segments, abs) + [name]
    ensures Reduce(segments + [name] + [".."], abs) == Reduce(segments, abs)
    ensures Reduce([".."], true) == [] && Reduce([".."], false) == [".."]
  {
    var down := segments + [name];
    assert down[..|down| - 1] == segments && (down + [".."])[..|down|] == down;
    assert [".."][..0] == [];
  }
}
