/** Applies hunks to a file's text: line endings, lines, rewriting, and text again. */
module PatchText {
  import opened Options
  import opened Text
  import opened PatchHunks
  import opened PatchHunkLaws

  const CRLF: string := "\r\n"
  const LF: string := "\n"

  function WithoutCRLF(s: string): string {
    if s == "" then "" else if HasPrefix(s, CRLF) then WithoutCRLF(s[2..]) else [s[0]] + WithoutCRLF(s[1..])
  }

  function CRLFToLF(s: string): string {
    if s == "" then "" else if HasPrefix(s, CRLF) then LF + CRLFToLF(s[2..]) else [s[0]] + CRLFToLF(s[1..])
  }

  predicate HasCRLF(s: string) {
    exists i :: 0 <= i < |s| && HasPrefix(s[i..], CRLF)
  }

  datatype Normal = Normal(text: string, ending: string)

  /** `daemonNormalizePatchLineEndings`. */
  function NormalizePatchLineEndings(original: string): Option<Normal> {
    var without := WithoutCRLF(original);
    if (HasCRLF(original) && '\n' in without) || '\r' in without then None
    else if HasCRLF(original) then Some(Normal(CRLFToLF(original), CRLF))
    else Some(Normal(original, LF))
  }

  /** `daemonSplitTextLines`. */
  function SplitTextLines(text: string): seq<string> {
    if text == "" then [] else
      var lines := Split(text, '\n');
      if lines[|lines| - 1] == "" then lines[..|lines| - 1] else lines
  }

  predicate EndsWithNewline(s: string) {
    |s| > 0 && s[|s| - 1] == '\n'
  }

  function TextOf(lines: seq<string>, ending: string, finalNewline: bool): string {
    Join(lines, ending) + if finalNewline && |lines| > 0 then ending else ""
  }

  /** Splitting a text and writing its lines out again restores it, with the other ending in place of each newline. */
  lemma LinesRoundTrip(text: string, ending: string)
    ensures TextOf(SplitTextLines(text), ending, EndsWithNewline(text)) == Substitute(text, '\n', ending)
  {
    hide Split, Join, Substitute;
    JoinSplit(text, '\n', ending);
    SplitLast(text, '\n');
    if text == "" {
      JoinNothing(ending);
    } else if EndsWithNewline(text) {
      var all := Split(text, '\n');
      var lines := all[..|all| - 1];
      SplitsInTwo(text);
      assert all == lines + [""];
      JoinAppend(lines, "", ending);
    }
  }

  lemma JoinNothing(ending: string)
    ensures Join([], ending) == "" && Substitute("", '\n', ending) == ""
  {
  }

  lemma {:induction false} SplitsInTwo(text: string)
    requires EndsWithNewline(text)
    ensures |Split(text, '\n')| >= 2
  {
    if |text| > 1 { SplitsInTwo(text[1..]); }
  }

  lemma {:induction false} CRLFBack(s: string)
    requires '\n' !in WithoutCRLF(s)
    ensures Substitute(CRLFToLF(s), '\n', CRLF) == s
  {
    if s != "" {
      if HasPrefix(s, CRLF) {
        CRLFBack(s[2..]);
        assert (LF + CRLFToLF(s[2..]))[1..] == CRLFToLF(s[2..]);
        assert s == CRLF + s[2..];
      } else {
        assert s[0] == WithoutCRLF(s)[0];
        assert WithoutCRLF(s)[1..] == WithoutCRLF(s[1..]);
        CRLFBack(s[1..]);
        assert ([s[0]] + CRLFToLF(s[1..]))[1..] == CRLFToLF(s[1..]);
      }
    }
  }

  /** Normalizing, splitting and writing out again is the identity on every text that is accepted, LF or CRLF. */
  lemma TextRoundTrip(original: string)
    requires NormalizePatchLineEndings(original).Some?
    ensures var n := NormalizePatchLineEndings(original).value;
            TextOf(SplitTextLines(n.text), n.ending, EndsWithNewline(n.text)) == original
  {
    var n := NormalizePatchLineEndings(original).value;
    LinesRoundTrip(n.text, n.ending);
    if HasCRLF(original) { CRLFBack(original); } else { SubstituteSelf(original, '\n'); }
  }

  /** The lines of a text and whether it ends in a newline fix it. */
  lemma LinesFixText(text: string, other: string)
    requires SplitTextLines(text) == SplitTextLines(other) && EndsWithNewline(text) == EndsWithNewline(other)
    ensures text == other
  {
    hide Split, Join, Substitute;
    LinesRoundTrip(text, LF);
    LinesRoundTrip(other, LF);
    SubstituteSelf(text, '\n');
    SubstituteSelf(other, '\n');
  }

  /** Lines written out, a newline behind each, are read back. */
  lemma WrittenLines(lines: seq<string>)
    requires lines != [] && forall k :: 0 <= k < |lines| ==> '\n' !in lines[k]
    ensures var text := Join(lines, LF) + LF;
            EndsWithNewline(text) && SplitTextLines(text) == lines
  {
    hide Split, Join;
    JoinAppend(lines, "", LF);
    SplitJoin(lines + [""], '\n');
    assert Join(lines, LF) + LF + "" == Join(lines, LF) + LF;
  }

  /** The text the hunks must produce. */
  ghost predicate RewritesText(original: string, hunks: seq<Hunk>, r: Option<string>) {
    if hunks == [] then r == Some(original) else
      match NormalizePatchLineEndings(original)
      case None => r == None
      case Some(n) =>
        exists out :: Rewrites(SplitTextLines(n.text), hunks, out)
          && r == if out.None? then None else Some(TextOf(out.value, n.ending, EndsWithNewline(n.text)))
  }

  /** `daemonApplyPatchHunks`. */
  method ApplyPatchHunks(original: string, hunks: seq<Hunk>) returns (r: Option<string>)
    ensures RewritesText(original, hunks, r)
  {
    hide Rewrites;
    if |hunks| == 0 { return Some(original); }
    var normal := NormalizePatchLineEndings(original);
    if normal.None? { return None; }
    var out := RewriteLines(SplitTextLines(normal.value.text), hunks);
    if out.None? { return None; }
    r := Some(TextOf(out.value, normal.value.ending, EndsWithNewline(normal.value.text)));
  }

  /** The outcome is determined by the text and the hunks. */
  lemma RewritesTextOnce(original: string, hunks: seq<Hunk>, r: Option<string>, s: Option<string>)
    requires RewritesText(original, hunks, r) && RewritesText(original, hunks, s)
    ensures r == s
  {
    hide Rewrites;
    if hunks != [] && NormalizePatchLineEndings(original).Some? {
      var n := NormalizePatchLineEndings(original).value;
      var lines := SplitTextLines(n.text);
      var a :| Rewrites(lines, hunks, a) && r == if a.None? then None else Some(TextOf(a.value, n.ending, EndsWithNewline(n.text)));
      var b :| Rewrites(lines, hunks, b) && s == if b.None? then None else Some(TextOf(b.value, n.ending, EndsWithNewline(n.text)));
      RewritesOnce(lines, hunks, a, b);
    }
  }

  /** Hunks of context lines alone give the original text back byte for byte. */
  lemma ContextOnlyKeepsText(original: string, hunks: seq<Hunk>, r: string)
    requires RewritesText(original, hunks, Some(r)) && ContextOnly(hunks)
    ensures r == original
  {
    hide Rewrites;
    if hunks != [] {
      var n := NormalizePatchLineEndings(original).value;
      var lines := SplitTextLines(n.text);
      var out :| Rewrites(lines, hunks, out) && Some(r) == if out.None? then None else Some(TextOf(out.value, n.ending, EndsWithNewline(n.text)));
      ContextOnlySame(lines, hunks, out.value);
      TextRoundTrip(original);
    }
  }

  /** Every carriage return stands before a newline, and every newline behind one. */
  predicate Paired(s: string) {
    && (forall i :: 0 <= i < |s| && s[i] == '\r' ==> i + 1 < |s| && s[i + 1] == '\n')
    && (forall i :: 0 <= i < |s| && s[i] == '\n' ==> i > 0 && s[i - 1] == '\r')
  }

  lemma {:induction false} PairedIs(s: string)
    ensures '\n' !in WithoutCRLF(s) && '\r' !in WithoutCRLF(s) <==> Paired(s)
    decreases |s|
  {
    if s == "" {
    } else if HasPrefix(s, CRLF) {
      PairedIs(s[2..]);
      PairedBehind(s);
    } else {
      PairedIs(s[1..]);
      PairedNext(s);
      assert WithoutCRLF(s) == [s[0]] + WithoutCRLF(s[1..]);
    }
  }

  lemma PairedBehind(s: string)
    requires HasPrefix(s, CRLF)
    ensures Paired(s) <==> Paired(s[2..])
  {
    var rest := s[2..];
    assert s[..2][0] == '\r' && s[..2][1] == '\n';
    assert forall i :: 2 <= i < |s| ==> s[i] == rest[i - 2];
    if Paired(rest) {
      forall i | 2 <= i < |s| && s[i] == '\n'
        ensures s[i - 1] == '\r'
      {
        assert rest[i - 2] == '\n';
      }
    }
    if Paired(s) {
      forall i | 0 <= i < |rest|
        ensures rest[i] == '\r' ==> i + 1 < |rest| && rest[i + 1] == '\n'
        ensures rest[i] == '\n' ==> i > 0 && rest[i - 1] == '\r'
      {
        assert s[i + 2] == rest[i];
      }
    }
  }

  lemma PairedNext(s: string)
    requires s != "" && !HasPrefix(s, CRLF)
    ensures Paired(s) <==> s[0] != '\n' && s[0] != '\r' && Paired(s[1..])
  {
    var rest := s[1..];
    assert forall i :: 1 <= i < |s| ==> s[i] == rest[i - 1];
    if |s| > 1 { assert s[..2] == [s[0], s[1]]; }
    if s[0] != '\n' && s[0] != '\r' {
      forall i | 0 <= i < |rest|
        ensures rest[i] == s[i + 1]
      {
      }
      if Paired(s) {
        forall i | 0 <= i < |rest|
          ensures rest[i] == '\r' ==> i + 1 < |rest| && rest[i + 1] == '\n'
          ensures rest[i] == '\n' ==> i > 0 && rest[i - 1] == '\r'
        {
          assert s[i + 1] == rest[i];
        }
      }
    }
  }

  lemma PairedHasCRLF(s: string)
    requires Paired(s)
    ensures HasCRLF(s) <==> '\n' in s
  {
    if '\n' in s {
      var i :| 0 <= i < |s| && s[i] == '\n';
      assert s[i - 1..][..2] == CRLF;
    }
    if HasCRLF(s) {
      var i :| 0 <= i < |s| && HasPrefix(s[i..], CRLF);
      assert s[i..][..2][1] == s[i + 1];
    }
  }

  lemma {:induction false} NoReturns(s: string)
    requires '\r' !in s
    ensures WithoutCRLF(s) == s && !HasCRLF(s)
  {
    if s != "" {
      if |s| >= 2 { assert s[..2][0] == s[0]; }
      NoReturns(s[1..]);
    }
    forall i | 0 <= i < |s|
      ensures !HasPrefix(s[i..], CRLF)
    {
      if |s| - i >= 2 { assert s[i..][..2][0] == s[i]; }
    }
  }

  /** The texts that are accepted: those without a carriage return, and those where carriage returns and newlines come in pairs. */
  lemma AcceptedEndings(s: string)
    ensures '\r' !in s ==> NormalizePatchLineEndings(s) == Some(Normal(s, "\n"))
    ensures '\r' in s && Paired(s) ==>
              var n := NormalizePatchLineEndings(s); n.Some? && n.value.ending == "\r\n" && Substitute(n.value.text, '\n', "\r\n") == s
    ensures '\r' in s && !Paired(s) ==> NormalizePatchLineEndings(s).None?
  {
    PairedIs(s);
    if '\r' !in s {
      NoReturns(s);
    } else if Paired(s) {
      PairedHasCRLF(s);
      var i :| 0 <= i < |s| && s[i] == '\r';
      assert s[i + 1] == '\n';
      CRLFBack(s);
    } else if !HasCRLF(s) {
      NothingWithout(s);
    }
  }

  lemma {:induction false} NothingWithout(s: string)
    requires !HasCRLF(s)
    ensures WithoutCRLF(s) == s
  {
    if s != "" {
      assert s[0..] == s;
      forall i | 0 <= i < |s[1..]|
        ensures !HasPrefix(s[1..][i..], CRLF)
      {
        assert s[1..][i..] == s[i + 1..];
      }
      NothingWithout(s[1..]);
    }
  }
}
