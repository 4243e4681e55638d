/** The string operations the daemon takes from its standard library. A char stands for a byte. */
module Text {
  /** `strings.Split` with a one-byte separator. */
  function Split(s: string, sep: char): (r: seq<string>)
    ensures |r| >= 1
  {
    if s == "" then [""] else
      var rest := Split(s[1..], sep);
      if s[0] == sep then [""] + rest else [[s[0]] + rest[0]] + rest[1..]
  }

  /** `strings.Join`. */
  function Join(lines: seq<string>, sep: string): string {
    if |lines| == 0 then "" else if |lines| == 1 then lines[0] else lines[0] + sep + Join(lines[1..], sep)
  }

  /** Every `c` of `s` replaced by `with`. */
  function Substitute(s: string, c: char, with: string): string {
    if s == "" then "" else (if s[0] == c then with else [s[0]]) + Substitute(s[1..], c, with)
  }

  lemma {:induction false} JoinSplit(s: string, sep: char, with: string)
    ensures Join(Split(s, sep), with) == Substitute(s, sep, with)
  {
    if s != "" {
      var rest := Split(s[1..], sep);
      JoinSplit(s[1..], sep, with);
      if s[0] == sep {
        assert ([""] + rest)[1..] == rest;
      } else if |rest| > 1 {
        assert ([[s[0]] + rest[0]] + rest[1..])[1..] == rest[1..];
      }
    }
  }

  lemma {:induction false} SubstituteSelf(s: string, c: char)
    ensures Substitute(s, c, [c]) == s
  {
    if s != "" { SubstituteSelf(s[1..], c); }
  }

  /** Splitting what was joined gives the lines back, if no line contains the separator. */
  lemma {:induction false} SplitJoin(lines: seq<string>, sep: char)
    requires |lines| >= 1 && forall k :: 0 <= k < |lines| ==> sep !in lines[k]
    ensures Split(Join(lines, [sep]), sep) == lines
  {
    if |lines| == 1 {
      SplitOne(lines[0], sep);
    } else {
      SplitJoin(lines[1..], sep);
      SplitFirst(lines[0], Join(lines[1..], [sep]), sep);
      assert lines[0] + [sep] + Join(lines[1..], [sep]) == lines[0] + ([sep] + Join(lines[1..], [sep]));
    }
  }

  lemma {:induction false} SplitOne(s: string, sep: char)
    requires sep !in s
    ensures Split(s, sep) == [s]
  {
    if s != "" {
      SplitOne(s[1..], sep);
      assert [s[0]] + s[1..] == s;
    }
  }

  lemma {:induction false} SplitFirst(line: string, rest: string, sep: char)
    requires sep !in line
    ensures Split(line + ([sep] + rest), sep) == [line] + Split(rest, sep)
  {
    if line == "" {
      assert line + ([sep] + rest) == [sep] + rest;
      assert ([sep] + rest)[1..] == rest;
    } else {
      SplitFirst(line[1..], rest, sep);
      assert (line + ([sep] + rest))[1..] == line[1..] + ([sep] + rest);
      assert [line[0]] + line[1..] == line;
    }
  }

  /** No line of a split contains the separator. */
  lemma {:induction false} SplitClean(s: string, sep: char)
    ensures forall k :: 0 <= k < |Split(s, sep)| ==> sep !in Split(s, sep)[k]
  {
    if s != "" { SplitClean(s[1..], sep); }
  }

  lemma {:induction false} SplitLast(s: string, sep: char)
    ensures var r := Split(s, sep);
            (r[|r| - 1] == "" <==> s == "" || s[|s| - 1] == sep)
  {
    if s != "" { SplitLast(s[1..], sep); }
  }

  lemma {:induction false} JoinAppend(lines: seq<string>, last: string, sep: string)
    requires |lines| >= 1
    ensures Join(lines + [last], sep) == Join(lines, sep) + sep + last
  {
    if |lines| == 1 {
      assert (lines + [last])[1..] == [last];
    } else {
      JoinAppend(lines[1..], last, sep);
      assert (lines + [last])[1..] == lines[1..] + [last];
    }
  }

  predicate HasPrefix(s: string, prefix: string) {
    |prefix| <= |s| && s[..|prefix|] == prefix
  }

  /** `strings.TrimPrefix`. */
  function TrimPrefix(s: string, prefix: string): string {
    if HasPrefix(s, prefix) then s[|prefix|..] else s
  }

  predicate IsSpace(c: char) {
    c in {' ', '\t', '\n', '\r', 11 as char, 12 as char}
  }

  function TrimLeft(s: string): string {
    if s != "" && IsSpace(s[0]) then TrimLeft(s[1..]) else s
  }

  function TrimRight(s: string): string {
    if s != "" && IsSpace(s[|s| - 1]) then TrimRight(s[..|s| - 1]) else s
  }

  /** `strings.TrimSpace`, for text without the white space that lies beyond ASCII. */
  function TrimSpace(s: string): string { TrimRight(TrimLeft(s)) }

  predicate Trimmed(s: string) {
    s != "" && !IsSpace(s[0]) && !IsSpace(s[|s| - 1])
  }

  lemma TrimTrimmed(s: string)
    requires Trimmed(s)
    ensures TrimSpace(s) == s
  {
  }
}
