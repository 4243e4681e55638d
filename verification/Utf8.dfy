/** UTF-8 as in section 4 of RFC 3629. A char stands for a byte. */
module Utf8 {
  import opened Options

  function Byte(c: char): int { c as int }

  /** How many bytes a sequence starting with this one has; 0 for a byte that starts none. */
  function Width(first: char): nat {
    var b := Byte(first);
    if b < 0x80 then 1 else if b < 0xC2 then 0 else if b < 0xE0 then 2 else if b < 0xF0 then 3 else if b < 0xF5 then 4 else 0
  }

  /** What the second byte may be. */
  predicate SecondFits(first: char, second: char) {
    var b, c := Byte(first), Byte(second);
    (if b == 0xE0 then 0xA0 else if b == 0xF0 then 0x90 else 0x80) <= c <= (if b == 0xED then 0x9F else if b == 0xF4 then 0x8F else 0xBF)
  }

  predicate Continues(c: char) { 0x80 <= Byte(c) <= 0xBF }

  /** A well-formed sequence at the start. */
  predicate RuneAt(s: string) {
    && s != "" && Width(s[0]) >= 1 && |s| >= Width(s[0])
    && (Width(s[0]) >= 2 ==> SecondFits(s[0], s[1]))
    && (Width(s[0]) >= 3 ==> Continues(s[2]))
    && (Width(s[0]) >= 4 ==> Continues(s[3]))
  }

  /** `utf8.FullRune`: the bytes hold a whole sequence, or can no longer become one. */
  predicate FullRune(s: string) {
    && s != ""
    && (|s| >= Width(s[0]) || (|s| > 1 && !SecondFits(s[0], s[1])) || (|s| > 2 && !Continues(s[2])))
  }

  /** `utf8.Valid`. */
  predicate Valid(s: string) {
    s == "" || (RuneAt(s) && Valid(s[Width(s[0])..]))
  }

  /** The length of the longest valid prefix made of whole sequences from the left. */
  function WholeRunes(s: string): (n: nat)
    ensures n <= |s|
  {
    if RuneAt(s) then Width(s[0]) + WholeRunes(s[Width(s[0])..]) else 0
  }

  lemma {:induction false} WholeIsValid(s: string)
    ensures Valid(s[..WholeRunes(s)]) && !RuneAt(s[WholeRunes(s)..])
  {
    if RuneAt(s) {
      var w := Width(s[0]);
      WholeIsValid(s[w..]);
      RuneInPrefix(s, WholeRunes(s));
      assert s[..WholeRunes(s)][w..] == s[w..][..WholeRunes(s[w..])];
      assert s[WholeRunes(s)..] == s[w..][WholeRunes(s[w..])..];
    }
  }

  lemma RuneInPrefix(s: string, n: nat)
    requires n <= |s| && s != "" && Width(s[0]) <= n && n > 0
    ensures RuneAt(s[..n]) <==> RuneAt(s)
  {
  }

  /** Validity is decided piece by piece. */
  lemma {:induction false} ValidConcat(a: string, b: string)
    requires Valid(a)
    ensures Valid(a + b) <==> Valid(b)
  {
    if a == "" {
      assert a + b == b;
    } else {
      var w := Width(a[0]);
      ValidConcat(a[w..], b);
      assert (a + b)[w..] == a[w..] + b;
      assert (a + b)[..|a|] == a;
      RuneInPrefix(a + b, |a|);
    }
  }

  /** If whole sequences from the left leave a rest that holds no whole sequence yet, more bytes may still complete it:
      a valid text never shows a full but malformed sequence in any of its prefixes. */
  lemma {:induction false} PrefixOfValid(a: string, b: string)
    requires Valid(a + b)
    ensures var n := WholeRunes(a); n == |a| || !FullRune(a[n..])
    decreases |a|
  {
    if a != "" {
      var w := Width(a[0]);
      assert (a + b)[0] == a[0] && RuneAt(a + b);
      if w <= |a| {
        assert (a + b)[..|a|] == a;
        RuneInPrefix(a + b, |a|);
        assert (a + b)[w..] == a[w..] + b;
        PrefixOfValid(a[w..], b);
        assert a[WholeRunes(a)..] == a[w..][WholeRunes(a[w..])..];
      } else {
        assert |a| > 1 ==> (a + b)[1] == a[1];
        assert |a| > 2 ==> (a + b)[2] == a[2];
      }
    }
  }

  lemma {:induction false} ValidWhole(s: string)
    requires Valid(s)
    ensures WholeRunes(s) == |s|
  {
    if s != "" { ValidWhole(s[Width(s[0])..]); }
  }

  lemma {:induction false} WholeConcat(a: string, b: string)
    requires Valid(a)
    ensures WholeRunes(a + b) == |a| + WholeRunes(b)
  {
    if a == "" {
      assert a + b == b;
    } else {
      var w := Width(a[0]);
      assert (a + b)[w..] == a[w..] + b;
      assert (a + b)[..|a|] == a;
      RuneInPrefix(a + b, |a|);
      WholeConcat(a[w..], b);
    }
  }

  /** `daemonCompleteUTF8Prefix`. */
  method CompletePrefix(data: string, final: bool) returns (n: nat, invalid: bool)
    ensures n == WholeRunes(data)
    ensures invalid <==> n < |data| && (final || FullRune(data[n..]))
  {
    n := 0;
    while n < |data|
      invariant n <= |data| && Valid(data[..n]) && WholeRunes(data) == n + WholeRunes(data[n..])
    {
      if !FullRune(data[n..]) { return n, final; }
      if !RuneAt(data[n..]) { return n, true; }
      var w := Width(data[n]);
      WholeConcatStep(data, n, w);
      n := n + w;
    }
    assert data[n..] == "";
    invalid := false;
  }

  lemma WholeConcatStep(data: string, n: nat, w: nat)
    requires n < |data| && Valid(data[..n]) && RuneAt(data[n..]) && w == Width(data[n])
    ensures n + w <= |data| && Valid(data[..n + w]) && WholeRunes(data[n..]) == w + WholeRunes(data[n + w..])
  {
    assert data[n..][0] == data[n];
    assert data[n..][w..] == data[n + w..];
    var rune := data[n..n + w];
    assert rune == data[n..][..w];
    RuneInPrefix(data[n..], w);
    assert rune[w..] == "";
    ValidConcat(data[..n], rune);
    assert data[..n] + rune == data[..n + w];
  }

  /** The longest prefix of at most `n` bytes that ends on a sequence boundary. */
  function Cut(s: string, n: nat): (c: nat)
    requires n <= |s|
    ensures c <= n
  {
    if n == 0 || Valid(s[..n]) then n else Cut(s, n - 1)
  }

  lemma {:induction false} CutIsValid(s: string, n: nat)
    requires n <= |s|
    ensures Valid(s[..Cut(s, n)]) && forall m :: Cut(s, n) < m <= n ==> !Valid(s[..m])
  {
    if n != 0 && !Valid(s[..n]) { CutIsValid(s, n - 1); }
  }

  /** Cutting after a valid part is cutting the rest. */
  lemma {:induction false} CutConcat(a: string, b: string, n: nat)
    requires Valid(a) && n <= |b|
    ensures Cut(a + b, |a| + n) == |a| + Cut(b, n)
  {
    assert (a + b)[..|a| + n] == a + b[..n];
    ValidConcat(a, b[..n]);
    if n != 0 && !Valid(b[..n]) {
      CutConcat(a, b, n - 1);
    }
  }

  /** A cut looks no further than its limit. */
  lemma {:induction false} CutPrefix(s: string, t: string, n: nat)
    requires n <= |s|
    ensures Cut(s + t, n) == Cut(s, n)
  {
    assert (s + t)[..n] == s[..n];
    if n != 0 && !Valid(s[..n]) { CutPrefix(s, t, n - 1); }
  }
}
