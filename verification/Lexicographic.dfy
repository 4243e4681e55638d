/** The order of strings. */
module Lexicographic {
  predicate Less(a: string, b: string) {
    if b == "" then false else if a == "" then true else if a[0] != b[0] then a[0] < b[0] else Less(a[1..], b[1..])
  }

  lemma {:induction false} Irreflexive(a: string)
    ensures !Less(a, a)
  {
    if a != "" { Irreflexive(a[1..]); }
  }

  /** The first place where they differ decides, and a proper prefix comes first. */
  lemma {:induction false} LessMeans(a: string, b: string)
    ensures Less(a, b) <==> exists k :: 0 <= k <= |a| && k < |b| && a[..k] == b[..k] && (k == |a| || a[k] < b[k])
  {
    if a == "" {
      if b != "" { assert a[..0] == b[..0]; }
    } else if b != "" && a[0] != b[0] {
      if a[0] < b[0] { assert a[..0] == b[..0]; }
      assert forall k :: 0 < k <= |a| && k < |b| && a[..k] == b[..k] ==> a[..k][0] == b[..k][0];
    } else if b != "" {
      LessMeans(a[1..], b[1..]);
      if Less(a, b) {
        var k :| 0 <= k <= |a[1..]| && k < |b[1..]| && a[1..][..k] == b[1..][..k] && (k == |a[1..]| || a[1..][k] < b[1..][k]);
        assert a[..k + 1] == [a[0]] + a[1..][..k] == b[..k + 1];
      }
      forall k | 0 <= k <= |a| && k < |b| && a[..k] == b[..k] && (k == |a| || a[k] < b[k])
        ensures Less(a, b)
      {
        assert a[1..][..k - 1] == a[..k][1..] && b[1..][..k - 1] == b[..k][1..];
      }
    }
  }

  lemma {:induction false} Transitive(a: string, b: string, c: string)
    requires Less(a, b) && Less(b, c)
    ensures Less(a, c)
  {
    if a != "" && a[0] == b[0] == c[0] { Transitive(a[1..], b[1..], c[1..]); }
  }

  lemma {:induction false} Total(a: string, b: string)
    ensures Less(a, b) || a == b || Less(b, a)
  {
    if a != "" && b != "" && a[0] == b[0] {
      Total(a[1..], b[1..]);
      if a[1..] == b[1..] { assert a == [a[0]] + a[1..] == b; }
    }
  }

  lemma {:induction false} Prefixed(p: string, a: string, b: string)
    ensures Less(p + a, p + b) <==> Less(a, b)
  {
    if p == "" {
      assert p + a == a && p + b == b;
    } else {
      assert (p + a)[1..] == p[1..] + a && (p + b)[1..] == p[1..] + b;
      Prefixed(p[1..], a, b);
    }
  }

  predicate IsPrefix(a: string, b: string) {
    a == "" || (b != "" && a[0] == b[0] && IsPrefix(a[1..], b[1..]))
  }

  /** Once two strings differ, whatever follows them does not matter. */
  lemma {:induction false} Extended(a: string, x: string, b: string, y: string)
    requires Less(a, b) && !IsPrefix(a, b)
    ensures Less(a + x, b + y)
  {
    assert (a + x)[1..] == a[1..] + x && (b + y)[1..] == b[1..] + y;
    if a[0] == b[0] { Extended(a[1..], x, b[1..], y); }
  }

  /** A prefix's characters are the string's. */
  lemma {:induction false} PrefixAt(a: string, b: string, k: nat)
    requires IsPrefix(a, b) && k < |a|
    ensures k < |b| && b[k] == a[k]
  {
    if k > 0 { PrefixAt(a[1..], b[1..], k - 1); }
  }

  /** A string comes before all that extend a later one. */
  lemma {:induction false} BeforeExtended(a: string, b: string, y: string)
    requires Less(a, b)
    ensures Less(a, b + y)
  {
    if a != "" {
      assert (b + y)[1..] == b[1..] + y;
      if a[0] == b[0] { BeforeExtended(a[1..], b[1..], y); }
    }
  }
}
