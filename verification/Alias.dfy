/** The alias a codespace gets when none is given. */
module Alias {
  const MAX_ALIAS_LENGTH: nat := 128

  /** More strings than a slice can hold. */
  const SLICE_LIMIT: nat := 0x800_0000_0000_0000

  predicate AlphaNumeric(c: char) {
    'A' <= c <= 'Z' || 'a' <= c <= 'z' || '0' <= c <= '9'
  }

  predicate AliasChar(c: char) {
    AlphaNumeric(c) || c == '.' || c == '_' || c == '-'
  }

  /** `ValidAlias`. */
  predicate ValidAlias(alias: string) {
    0 < |alias| <= MAX_ALIAS_LENGTH && AlphaNumeric(alias[0]) && forall k :: 0 <= k < |alias| ==> AliasChar(alias[k])
  }

  /** `%d`. */
  function Decimal(n: nat): string
    decreases n
  {
    (if n < 10 then "" else Decimal(n / 10)) + ["0123456789"[n % 10]]
  }

  function Pow10(n: nat): nat { if n == 0 then 1 else 10 * Pow10(n - 1) }

  predicate Digit(c: char) { '0' <= c <= '9' }

  lemma {:induction false} DecimalDigits(n: nat)
    ensures |Decimal(n)| >= 1 && forall k :: 0 <= k < |Decimal(n)| ==> Digit(Decimal(n)[k])
  {
    if n >= 10 { DecimalDigits(n / 10); }
  }

  lemma {:induction false} DecimalInjective(m: nat, n: nat)
    requires Decimal(m) == Decimal(n)
    ensures m == n
  {
    DecimalDigits(m / 10);
    DecimalDigits(n / 10);
    LastDigit(m);
    LastDigit(n);
    if m >= 10 && n >= 10 { DecimalInjective(m / 10, n / 10); }
  }

  lemma LastDigit(n: nat)
    ensures var d := Decimal(n);
            && |d| >= 1 && d[|d| - 1] == "0123456789"[n % 10]
            && d[..|d| - 1] == if n < 10 then "" else Decimal(n / 10)
  {
  }

  lemma {:induction false} DecimalLength(n: nat, k: nat)
    requires k >= 1 && n < Pow10(k)
    ensures |Decimal(n)| <= k
    decreases k
  {
    if n >= 10 { DecimalLength(n / 10, k - 1); }
  }

  lemma SuffixLength(i: nat)
    requires i <= SLICE_LIMIT + 2
    ensures |Suffix(i)| <= 20
  {
    assert Pow10(5) == 100_000;
    assert Pow10(10) == 10_000_000_000 by { assert Pow10(7) == 10_000_000; }
    assert Pow10(15) == 1_000_000_000_000_000 by { assert Pow10(12) == 1_000_000_000_000; }
    assert Pow10(19) == 10_000_000_000_000_000_000 by { assert Pow10(17) == 100_000_000_000_000_000; }
    DecimalLength(i, 19);
  }

  function Suffix(i: nat): string { "-" + Decimal(i) }

  /** The candidate for suffix number `i`: the base cut so that the whole is no longer than an alias may be. */
  function Candidate(base: string, i: nat): string {
    var suffix := Suffix(i);
    (if |base| + |suffix| > MAX_ALIAS_LENGTH then base[..if |suffix| <= MAX_ALIAS_LENGTH && MAX_ALIAS_LENGTH - |suffix| <= |base| then MAX_ALIAS_LENGTH - |suffix| else 0] else base) + suffix
  }

  /** A candidate is the base, a dash and the number, the base being cut only where the whole would be longer than 128 characters. */
  lemma CandidateMeans(base: string, i: nat) returns (stem: string)
    requires |Decimal(i)| < 128
    ensures Candidate(base, i) == stem + "-" + Decimal(i) && |stem| <= |base| && stem == base[..|stem|]
    ensures if |base| + 1 + |Decimal(i)| <= 128 then stem == base else |Candidate(base, i)| == 128
  {
    hide Decimal;
    stem := if |base| + 1 + |Decimal(i)| > 128 then base[..127 - |Decimal(i)|] else base;
    assert stem + ("-" + Decimal(i)) == stem + "-" + Decimal(i);
  }

  /** Different numbers give different candidates, even when the base is cut. */
  lemma CandidatesDiffer(base: string, i: nat, j: nat)
    requires Candidate(base, i) == Candidate(base, j)
    ensures i == j
  {
    var c := Candidate(base, i);
    DecimalDigits(i);
    DecimalDigits(j);
    var m, n := |Decimal(i)|, |Decimal(j)|;
    CandidateTail(base, i);
    CandidateTail(base, j);
    TailDigits(c, Decimal(i));
    TailDigits(c, Decimal(j));
    DigitsEndAtDash(c, m, n);
    DigitsEndAtDash(c, n, m);
    DecimalInjective(i, j);
  }

  lemma TailDigits(c: string, d: string)
    requires |d| <= |c| && c[|c| - |d|..] == d && forall k :: 0 <= k < |d| ==> Digit(d[k])
    ensures forall k :: |c| - |d| <= k < |c| ==> Digit(c[k])
  {
    forall k | |c| - |d| <= k < |c|
      ensures Digit(c[k])
    {
      assert c[k] == c[|c| - |d|..][k - (|c| - |d|)];
    }
  }

  lemma DigitsEndAtDash(c: string, digits: nat, beforeDash: nat)
    requires digits <= |c| && forall k :: |c| - digits <= k < |c| ==> Digit(c[k])
    requires beforeDash < |c| && c[|c| - beforeDash - 1] == '-'
    ensures digits <= beforeDash
  {
  }

  lemma CandidateTail(base: string, i: nat)
    ensures var c, n := Candidate(base, i), |Decimal(i)|;
            |c| >= n + 1 && c[|c| - n..] == Decimal(i) && c[|c| - n - 1] == '-'
  {
  }

  /** `strings.LastIndex(repository, "/")`, and what follows. */
  function AfterLastSlash(s: string): string {
    if s == "" then "" else
      var rest := AfterLastSlash(s[1..]);
      if '/' in s[1..] then rest else if s[0] == '/' then s[1..] else s
  }

  function Cleaned(s: string): string {
    if s == "" then "" else [if AliasChar(s[0]) then s[0] else '-'] + Cleaned(s[1..])
  }

  function TrimSeparators(s: string): string {
    if s != "" && s[0] in "._-" then TrimSeparators(s[1..]) else s
  }

  lemma {:induction false} CleanedIsClean(s: string)
    ensures forall k :: 0 <= k < |Cleaned(s)| ==> AliasChar(Cleaned(s)[k])
  {
    if s != "" { CleanedIsClean(s[1..]); }
  }

  lemma {:induction false} TrimmedStart(s: string)
    requires forall k :: 0 <= k < |s| ==> AliasChar(s[k])
    ensures var t := TrimSeparators(s);
            (forall k :: 0 <= k < |t| ==> AliasChar(t[k])) && (t != "" ==> AlphaNumeric(t[0]))
  {
    if s != "" && s[0] in "._-" { TrimmedStart(s[1..]); }
  }

  /** The alias before any suffix: the repository's name with the characters an alias may have. */
  function Base(repository: string): string {
    var trimmed := TrimSeparators(Cleaned(AfterLastSlash(repository)));
    var base := if trimmed == "" then "codespace" else trimmed;
    if |base| > MAX_ALIAS_LENGTH then base[..MAX_ALIAS_LENGTH] else base
  }

  lemma BaseIsValid(repository: string)
    ensures ValidAlias(Base(repository))
  {
    CleanedIsClean(AfterLastSlash(repository));
    TrimmedStart(Cleaned(AfterLastSlash(repository)));
  }

  lemma CandidateIsValid(base: string, i: nat)
    requires ValidAlias(base) && |Suffix(i)| <= 20
    ensures ValidAlias(Candidate(base, i))
  {
    DecimalDigits(i);
    var c := Candidate(base, i);
    forall k | 0 <= k < |c|
      ensures AliasChar(c[k])
    {
      var stem := |c| - |Suffix(i)|;
      if k >= stem { assert c[k] == Suffix(i)[k - stem]; }
    }
  }

  /** `DefaultAlias`: the search ends, for each taken candidate uses up one of the aliases that exist. */
  method DefaultAlias(repository: string, existing: seq<string>) returns (alias: string)
    requires |existing| <= SLICE_LIMIT
    ensures ValidAlias(alias) && alias !in existing
    ensures Base(repository) !in existing ==> alias == Base(repository)
    ensures Base(repository) in existing ==>
              exists i :: 2 <= i && alias == Candidate(Base(repository), i) && forall j :: 2 <= j < i ==> Candidate(Base(repository), j) in existing
  {
    hide Base, ValidAlias, Candidate, Suffix;
    var base := Base(repository);
    BaseIsValid(repository);
    var taken := set a | a in existing;
    TakenSize(existing);
    if base !in taken { return base; }
    var i := 2;
    ghost var seen: set<string> := {};
    while true
      invariant 2 <= i && seen <= taken && |seen| == i - 2
      invariant forall j :: 2 <= j < i ==> Candidate(base, j) in seen
      invariant forall c :: c in seen ==> exists j :: 2 <= j < i && c == Candidate(base, j)
      decreases |taken| - |seen|
    {
      SubsetSize(seen, taken);
      alias := Candidate(base, i);
      SuffixLength(i);
      CandidateIsValid(base, i);
      if alias !in taken { return; }
      forall j | 2 <= j < i
        ensures Candidate(base, j) != alias
      {
        if Candidate(base, j) == Candidate(base, i) { CandidatesDiffer(base, j, i); }
      }
      assert alias !in seen;
      seen := seen + {alias};
      SubsetSize(seen, taken);
      i := i + 1;
    }
  }

  lemma {:induction false} TakenSize(existing: seq<string>)
    ensures |set a | a in existing| <= |existing|
  {
    if existing != [] {
      TakenSize(existing[1..]);
      var rest := set a | a in existing[1..];
      assert (set a | a in existing) == rest + {existing[0]};
    }
  }

  lemma {:induction false} SubsetSize(small: set<string>, large: set<string>)
    requires small <= large
    ensures |small| <= |large|
  {
    if x :| x in small {
      SubsetSize(small - {x}, large - {x});
    }
  }

  /** What follows the last slash, or all of it. */
  lemma {:induction false} AfterLastSlashIs(s: string)
    ensures '/' !in AfterLastSlash(s)
    ensures AfterLastSlash(s) == s || exists owner :: s == owner + "/" + AfterLastSlash(s)
  {
    if s != "" {
      AfterLastSlashIs(s[1..]);
      var rest := AfterLastSlash(s[1..]);
      if '/' in s[1..] {
        var owner :| s[1..] == owner + "/" + rest;
        assert s == ([s[0]] + owner) + "/" + rest;
      } else if s[0] == '/' {
        assert s == "" + "/" + s[1..];
      }
    }
  }

  lemma {:induction false} CleanedIs(s: string)
    ensures |Cleaned(s)| == |s|
    ensures forall k :: 0 <= k < |s| ==> Cleaned(s)[k] == (if AliasChar(s[k]) then s[k] else '-')
  {
    if s != "" { CleanedIs(s[1..]); }
  }

  lemma {:induction false} TrimmedIs(s: string) returns (n: nat)
    ensures n <= |s| && TrimSeparators(s) == s[n..]
    ensures forall k :: 0 <= k < n ==> s[k] in "._-"
    ensures n < |s| ==> s[n] !in "._-"
  {
    n := 0;
    if s != "" && s[0] in "._-" {
      var m := TrimmedIs(s[1..]);
      n := m + 1;
    }
  }

  /** The base is the repository's own name: what leads up to the first letter or digit goes, other characters an alias cannot
      have become dashes, and 128 characters are kept; without a letter or digit it is `codespace`. */
  lemma BaseIsName(repository: string) returns (n: nat)
    ensures var name := AfterLastSlash(repository);
            && n <= |name| && (forall k :: 0 <= k < n ==> !AlphaNumeric(name[k])) && (n < |name| ==> AlphaNumeric(name[n]))
            && var base := Base(repository);
               if n == |name| then base == "codespace"
               else |base| == (if |name| - n > 128 then 128 else |name| - n)
                    && forall k :: 0 <= k < |base| ==> base[k] == if AliasChar(name[n + k]) then name[n + k] else '-'
  {
    var name := AfterLastSlash(repository);
    CleanedIs(name);
    n := TrimmedIs(Cleaned(name));
  }

  /** A name that is a valid alias is taken as it is. */
  lemma ValidNameIsBase(repository: string)
    requires ValidAlias(AfterLastSlash(repository))
    ensures Base(repository) == AfterLastSlash(repository)
  {
    var n := BaseIsName(repository);
    assert AlphaNumeric(AfterLastSlash(repository)[0]);
  }

  /** What a decimal numeral stands for. */
  function ValueOf(digits: string): nat
    requires forall k :: 0 <= k < |digits| ==> Digit(digits[k])
  {
    if digits == "" then 0 else
      assert Digit(digits[|digits| - 1]);
      10 * ValueOf(digits[..|digits| - 1]) + (digits[|digits| - 1] as int - '0' as int)
  }

  /** A number's numeral stands for it and has no zero in front. */
  lemma {:induction false} DecimalMeans(n: nat)
    ensures (forall k :: 0 <= k < |Decimal(n)| ==> Digit(Decimal(n)[k])) && ValueOf(Decimal(n)) == n
    ensures n > 0 ==> Decimal(n)[0] != '0'
    decreases n
  {
    DecimalDigits(n);
    LastDigit(n);
    DigitValue(n % 10);
    if n >= 10 {
      DecimalDigits(n / 10);
      DecimalMeans(n / 10);
    }
  }

  lemma DigitValue(d: nat)
    requires d < 10
    ensures "0123456789"[d] as int == '0' as int + d
  {
  }
}
