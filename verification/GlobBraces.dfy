/** Brace alternatives in a glob pattern, and the whole pattern match. */
module GlobBraces {
  import opened Options
  import opened Text
  import opened Glob

  /** The first `{` at or after `i`. */
  function OpenFrom(s: string, i: nat): (r: Option<nat>)
    requires i <= |s|
    ensures r.Some? ==> i <= r.value < |s| && s[r.value] == '{'
    decreases |s| - i
  {
    if i == |s| then None else if s[i] == '{' then Some(i) else OpenFrom(s, i + 1)
  }

  /** Where the depth first comes back to zero. */
  function CloseFrom(s: string, i: nat, depth: int): (r: Option<nat>)
    requires i <= |s|
    ensures r.Some? ==> i <= r.value < |s| && (s[i] == '{' ==> i < r.value)
    decreases |s| - i
  {
    if i == |s| then None
    else if s[i] == '{' then CloseFrom(s, i + 1, depth + 1)
    else if s[i] == '}' then if depth == 1 then Some(i) else CloseFrom(s, i + 1, depth - 1)
    else CloseFrom(s, i + 1, depth)
  }

  /** The parts between top-level commas. */
  function SplitTop(s: string, depth: int): (r: seq<string>)
    ensures |r| >= 1
  {
    if s == "" then [""] else
      var rest := SplitTop(s[1..], if s[0] == '{' then depth + 1 else if s[0] == '}' then depth - 1 else depth);
      if s[0] == ',' && depth == 0 then [""] + rest else [[s[0]] + rest[0]] + rest[1..]
  }

  function Prefixed(prefix: string, all: seq<string>): seq<string> {
    if all == [] then [] else [prefix + all[0]] + Prefixed(prefix, all[1..])
  }

  /** Every part with every suffix behind it. */
  function Combine(prefix: string, parts: seq<string>, suffixes: seq<string>): seq<string> {
    if parts == [] then [] else Prefixed(prefix + parts[0], suffixes) + Combine(prefix, parts[1..], suffixes)
  }

  function Expand(pattern: string): seq<string>
    decreases |pattern|
  {
    var start := OpenFrom(pattern, 0);
    if start.None? then [pattern] else
      var end := CloseFrom(pattern, start.value, 0);
      if end.None? then [pattern] else
        Combine(pattern[..start.value], SplitTop(pattern[start.value + 1..end.value], 0),
                Expand(pattern[end.value + 1..]))
  }

  /** A pattern in pieces: plain text, and groups of alternatives. */
  datatype Piece = Literal(text: string) | Choice(options: seq<string>)

  /** Braces are balanced from depth `d` on; outside them there is no comma, unless `commas`. */
  predicate Level(s: string, d: nat, commas: bool) {
    if s == "" then d == 0
    else if s[0] == '{' then Level(s[1..], d + 1, commas)
    else if s[0] == '}' then d > 0 && Level(s[1..], d - 1, commas)
    else (s[0] != ',' || d > 0 || commas) && Level(s[1..], d, commas)
  }

  /** Text opens no brace; an alternative may hold balanced braces, which stay as they are. */
  predicate Balanced(piece: Piece) {
    match piece
    case Literal(text) => '{' !in text
    case Choice(options) => options != [] && forall k :: 0 <= k < |options| ==> Level(options[k], 0, false)
  }

  function Render(pieces: seq<Piece>): string {
    if pieces == [] then "" else
      (match pieces[0] case Literal(text) => text case Choice(options) => "{" + Join(options, ",") + "}") + Render(pieces[1..])
  }

  function Flatten(picks: seq<string>): string {
    if picks == [] then "" else picks[0] + Flatten(picks[1..])
  }

  /** One alternative picked per group. */
  predicate Picks(pieces: seq<Piece>, picks: seq<string>) {
    |picks| == |pieces| && forall i :: 0 <= i < |pieces| ==>
      match pieces[i] case Literal(text) => picks[i] == text case Choice(options) => picks[i] in options
  }

  function Choices(pieces: seq<Piece>): seq<string> {
    if pieces == [] then [""] else
      match pieces[0]
      case Literal(text) => Prefixed(text, Choices(pieces[1..]))
      case Choice(options) => Combine("", options, Choices(pieces[1..]))
  }

  /** `daemonSplitBraceAlternatives`. */
  method SplitBraceAlternatives(value: string) returns (parts: seq<string>)
    ensures parts == SplitTop(value, 0)
  {
    hide SplitTop, Parting;
    parts := [];
    var depth := 0;
    var start := 0;
    PartingStarts(value);
    for i := 0 to |value|
      invariant 0 <= start <= i
      invariant Parting(SplitTop(value, 0), parts, value[start..i], SplitTop(value[i..], depth))
    {
      assert value[i..][0] == value[i] && value[i..][1..] == value[i + 1..];
      assert value[start..i] + [value[i]] == value[start..i + 1];
      SplitTopStep(value[i..], depth);
      if value[i] == '{' {
        depth := depth + 1;
      } else if value[i] == '}' {
        depth := depth - 1;
      } else if value[i] == ',' && depth == 0 {
        PartEnds(SplitTop(value, 0), parts, value[start..i], SplitTop(value[i + 1..], 0));
        parts := parts + [value[start..i]];
        start := i + 1;
        assert value[start..i + 1] == "";
        continue;
      }
      PartGrows(SplitTop(value, 0), parts, value[start..i], value[i], SplitTop(value[i + 1..], depth));
    }
    assert value[|value|..] == "" && value[start..|value|] == value[start..];
    PartingEnds(SplitTop(value, 0), parts, value[start..], depth);
    parts := parts + [value[start..]];
  }

  lemma PartingStarts(value: string)
    ensures Parting(SplitTop(value, 0), [], value[0..0], SplitTop(value[0..], 0))
  {
    assert value[0..] == value;
  }

  lemma SplitTopStep(s: string, depth: int)
    requires s != ""
    ensures var rest := SplitTop(s[1..], if s[0] == '{' then depth + 1 else if s[0] == '}' then depth - 1 else depth);
            SplitTop(s, depth) == if s[0] == ',' && depth == 0 then [""] + rest else [[s[0]] + rest[0]] + rest[1..]
  {
  }

  lemma PartGrows(whole: seq<string>, parts: seq<string>, current: string, c: char, next: seq<string>)
    requires |next| >= 1 && Parting(whole, parts, current, [[c] + next[0]] + next[1..])
    ensures Parting(whole, parts, current + [c], next)
  {
    assert current + ([c] + next[0]) == current + [c] + next[0];
  }

  lemma PartingEnds(whole: seq<string>, parts: seq<string>, current: string, depth: int)
    requires Parting(whole, parts, current, SplitTop("", depth))
    ensures whole == parts + [current]
  {
    assert whole == whole[..|parts|] + [whole[|parts|]] + whole[|parts| + 1..];
    assert current + "" == current;
  }

  /** The finished parts, the one being read, and what splitting the rest gives. */
  ghost predicate Parting(whole: seq<string>, parts: seq<string>, current: string, rest: seq<string>) {
    && |rest| >= 1 && |whole| == |parts| + |rest|
    && whole[..|parts|] == parts && whole[|parts|] == current + rest[0] && whole[|parts| + 1..] == rest[1..]
  }

  lemma PartEnds(whole: seq<string>, parts: seq<string>, current: string, next: seq<string>)
    requires |next| >= 1 && Parting(whole, parts, current, [""] + next)
    ensures Parting(whole, parts + [current], "", next)
  {
    assert current + ([""] + next)[0] == current;
    assert whole[..|parts| + 1] == parts + [current];
    assert whole[|parts| + 1..] == next;
    assert whole[|parts| + 1] == whole[|parts| + 1..][0] == "" + next[0];
    assert whole[|parts| + 1 + 1..] == whole[|parts| + 1..][1..];
  }

  method FindClose(pattern: string, start: nat) returns (end: Option<nat>)
    requires start < |pattern|
    ensures end == CloseFrom(pattern, start, 0)
  {
    var depth := 0;
    for i := start to |pattern|
      invariant CloseFrom(pattern, start, 0) == CloseFrom(pattern, i, depth)
    {
      if pattern[i] == '{' {
        depth := depth + 1;
      } else if pattern[i] == '}' {
        depth := depth - 1;
        if depth == 0 { return Some(i); }
      }
    }
    end := None;
  }

  lemma {:induction false} CombineNext(prefix: string, parts: seq<string>, part: string, suffixes: seq<string>)
    ensures Combine(prefix, parts + [part], suffixes) == Combine(prefix, parts, suffixes) + Prefixed(prefix + part, suffixes)
  {
    if parts != [] {
      CombineNext(prefix, parts[1..], part, suffixes);
      assert (parts + [part])[1..] == parts[1..] + [part];
    }
  }

  lemma {:induction false} PrefixedNext(prefix: string, all: seq<string>, last: string)
    ensures Prefixed(prefix, all + [last]) == Prefixed(prefix, all) + [prefix + last]
  {
    if all != [] {
      PrefixedNext(prefix, all[1..], last);
      assert (all + [last])[1..] == all[1..] + [last];
    }
  }

  /** `daemonExpandBraces`. */
  method ExpandBraces(pattern: string) returns (results: seq<string>)
    ensures results == Expand(pattern)
    decreases |pattern|
  {
    hide SplitTop, Combine, Prefixed, CloseFrom;
    var start := OpenFrom(pattern, 0);
    if start.None? { return [pattern]; }
    var end := FindClose(pattern, start.value);
    if end.None? { return [pattern]; }
    var prefix, suffix := pattern[..start.value], pattern[end.value + 1..];
    var parts := SplitBraceAlternatives(pattern[start.value + 1..end.value]);
    results := [];
    NothingCombined(prefix, Expand(suffix));
    for k := 0 to |parts|
      invariant results == Combine(prefix, parts[..k], Expand(suffix))
    {
      assert parts[..k + 1] == parts[..k] + [parts[k]];
      CombineNext(prefix, parts[..k], parts[k], Expand(suffix));
      var expanded := ExpandBraces(suffix);
      ghost var before := results;
      for j := 0 to |expanded|
        invariant results == before + Prefixed(prefix + parts[k], expanded[..j])
      {
        assert expanded[..j + 1] == expanded[..j] + [expanded[j]];
        PrefixedNext(prefix + parts[k], expanded[..j], expanded[j]);
        results := results + [prefix + parts[k] + expanded[j]];
      }
      assert expanded[..|expanded|] == expanded;
    }
    assert parts[..|parts|] == parts;
  }

  lemma NothingCombined(prefix: string, suffixes: seq<string>)
    ensures Combine(prefix, [], suffixes) == [] && forall p :: Prefixed(p, []) == []
  {
  }

  lemma {:induction false} OpenPast(lit: string, rest: string, i: nat)
    requires '{' !in lit && i <= |lit|
    ensures OpenFrom(lit + rest, i) == match OpenFrom(rest, 0) case None => None case Some(k) => Some(|lit| + k)
    decreases |lit| - i
  {
    if i < |lit| {
      assert (lit + rest)[i] == lit[i];
      OpenPast(lit, rest, i + 1);
    } else {
      OpenShift(lit, rest, 0);
    }
  }

  lemma {:induction false} OpenShift(lit: string, rest: string, i: nat)
    requires i <= |rest|
    ensures OpenFrom(lit + rest, |lit| + i) == match OpenFrom(rest, i) case None => None case Some(k) => Some(|lit| + k)
    decreases |rest| - i
  {
    if i < |rest| { OpenShift(lit, rest, i + 1); }
  }

  lemma {:induction false} CloseShift(lit: string, rest: string, i: nat, depth: int)
    requires i <= |rest|
    ensures CloseFrom(lit + rest, |lit| + i, depth) == match CloseFrom(rest, i, depth) case None => None case Some(k) => Some(|lit| + k)
    decreases |rest| - i
  {
    if i < |rest| {
      CloseShift(lit, rest, i + 1, if rest[i] == '{' then depth + 1 else if rest[i] == '}' then depth - 1 else depth);
    }
  }

  lemma {:induction false} CombinePrefixed(lit: string, prefix: string, parts: seq<string>, suffixes: seq<string>)
    ensures Combine(lit + prefix, parts, suffixes) == Prefixed(lit, Combine(prefix, parts, suffixes))
  {
    if parts != [] {
      CombinePrefixed(lit, prefix, parts[1..], suffixes);
      PrefixedTwice(lit, prefix + parts[0], suffixes);
      PrefixedJoin(lit, Prefixed(prefix + parts[0], suffixes), Combine(prefix, parts[1..], suffixes));
      assert lit + prefix + parts[0] == lit + (prefix + parts[0]);
    }
  }

  lemma {:induction false} PrefixedTwice(a: string, b: string, all: seq<string>)
    ensures Prefixed(a + b, all) == Prefixed(a, Prefixed(b, all))
  {
    if all != [] {
      PrefixedTwice(a, b, all[1..]);
      assert a + b + all[0] == a + (b + all[0]);
    }
  }

  lemma {:induction false} PrefixedJoin(lit: string, xs: seq<string>, ys: seq<string>)
    ensures Prefixed(lit, xs + ys) == Prefixed(lit, xs) + Prefixed(lit, ys)
  {
    if xs == [] {
      assert xs + ys == ys;
    } else {
      PrefixedJoin(lit, xs[1..], ys);
      PrefixedFirst(lit, xs);
      PrefixedFirst(lit, xs + ys);
      assert (xs + ys)[1..] == xs[1..] + ys;
      hide Prefixed;
      assert [lit + xs[0]] + (Prefixed(lit, xs[1..]) + Prefixed(lit, ys)) == [lit + xs[0]] + Prefixed(lit, xs[1..]) + Prefixed(lit, ys);
    }
  }

  lemma PrefixedFirst(lit: string, all: seq<string>)
    requires all != []
    ensures Prefixed(lit, all) == [lit + all[0]] + Prefixed(lit, all[1..])
  {
  }

  lemma ExpandAt(s: string, start: nat, end: nat)
    requires OpenFrom(s, 0) == Some(start) && CloseFrom(s, start, 0) == Some(end)
    ensures start < end && Expand(s) == Combine(s[..start], SplitTop(s[start + 1..end], 0), Expand(s[end + 1..]))
  {
    hide SplitTop, Combine, OpenFrom, CloseFrom;
  }

  lemma ExpandNone(s: string)
    requires OpenFrom(s, 0).None? || CloseFrom(s, OpenFrom(s, 0).value, 0).None?
    ensures Expand(s) == [s]
  {
    hide OpenFrom, CloseFrom;
  }

  /** Plain text in front of a pattern stands in front of each of its expansions. */
  lemma ExpandPrefix(lit: string, rest: string)
    requires '{' !in lit
    ensures Expand(lit + rest) == Prefixed(lit, Expand(rest))
  {
    hide SplitTop, Combine, CloseFrom, OpenFrom, Expand, Prefixed;
    OpenPast(lit, rest, 0);
    PrefixedOne(lit, rest);
    var open := OpenFrom(rest, 0);
    if open.None? {
      ExpandNone(rest);
      ExpandNone(lit + rest);
    } else {
      CloseShift(lit, rest, open.value, 0);
      var end := CloseFrom(rest, open.value, 0);
      if end.None? {
        ExpandNone(rest);
        ExpandNone(lit + rest);
      } else {
        var s := lit + rest;
        ExpandAt(rest, open.value, end.value);
        ExpandAt(s, |lit| + open.value, |lit| + end.value);
        assert s[..|lit| + open.value] == lit + rest[..open.value];
        assert s[|lit| + open.value + 1..|lit| + end.value] == rest[open.value + 1..end.value];
        assert s[|lit| + end.value + 1..] == rest[end.value + 1..];
        CombinePrefixed(lit, rest[..open.value], SplitTop(rest[open.value + 1..end.value], 0), Expand(rest[end.value + 1..]));
      }
    }
  }

  lemma PrefixedOne(lit: string, s: string)
    ensures Prefixed(lit, [s]) == [lit + s]
  {
  }

  lemma {:induction false} CloseOfBalanced(body: string, rest: string, i: nat, d: nat)
    requires i <= |body| && Level(body[i..], d, true)
    ensures CloseFrom("{" + body + "}" + rest, 1 + i, 1 + d) == Some(1 + |body|)
    decreases |body| - i
  {
    var s := "{" + body + "}" + rest;
    if i < |body| {
      assert s[1 + i] == body[i] == body[i..][0] && body[i..][1..] == body[i + 1..];
      CloseOfBalanced(body, rest, i + 1, if body[i] == '{' then d + 1 else if body[i] == '}' then d - 1 else d);
    } else {
      assert s[1 + i] == '}';
    }
  }

  /** An alternative is one part, with or without others behind it. */
  lemma {:induction false} SplitTopFirst(option: string, d: nat, rest: string)
    requires Level(option, d, false)
    ensures SplitTop(option, d) == [option] && SplitTop(option + "," + rest, d) == [option] + SplitTop(rest, 0)
    ensures Level(option + "," + rest, d, true) <==> Level(rest, 0, true)
    ensures Level(option, d, true)
    decreases |option|
  {
    var all := option + "," + rest;
    if option == "" {
      assert all[0] == ',' && all[1..] == rest;
    } else {
      assert all[0] == option[0] && all[1..] == option[1..] + "," + rest;
      SplitTopFirst(option[1..], if option[0] == '{' then d + 1 else if option[0] == '}' then d - 1 else d, rest);
      assert [option[0]] + option[1..] == option;
    }
  }

  lemma {:induction false} SplitTopJoined(options: seq<string>)
    requires options != [] && forall k :: 0 <= k < |options| ==> Level(options[k], 0, false)
    ensures SplitTop(Join(options, ","), 0) == options && Level(Join(options, ","), 0, true)
    decreases |options|
  {
    hide Level, SplitTop;
    if |options| == 1 {
      SplitTopFirst(options[0], 0, "");
      assert Join(options, ",") == options[0];
    } else {
      var rest := Join(options[1..], ",");
      SplitTopJoined(options[1..]);
      SplitTopFirst(options[0], 0, rest);
      assert Join(options, ",") == options[0] + "," + rest;
    }
  }

  /** A group at the front: every alternative with every expansion of the rest. */
  lemma ExpandChoice(options: seq<string>, rest: string)
    requires Balanced(Choice(options))
    ensures Expand("{" + Join(options, ",") + "}" + rest) == Combine("", options, Expand(rest))
  {
    hide SplitTop, Combine, Join, Level, Expand, CloseFrom, OpenFrom;
    var body := Join(options, ",");
    SplitTopJoined(options);
    OpenAtFront(body, rest);
    ExpandAt("{" + body + "}" + rest, 0, 1 + |body|);
    GroupSlices(body, rest);
  }

  lemma OpenAtFront(body: string, rest: string)
    requires Level(body, 0, true)
    ensures var s := "{" + body + "}" + rest; OpenFrom(s, 0) == Some(0) && CloseFrom(s, 0, 0) == Some(1 + |body|)
  {
    hide Level;
    var s := "{" + body + "}" + rest;
    assert s[0] == '{' && body[0..] == body;
    CloseOfBalanced(body, rest, 0, 0);
  }

  lemma GroupSlices(body: string, rest: string)
    ensures var s := "{" + body + "}" + rest;
            s[..0] == "" && s[0 + 1..1 + |body|] == body && s[1 + |body| + 1..] == rest
  {
  }

  /** Expanding a pattern whose braces are balanced gives every choice of one alternative per outermost group, in order; the
      braces inside an alternative stay in the result. */
  lemma {:induction false} ExpandIsChoices(pieces: seq<Piece>)
    requires forall i :: 0 <= i < |pieces| ==> Balanced(pieces[i])
    ensures Expand(Render(pieces)) == Choices(pieces)
  {
    hide Expand, Combine, Prefixed, Balanced;
    if pieces == [] {
      NothingToExpand();
    } else {
      ExpandIsChoices(pieces[1..]);
      var rest := Render(pieces[1..]);
      match pieces[0]
      case Literal(text) => PlainPiece(pieces[0]); ExpandPrefix(text, rest);
      case Choice(options) => ExpandChoice(options, rest);
    }
  }

  lemma PlainPiece(piece: Piece)
    requires Balanced(piece)
    ensures piece.Literal? ==> '{' !in piece.text
  {
  }

  lemma NestedStaysLiteral()
    ensures Expand("{a,{b,c}}") == ["a", "{b,c}"]
  {
    hide Expand;
    var options := ["a", "{b,c}"];
    var pieces := [Choice(options)];
    assert options[1..] == ["{b,c}"] && options[1..][1..] == [] && pieces[1..] == [];
    assert Join(options, ",") == "a" + "," + "{b,c}";
    assert Render(pieces) == "{a,{b,c}}";
    BalancedExample();
    ExpandIsChoices(pieces);
    PrefixedOne("" + "a", "");
    PrefixedOne("" + "{b,c}", "");
    assert "" + "a" + "" == "a" && "" + "{b,c}" + "" == "{b,c}";
    assert Choices(pieces) == Combine("", options, [""]);
  }

  lemma BalancedExample()
    ensures Level("a", 0, false) && Level("{b,c}", 0, false)
  {
    assert "{b,c}"[1..] == "b,c}" && "b,c}"[1..] == ",c}" && ",c}"[1..] == "c}" && "c}"[1..] == "}";
    assert Level("}", 1, false) && Level("c}", 1, false) && Level(",c}", 1, false) && Level("b,c}", 1, false);
  }

  lemma NothingToExpand()
    ensures Expand("") == [""]
  {
  }

  lemma {:induction false} InPrefixed(prefix: string, all: seq<string>, e: string)
    ensures e in Prefixed(prefix, all) <==> exists k :: 0 <= k < |all| && e == prefix + all[k]
  {
    if all != [] {
      InPrefixed(prefix, all[1..], e);
      if k :| 0 <= k < |all| && e == prefix + all[k] {
        if k > 0 { assert all[1..][k - 1] == all[k]; }
      }
    }
  }

  lemma {:induction false} InCombine(parts: seq<string>, suffixes: seq<string>, e: string)
    ensures e in Combine("", parts, suffixes) <==>
              exists p, k :: 0 <= p < |parts| && 0 <= k < |suffixes| && e == parts[p] + suffixes[k]
  {
    if parts != [] {
      InCombine(parts[1..], suffixes, e);
      InPrefixed(parts[0], suffixes, e);
      assert "" + parts[0] == parts[0];
      if p, k :| 0 <= p < |parts| && 0 <= k < |suffixes| && e == parts[p] + suffixes[k] {
        if p > 0 { assert parts[1..][p - 1] == parts[p]; }
      }
    }
  }

  ghost predicate Picked(pieces: seq<Piece>, e: string) {
    exists picks :: Picks(pieces, picks) && e == Flatten(picks)
  }

  /** The choices are exactly the concatenations of one pick per piece. */
  lemma {:induction false} ChoicesArePicks(pieces: seq<Piece>, e: string)
    ensures e in Choices(pieces) <==> Picked(pieces, e)
  {
    hide Prefixed, Combine, Picks;
    if pieces == [] {
      assert Picked(pieces, "") by { NoPicks(); }
      if Picked(pieces, e) { NoPicks(); }
    } else {
      hide Picked, Choices;
      var tail := pieces[1..];
      forall r
        ensures r in Choices(tail) <==> Picked(tail, r)
      {
        ChoicesArePicks(tail, r);
      }
      match pieces[0]
      case Literal(text) => LiteralPicked(pieces, text, e);
      case Choice(options) => ChoicePicked(pieces, options, e);
    }
  }

  lemma NoPicks()
    ensures Picks([], []) && forall picks :: Picks([], picks) ==> Flatten(picks) == ""
  {
  }

  lemma LiteralPicked(pieces: seq<Piece>, text: string, e: string)
    requires pieces != [] && pieces[0] == Literal(text)
    requires forall r :: r in Choices(pieces[1..]) <==> Picked(pieces[1..], r)
    ensures e in Choices(pieces) <==> Picked(pieces, e)
  {
    hide Prefixed, Combine;
    var rest := Choices(pieces[1..]);
    InPrefixed(text, rest, e);
    if k :| 0 <= k < |rest| && e == text + rest[k] {
      assert Picked(pieces[1..], rest[k]);
      var picks :| Picks(pieces[1..], picks) && rest[k] == Flatten(picks);
      PicksCons(pieces, text, picks);
    }
    if Picked(pieces, e) {
      var picks :| Picks(pieces, picks) && e == Flatten(picks);
      PicksTail(pieces, picks);
      assert Picked(pieces[1..], Flatten(picks[1..]));
    }
  }

  lemma ChoicePicked(pieces: seq<Piece>, options: seq<string>, e: string)
    requires pieces != [] && pieces[0] == Choice(options)
    requires forall r :: r in Choices(pieces[1..]) <==> Picked(pieces[1..], r)
    ensures e in Choices(pieces) <==> Picked(pieces, e)
  {
    hide Prefixed, Combine;
    var rest := Choices(pieces[1..]);
    InCombine(options, rest, e);
    if p, k :| 0 <= p < |options| && 0 <= k < |rest| && e == options[p] + rest[k] {
      assert Picked(pieces[1..], rest[k]);
      var picks :| Picks(pieces[1..], picks) && rest[k] == Flatten(picks);
      PicksCons(pieces, options[p], picks);
    }
    if Picked(pieces, e) {
      var picks :| Picks(pieces, picks) && e == Flatten(picks);
      PicksTail(pieces, picks);
      assert Picked(pieces[1..], Flatten(picks[1..]));
    }
  }

  lemma PicksCons(pieces: seq<Piece>, first: string, rest: seq<string>)
    requires pieces != [] && Picks(pieces[1..], rest)
    requires match pieces[0] case Literal(text) => first == text case Choice(options) => first in options
    ensures Picked(pieces, first + Flatten(rest))
  {
    var picks := [first] + rest;
    assert picks[1..] == rest;
    forall i | 0 <= i < |pieces|
      ensures match pieces[i] case Literal(text) => picks[i] == text case Choice(options) => picks[i] in options
    {
      if i > 0 { assert pieces[1..][i - 1] == pieces[i]; }
    }
    assert Picks(pieces, picks) && Flatten(picks) == first + Flatten(rest);
  }

  lemma PicksTail(pieces: seq<Piece>, picks: seq<string>)
    requires pieces != [] && Picks(pieces, picks)
    ensures Picks(pieces[1..], picks[1..]) && Flatten(picks) == picks[0] + Flatten(picks[1..])
    ensures match pieces[0] case Literal(text) => picks[0] == text case Choice(options) => picks[0] in options
  {
    assert forall i :: 0 <= i < |pieces| - 1 ==> pieces[1..][i] == pieces[i + 1] && picks[1..][i] == picks[i + 1];
  }

  /** What follows the last slash, as `path.Base` gives it for a path that does not end in one. */
  function BaseName(rel: string): string {
    var parts := Split(rel, '/');
    if rel == "" then "." else parts[|parts| - 1]
  }

  /** The base name has no slash, and at most a directory and a slash stand before it. */
  lemma BaseNameIs(rel: string)
    ensures '/' !in BaseName(rel)
    ensures if rel == "" then BaseName(rel) == "." else BaseName(rel) == rel || exists dir :: rel == dir + "/" + BaseName(rel)
  {
    hide Split, Join;
    var parts := Split(rel, '/');
    SplitClean(rel, '/');
    JoinSplit(rel, '/', "/");
    SubstituteSelf(rel, '/');
    if |parts| == 1 {
      OnlyPart(parts);
    } else {
      var dir := parts[..|parts| - 1];
      assert parts == dir + [parts[|parts| - 1]];
      JoinAppend(dir, parts[|parts| - 1], "/");
      assert rel == Join(dir, "/") + "/" + BaseName(rel);
    }
  }

  lemma OnlyPart(parts: seq<string>)
    requires |parts| == 1
    ensures Join(parts, "/") == parts[0]
  {
  }

  /** One expansion matches: by its base name if it has no slash, else segment by segment. */
  ghost predicate MatchesExpansion(m: SegmentMatch, expanded: string, rel: string) {
    var e := TrimPrefix(expanded, "./");
    if '/' !in e then m(e, BaseName(rel)) else Matches(m, Split(e, '/'), 0, Split(rel, '/'), 0)
  }

  /** `daemonMatchGlobPattern`, for a path that does not end in a slash. */
  method MatchGlobPattern(m: SegmentMatch, pattern: string, path: string) returns (r: bool)
    ensures r <==> pattern == "" || exists e :: e in Expand(pattern) && MatchesExpansion(m, e, TrimPrefix(path, "./"))
  {
    hide Expand, Matches;
    if pattern == "" { return true; }
    var rel := TrimPrefix(path, "./");
    var expansions := ExpandBraces(pattern);
    for k := 0 to |expansions|
      invariant forall j :: 0 <= j < k ==> !MatchesExpansion(m, expansions[j], rel)
    {
      var e := TrimPrefix(expansions[k], "./");
      var matched;
      if '/' !in e {
        matched := m(e, BaseName(rel));
      } else {
        matched := MatchGlobSegments(m, Split(e, '/'), Split(rel, '/'));
      }
      if matched {
        assert MatchesExpansion(m, expansions[k], rel);
        return true;
      }
    }
    r := false;
  }

  /** A pattern whose braces are balanced matches exactly when some choice of one alternative per outermost group matches. */
  lemma PatternMeans(m: SegmentMatch, pieces: seq<Piece>, rel: string)
    requires forall i :: 0 <= i < |pieces| ==> Balanced(pieces[i])
    ensures (exists e :: e in Expand(Render(pieces)) && MatchesExpansion(m, e, rel)) <==>
            (exists picks :: Picks(pieces, picks) && MatchesExpansion(m, Flatten(picks), rel))
  {
    hide Expand, Choices, MatchesExpansion, Picks;
    ExpandIsChoices(pieces);
    if e :| e in Expand(Render(pieces)) && MatchesExpansion(m, e, rel) {
      ChoicesArePicks(pieces, e);
      var picks :| Picks(pieces, picks) && e == Flatten(picks);
    }
    if picks :| Picks(pieces, picks) && MatchesExpansion(m, Flatten(picks), rel) {
      assert Picked(pieces, Flatten(picks));
      ChoicesArePicks(pieces, Flatten(picks));
    }
  }
}
