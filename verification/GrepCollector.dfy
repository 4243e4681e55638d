/** The bounded collector of search output. */
module GrepCollector {
  import opened Options
  import opened Utf8

  /** Zero or less means no bound. */
  datatype Limits = Limits(units: int, bytes: int)

  datatype Collected = Collected(units: nat, out: string, truncated: bool)

  /** What adding a line makes of the output, and whether it is the end. */
  datatype Added = Added(state: Collected, stop: bool)

  function Add(l: Limits, s: Collected, line: string): Added {
    if (l.units > 0 && s.units >= l.units) || (l.bytes > 0 && |s.out| >= l.bytes) then Added(s.(truncated := true), true)
    else if l.bytes > 0 && |s.out| + |line| + 1 > l.bytes then
      var whole := s.out + line[..l.bytes - |s.out|];
      Added(s.(out := whole[..Cut(whole, |whole|)], truncated := true), true)
    else Added(s.(out := s.out + line + "\n", units := s.units + 1), false)
  }

  /** Adding lines one after the other, as long as they are taken. */
  function Feed(l: Limits, s: Collected, lines: seq<string>): Added
    decreases |lines|
  {
    if lines == [] then Added(s, false) else
      var first := Add(l, s, lines[0]);
      if first.stop then first else Feed(l, first.state, lines[1..])
  }

  lemma {:induction false} FeedConcat(l: Limits, s: Collected, xs: seq<string>, ys: seq<string>)
    ensures Feed(l, s, xs + ys) == if Feed(l, s, xs).stop then Feed(l, s, xs) else Feed(l, Feed(l, s, xs).state, ys)
    decreases |xs|
  {
    hide Add;
    if xs == [] {
      assert xs + ys == ys;
    } else {
      assert (xs + ys)[1..] == xs[1..] + ys;
      if !Add(l, s, xs[0]).stop { FeedConcat(l, Add(l, s, xs[0]).state, xs[1..], ys); }
    }
  }

  /** `daemonGrepOutputCollector`. */
  class Collector {
    const limits: Limits
    var units: nat
    var out: string
    var truncated: bool

    constructor (limits: Limits)
      ensures this.limits == limits && View() == Collected(0, "", false)
    {
      this.limits := limits;
      units, out, truncated := 0, "", false;
    }

    function View(): Collected
      reads this
    {
      Collected(units, out, truncated)
    }

    /** `daemonTrimBuilderToValidUTF8`. */
    method TrimToValid()
      modifies this`out
      ensures out == old(out)[..Cut(old(out), |old(out)|)]
    {
      var n := |out|;
      while n > 0 && !Valid(out[..n])
        invariant 0 <= n <= |out| && Cut(out, |out|) == Cut(out, n)
      {
        n := n - 1;
      }
      out := out[..n];
    }

    /** `addLine`. */
    method AddLine(line: string) returns (stop: bool)
      modifies this
      ensures Added(View(), stop) == Add(limits, old(View()), line)
    {
      if (limits.units > 0 && units >= limits.units) || (limits.bytes > 0 && |out| >= limits.bytes) {
        truncated := true;
        return true;
      }
      if limits.bytes > 0 && |out| + |line| + 1 > limits.bytes {
        var remaining := limits.bytes - |out|;
        out := out + line[..remaining]; // 0 < remaining <= |line|, by the tests above
        TrimToValid();
        truncated := true;
        return true;
      }
      out := out + line + "\n";
      units := units + 1;
      stop := false;
    }
  }

  /** Lines as text. */
  function Whole(lines: seq<string>): string {
    if lines == [] then "" else lines[0] + "\n" + Whole(lines[1..])
  }

  lemma NewlineValid(s: string, line: string)
    requires Valid(s) && Valid(line)
    ensures Valid(s + line + "\n")
  {
    ValidConcat(s, line);
    assert Valid("\n") by { assert "\n"[1..] == ""; }
    ValidConcat(s + line, "\n");
  }

  /** On valid lines the output is a prefix of all lines' text, on a sequence boundary and within the byte limit;
      it is marked truncated exactly when it is a proper prefix. */
  lemma {:induction false} FeedIsPrefix(l: Limits, s: Collected, lines: seq<string>)
    requires Valid(s.out) && !s.truncated && (forall k :: 0 <= k < |lines| ==> Valid(lines[k])) && (l.bytes > 0 ==> |s.out| <= l.bytes)
    ensures var full := s.out + Whole(lines);
            var r := Feed(l, s, lines);
            && |r.state.out| <= |full| && r.state.out == full[..|r.state.out|] && Valid(r.state.out)
            && (l.bytes > 0 ==> |r.state.out| <= l.bytes)
            && (r.state.truncated <==> r.state.out != full) && (r.stop <==> r.state.truncated)
    decreases |lines|
  {
    hide Valid, Cut, Add;
    var full := s.out + Whole(lines);
    if lines == [] {
      assert full == s.out;
    } else {
      AddIsPrefix(l, s, lines[0], Whole(lines[1..]));
      assert full == s.out + (lines[0] + "\n" + Whole(lines[1..]));
      var first := Add(l, s, lines[0]);
      if !first.stop {
        FeedIsPrefix(l, first.state, lines[1..]);
        assert first.state.out + Whole(lines[1..]) == full;
      }
    }
  }

  lemma AddIsPrefix(l: Limits, s: Collected, line: string, rest: string)
    requires Valid(s.out) && !s.truncated && Valid(line) && (l.bytes > 0 ==> |s.out| <= l.bytes)
    ensures var full := s.out + (line + "\n" + rest);
            var r := Add(l, s, line);
            && Valid(r.state.out) && (l.bytes > 0 ==> |r.state.out| <= l.bytes) && (r.stop <==> r.state.truncated)
            && (!r.stop ==> r.state.out == s.out + line + "\n")
            && (r.stop ==> |r.state.out| < |full| && r.state.out == full[..|r.state.out|])
  {
    hide Valid, Cut;
    NewlineValid(s.out, line);
    var full := s.out + (line + "\n" + rest);
    var r := Add(l, s, line);
    if r.stop && r.state.out != s.out {
      var whole := s.out + line[..l.bytes - |s.out|];
      CutIsValid(whole, |whole|);
      assert whole == full[..|whole|];
    }
  }

  /** When the output stops short, it has the lines it may have, or no longer valid prefix fits the byte limit. */
  lemma {:induction false} NothingLongerKept(l: Limits, s: Collected, lines: seq<string>)
    requires l.bytes > 0 ==> |s.out| <= l.bytes
    ensures var full := s.out + Whole(lines);
            var r := Feed(l, s, lines);
            r.stop ==>
              || (l.units > 0 && r.state.units >= l.units)
              || (l.bytes > 0 && forall q :: |r.state.out| < q <= l.bytes && q <= |full| ==> !Valid(full[..q]))
    decreases |lines|
  {
    hide Valid, Cut;
    if lines != [] {
      var full := s.out + Whole(lines);
      assert full == s.out + (lines[0] + "\n" + Whole(lines[1..]));
      var first := Add(l, s, lines[0]);
      if !first.stop {
        assert first.state.out + Whole(lines[1..]) == full;
        NothingLongerKept(l, first.state, lines[1..]);
      } else if l.bytes > 0 && |s.out| < l.bytes && !(l.units > 0 && s.units >= l.units) {
        var whole := s.out + lines[0][..l.bytes - |s.out|];
        CutIsValid(whole, |whole|);
        forall q | |first.state.out| < q <= l.bytes && q <= |full|
          ensures !Valid(full[..q])
        {
          assert full[..q] == whole[..q];
        }
      }
    }
  }

  /** The lines that are counted are kept whole, as many as may be; it stops at the first line for which a limit is reached. */
  lemma {:induction false} FeedTakes(l: Limits, s: Collected, lines: seq<string>)
    requires l.units > 0 ==> s.units <= l.units
    ensures var r := Feed(l, s, lines);
            var k := r.state.units - s.units;
            && 0 <= k <= |lines| && (l.units > 0 ==> r.state.units <= l.units) && (r.stop <==> k < |lines|)
            && (!r.stop ==> r.state.out == s.out + Whole(lines))
            && (r.stop ==> || (l.bytes > 0 && |s.out + Whole(lines[..k + 1])| > l.bytes)
                           || (l.units > 0 && r.state.units == l.units && r.state.out == s.out + Whole(lines[..k])))
    decreases |lines|
  {
    hide Cut;
    if lines != [] {
      WholeNext(lines, 0);
      var first := Add(l, s, lines[0]);
      if !first.stop {
        FeedTakes(l, first.state, lines[1..]);
        var k := Feed(l, s, lines).state.units - first.state.units;
        Regrouped(s.out, lines, k);
        Regrouped(s.out, lines, if k < |lines| - 1 then k + 1 else k);
      }
    }
  }

  lemma WholeNext(lines: seq<string>, k: nat)
    requires k < |lines|
    ensures Whole(lines[..k + 1]) == lines[0] + "\n" + Whole(lines[1..][..k]) && Whole(lines[..0]) == ""
  {
    assert lines[..k + 1][1..] == lines[1..][..k];
  }

  lemma Regrouped(before: string, lines: seq<string>, k: nat)
    requires k < |lines|
    ensures before + Whole(lines[..k + 1]) == before + lines[0] + "\n" + Whole(lines[1..][..k])
    ensures before + Whole(lines) == before + lines[0] + "\n" + Whole(lines[1..])
  {
    WholeNext(lines, k);
    WholeNext(lines, |lines| - 1);
    assert lines[..|lines| - 1 + 1] == lines && lines[1..][..|lines| - 1] == lines[1..];
    hide *;
    Associates(before, lines[0], "\n", Whole(lines[1..][..k]));
    Associates(before, lines[0], "\n", Whole(lines[1..]));
  }

  lemma Associates(a: string, b: string, c: string, d: string)
    ensures a + (b + c + d) == a + b + c + d
  {
  }
}
