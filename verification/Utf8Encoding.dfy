/** Validity against the encoding itself, as in section 3 of RFC 3629. */
module Utf8Encoding {
  import opened Utf8

  /** A scalar value: a code point that is no surrogate. */
  predicate Scalar(cp: nat) { cp < 0xD800 || 0xE000 <= cp < 0x11_0000 }

  function Tail(bits: nat): char { (0x80 + bits % 64) as char }

  function Encode(cp: nat): (s: string)
    requires Scalar(cp)
    ensures s != ""
  {
    if cp < 0x80 then [cp as char]
    else if cp < 0x800 then [(0xC0 + cp / 64) as char, Tail(cp)]
    else if cp < 0x1_0000 then [(0xE0 + cp / 4096) as char, Tail(cp / 64), Tail(cp)]
    else [(0xF0 + cp / 262144) as char, Tail(cp / 4096), Tail(cp / 64), Tail(cp)]
  }

  function EncodeAll(cps: seq<nat>): string
    requires forall k :: 0 <= k < |cps| ==> Scalar(cps[k])
  {
    if cps == [] then "" else Encode(cps[0]) + EncodeAll(cps[1..])
  }

  lemma EncodedIsRune(cp: nat)
    requires Scalar(cp)
    ensures RuneAt(Encode(cp)) && Width(Encode(cp)[0]) == |Encode(cp)|
  {
  }

  /** A sequence is the encoding of the scalar value its bits spell. */
  lemma RuneIsEncoded(s: string) returns (cp: nat)
    requires RuneAt(s)
    ensures Scalar(cp) && s[..Width(s[0])] == Encode(cp)
  {
    if Width(s[0]) == 1 {
      cp := Byte(s[0]);
    } else if Width(s[0]) == 2 {
      cp := (Byte(s[0]) - 0xC0) * 64 + (Byte(s[1]) - 0x80);
    } else if Width(s[0]) == 3 {
      cp := ThreeBytes(s[0], s[1], s[2]);
    } else {
      cp := FourBytes(s[0], s[1], s[2], s[3]);
    }
  }

  lemma ThreeBytes(a: char, b: char, c: char) returns (cp: nat)
    requires Width(a) == 3 && SecondFits(a, b) && Continues(c)
    ensures Scalar(cp) && [a, b, c] == Encode(cp)
  {
    var x, y, z := Byte(a) - 0xE0, Byte(b) - 0x80, Byte(c) - 0x80;
    cp := x * 4096 + y * 64 + z;
    Divides(x, y, z);
  }

  lemma FourBytes(a: char, b: char, c: char, d: char) returns (cp: nat)
    requires Width(a) == 4 && SecondFits(a, b) && Continues(c) && Continues(d)
    ensures Scalar(cp) && [a, b, c, d] == Encode(cp)
  {
    var w, x, y, z := Byte(a) - 0xF0, Byte(b) - 0x80, Byte(c) - 0x80, Byte(d) - 0x80;
    cp := w * 262144 + x * 4096 + y * 64 + z;
    Divides(w * 64 + x, y, z);
    assert cp / 262144 == w && (w * 64 + x) % 64 == x;
  }

  lemma Divides(x: nat, y: nat, z: nat)
    requires y < 64 && z < 64
    ensures var n := x * 4096 + y * 64 + z; n / 4096 == x && n / 64 == x * 64 + y && n / 64 % 64 == y && n % 64 == z
  {
  }

  /** Valid text is a sequence of encoded scalar values. */
  lemma {:induction false} ValidIsEncoded(s: string) returns (cps: seq<nat>)
    requires Valid(s)
    ensures (forall k :: 0 <= k < |cps| ==> Scalar(cps[k])) && s == EncodeAll(cps)
    decreases |s|
  {
    hide Encode, SecondFits, Continues;
    if s == "" {
      cps := [];
    } else {
      var w := Width(s[0]);
      var cp := RuneIsEncoded(s);
      var rest := ValidIsEncoded(s[w..]);
      cps := [cp] + rest;
      assert s == s[..w] + s[w..];
    }
  }

  /** And every such sequence is valid text. */
  lemma {:induction false} EncodedIsValid(cps: seq<nat>)
    requires forall k :: 0 <= k < |cps| ==> Scalar(cps[k])
    ensures Valid(EncodeAll(cps))
  {
    hide Encode;
    if cps != [] {
      var first := Encode(cps[0]);
      EncodedIsRune(cps[0]);
      EncodedIsValid(cps[1..]);
      assert first[|first|..] == "";
      ValidConcat(first, EncodeAll(cps[1..]));
    }
  }

  lemma FullStays(s: string, more: string)
    requires FullRune(s) && RuneAt(s + more)
    ensures RuneAt(s)
  {
    var all := s + more;
    assert all[0] == s[0] && (|s| > 1 ==> all[1] == s[1]) && (|s| > 2 ==> all[2] == s[2]) && (|s| > 3 ==> all[3] == s[3]);
  }

  lemma Completed(s: string) returns (more: string)
    requires s != "" && !FullRune(s)
    ensures RuneAt(s + more)
  {
    var tail := 0x80 as char;
    if |s| == 1 {
      var second := if Byte(s[0]) == 0xE0 then 0xA0 as char else if Byte(s[0]) == 0xF0 then 0x90 as char else tail;
      more := [second, tail, tail];
      assert s + more == [s[0], second, tail, tail];
    } else if |s| == 2 {
      more := [tail, tail];
      assert s + more == [s[0], s[1], tail, tail];
    } else {
      more := [tail];
      assert s + more == [s[0], s[1], s[2], tail];
    }
  }

  /** The bytes at hand decide exactly if they hold a sequence or nothing that follows can make them one. */
  lemma FullRuneMeans(s: string)
    ensures FullRune(s) <==> s != "" && (RuneAt(s) || forall more :: !RuneAt(s + more))
  {
    if FullRune(s) {
      forall more | RuneAt(s + more)
        ensures RuneAt(s)
      {
        FullStays(s, more);
      }
    } else if s != "" {
      var more := Completed(s);
    }
  }
}
