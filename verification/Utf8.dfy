/**
 * UTF-8 (src/core.cpp:548-589, src/json.cpp:709-725) against section 3 of RFC 3629. A char stands for
 * a byte; masks and shifts are written as the arithmetic they perform on disjoint bit fields.
 */
module Utf8 {

  // ----- the definition of section 3 -------------------------------------------

  /** A character number: at most 0x10FFFF, not a surrogate. */
  predicate Scalar(cp: nat) { cp <= 0x10FFFF && !(0xD800 <= cp <= 0xDFFF) }

  /** The number of octets of the table's row for a character number. */
  function Octets(cp: nat): nat {
    if cp < 0x80 then 1 else if cp < 0x800 then 2 else if cp < 0x10000 then 3 else 4
  }

  /** The marks of the leading octet, by the number of octets. */
  function LeadMark(n: nat): nat { if n == 1 then 0 else if n == 2 then 0xC0 else if n == 3 then 0xE0 else 0xF0 }
  function LeadEnd(n: nat): nat { if n == 1 then 0x80 else if n == 2 then 0xE0 else if n == 3 then 0xF0 else 0xF8 }

  predicate Continuation(c: char) { 0x80 <= c as nat < 0xC0 }

  predicate Continuations(s: string) { forall i :: 0 <= i < |s| ==> Continuation(s[i]) }

  function SixBits(c: char): nat
    requires Continuation(c)
  {
    c as nat - 0x80
  }

  /** The six payload bits of each continuation octet, appended to the bits so far. */
  function Payload(bits: nat, rest: string): nat
    requires Continuations(rest)
    decreases |rest|
  {
    if rest == [] then bits else Payload(64 * bits + SixBits(rest[0]), rest[1..])
  }

  /** The octets fill in the table's row for the character number. */
  ghost predicate IsEncoding(cp: nat, s: string) {
    && Scalar(cp)
    && |s| == Octets(cp)
    && LeadMark(|s|) <= s[0] as nat < LeadEnd(|s|)
    && Continuations(s[1..])
    && Payload(s[0] as nat - LeadMark(|s|), s[1..]) == cp
  }

  /** A text is a concatenation of encodings. */
  ghost predicate Encodes(cps: seq<nat>, text: string) {
    if cps == [] then text == []
    else |text| >= Octets(cps[0]) && IsEncoding(cps[0], text[..Octets(cps[0])]) && Encodes(cps[1..], text[Octets(cps[0])..])
  }

  ghost predicate ValidUtf8(text: string) { exists cps :: Encodes(cps, text) }

  // ----- writing ------------------------------------------------------------------

  function Octet(n: nat): char
    requires n < 256
  {
    n as char
  }

  /** The octets appended for a code point. */
  function Encode(cp: nat): (r: string)
    requires cp <= 0x10FFFF
  {
    if cp < 0x80 then [Octet(cp)]
    else if cp < 0x800 then [Octet(0xC0 + cp / 64), Octet(0x80 + cp % 64)]
    else if cp < 0x10000 then [Octet(0xE0 + cp / 4096), Octet(0x80 + cp / 64 % 64), Octet(0x80 + cp % 64)]
    else [Octet(0xF0 + cp / 262144), Octet(0x80 + cp / 4096 % 64), Octet(0x80 + cp / 64 % 64), Octet(0x80 + cp % 64)]
  }

  lemma PayloadOf1(bits: nat, a: char)
    requires Continuation(a)
    ensures Payload(bits, [a]) == 64 * bits + SixBits(a)
  {
    assert [a][1..] == [];
  }

  lemma PayloadOf2(bits: nat, a: char, b: char)
    requires Continuation(a) && Continuation(b)
    ensures Payload(bits, [a, b]) == 64 * (64 * bits + SixBits(a)) + SixBits(b)
  {
    assert [a, b][1..] == [b];
    PayloadOf1(64 * bits + SixBits(a), b);
  }

  lemma PayloadOf3(bits: nat, a: char, b: char, c: char)
    requires Continuation(a) && Continuation(b) && Continuation(c)
    ensures Payload(bits, [a, b, c]) == 64 * (64 * (64 * bits + SixBits(a)) + SixBits(b)) + SixBits(c)
  {
    assert [a, b, c][1..] == [b, c];
    PayloadOf2(64 * bits + SixBits(a), b, c);
  }

  /** What is appended for a character number is its encoding. */
  lemma EncodeIsEncoding(cp: nat)
    requires Scalar(cp)
    ensures IsEncoding(cp, Encode(cp))
  {
    if cp < 0x80 {
      assert Encode(cp)[1..] == [];
    } else if cp < 0x800 {
      var s := Encode(cp);
      assert s[1..] == [s[1]];
      PayloadOf1(cp / 64, s[1]);
    } else {
      EncodeLong(cp);
    }
  }

  lemma EncodeLong(cp: nat)
    requires Scalar(cp) && 0x800 <= cp
    ensures IsEncoding(cp, Encode(cp))
  {
    if cp < 0x10000 {
      EncodeThree(cp);
    } else {
      EncodeFour(cp);
    }
  }

  lemma EncodeThree(cp: nat)
    requires Scalar(cp) && 0x800 <= cp < 0x10000
    ensures IsEncoding(cp, Encode(cp))
  {
    hide Payload;
    var s := Encode(cp);
    assert cp / 64 == 64 * (cp / 4096) + cp / 64 % 64;
    assert s[1..] == [s[1], s[2]];
    PayloadOf2(cp / 4096, s[1], s[2]);
  }

  lemma EncodeFour(cp: nat)
    requires Scalar(cp) && 0x10000 <= cp
    ensures IsEncoding(cp, Encode(cp))
  {
    hide Payload;
    var s := Encode(cp);
    assert cp / 64 == 64 * (cp / 4096) + cp / 64 % 64;
    assert cp / 4096 == 64 * (cp / 262144) + cp / 4096 % 64;
    assert s[1..] == [s[1], s[2], s[3]];
    PayloadOf3(cp / 262144, s[1], s[2], s[3]);
  }

  lemma PayloadOf0(bits: nat)
    ensures Payload(bits, []) == bits
  {
  }

  /** A character number has no other encoding. */
  lemma {:induction false} EncodingUnique(cp: nat, s: string, t: string)
    requires IsEncoding(cp, s) && IsEncoding(cp, t)
    ensures s == t
  {
    PayloadInjective(s[0] as nat - LeadMark(|s|), s[1..], t[0] as nat - LeadMark(|t|), t[1..]);
    assert s == [s[0]] + s[1..] && t == [t[0]] + t[1..];
  }

  lemma {:induction false} PayloadInjective(x: nat, s: string, y: nat, t: string)
    requires |s| == |t| && Continuations(s) && Continuations(t)
    requires Payload(x, s) == Payload(y, t)
    ensures x == y && s == t
    decreases |s|
  {
    if s != [] {
      PayloadInjective(64 * x + SixBits(s[0]), s[1..], 64 * y + SixBits(t[0]), t[1..]);
      assert s == [s[0]] + s[1..] && t == [t[0]] + t[1..];
    }
  }

  // ----- checking --------------------------------------------------------------------

  /** The length a leading octet announces, or zero. */
  function LeadLength(c: char): nat {
    var byte := c as nat;
    if byte < 0x80 then 1 else if byte < 0xC0 then 0 else if byte < 0xE0 then 2
    else if byte < 0xF0 then 3 else if byte < 0xF8 then 4 else 0
  }

  ghost predicate Starts(s: string, n: nat) { n <= |s| && exists cp :: IsEncoding(cp, s[..n]) }

  lemma StartsLength(s: string, n: nat)
    requires Starts(s, n)
    ensures 1 <= n <= 4 && n == LeadLength(s[0])
  {
    hide Payload;
    var cp :| IsEncoding(cp, s[..n]);
    assert s[..n][0] == s[0];
  }

  /** A text starts with an encoding exactly when the announced octets make one. */
  lemma StartsIff(s: string, n: nat)
    requires 1 <= n <= |s| && n == LeadLength(s[0])
    ensures Starts(s, n) <==> (
      && Continuations(s[1..n])
      && var cp := Payload(s[0] as nat - LeadMark(n), s[1..n]); Scalar(cp) && Octets(cp) == n)
  {
    hide Payload, Scalar;
    assert s[..n][0] == s[0] && s[..n][1..] == s[1..n];
    if Continuations(s[1..n]) {
      var cp := Payload(s[0] as nat - LeadMark(n), s[1..n]);
      assert Scalar(cp) && Octets(cp) == n ==> IsEncoding(cp, s[..n]);
    }
  }

  /** A text that is not empty is valid exactly when it starts with an encoding and the rest is valid. */
  lemma ValidIff(s: string)
    requires s != []
    ensures var n := LeadLength(s[0]); ValidUtf8(s) <==> 0 < n <= |s| && Starts(s, n) && ValidUtf8(s[n..])
  {
    hide IsEncoding;
    var n := LeadLength(s[0]);
    if ValidUtf8(s) {
      var cps :| Encodes(cps, s);
      assert IsEncoding(cps[0], s[..Octets(cps[0])]);
      assert Starts(s, Octets(cps[0]));
      StartsLength(s, Octets(cps[0]));
      assert Encodes(cps[1..], s[n..]);
    }
    if 0 < n <= |s| && Starts(s, n) && ValidUtf8(s[n..]) {
      var cp :| IsEncoding(cp, s[..n]);
      EncodingLength(cp, s[..n]);
      var cps :| Encodes(cps, s[n..]);
      assert ([cp] + cps)[1..] == cps;
      assert Encodes([cp] + cps, s);
    }
  }

  lemma EncodingLength(cp: nat, s: string)
    requires IsEncoding(cp, s)
    ensures |s| == Octets(cp)
  {
  }

  method IsValidUtf8(text: string) returns (ok: bool)
    ensures ok <==> ValidUtf8(text)
  {
    var i := 0;
    while i < |text|
      invariant i <= |text| && (ValidUtf8(text) <==> ValidUtf8(text[i..]))
    {
      hide IsEncoding, ValidUtf8, Starts, Payload;
      var byte := text[i] as nat;
      var extra, codepoint := 0, 0;
      ghost var s := text[i..];
      ghost var n := LeadLength(text[i]);
      ValidIff(s);
      if byte < 0x80 {
        AsciiStarts(s);
        assert s[1..] == text[i + 1..];
        i := i + 1;
        continue;
      }
      if 0xC0 <= byte < 0xE0 {
        extra := 1;
        codepoint := byte - 0xC0;
      } else if 0xE0 <= byte < 0xF0 {
        extra := 2;
        codepoint := byte - 0xE0;
      } else if 0xF0 <= byte < 0xF8 {
        extra := 3;
        codepoint := byte - 0xF0;
      } else {
        return false;
      }
      if i + extra >= |text| {
        return false;
      }
      assert n == extra + 1 <= |s|;
      StartsIff(s, n);
      PayloadOf0(codepoint);
      for k := 1 to extra + 1
        invariant Continuations(s[1..k])
        invariant codepoint == Payload(byte - LeadMark(n), s[1..k])
      {
        var cont := text[i + k] as nat;
        assert s[1..n][k - 1] == s[k] == text[i + k];
        if !(0x80 <= cont < 0xC0) {
          return false;
        }
        PayloadAppends(byte - LeadMark(n), s[1..k], text[i + k]);
        assert s[1..k + 1] == s[1..k] + [text[i + k]];
        codepoint := 64 * codepoint + (cont - 0x80);
      }
      if extra == 1 && codepoint < 0x80 { return false; }
      if extra == 2 && codepoint < 0x800 { return false; }
      if extra == 3 && codepoint < 0x10000 { return false; }
      if codepoint > 0x10FFFF { return false; }
      if 0xD800 <= codepoint <= 0xDFFF { return false; }
      PayloadBound(byte - LeadMark(n), s[1..n]);
      assert s[n..] == text[i + n..];
      i := i + extra + 1;
    }
    NothingIsValid();
    assert text[i..] == [];
    return true;
  }

  lemma NothingIsValid()
    ensures ValidUtf8([])
  {
    assert Encodes([], []);
  }

  lemma AsciiStarts(s: string)
    requires s != [] && s[0] as nat < 0x80
    ensures Starts(s, 1) && LeadLength(s[0]) == 1
  {
    assert s[..1][1..] == [];
    assert IsEncoding(s[0] as nat, s[..1]);
  }

  lemma {:induction false} PayloadAppends(bits: nat, s: string, c: char)
    requires Continuations(s) && Continuation(c)
    ensures Continuations(s + [c]) && Payload(bits, s + [c]) == 64 * Payload(bits, s) + SixBits(c)
    decreases |s|
  {
    if s == [] {
      assert [] + [c] == [c];
      PayloadOf1(bits, c);
    } else {
      PayloadAppends(64 * bits + SixBits(s[0]), s[1..], c);
      assert (s + [c])[1..] == s[1..] + [c];
    }
  }

  /** Six more bits for each continuation octet. */
  lemma PayloadBound(bits: nat, s: string)
    requires Continuations(s) && 1 <= |s| <= 3
    ensures |s| == 1 ==> Payload(bits, s) < 64 * (bits + 1)
    ensures |s| == 2 ==> Payload(bits, s) < 4096 * (bits + 1)
  {
    if |s| == 1 {
      assert s == [s[0]];
      PayloadOf1(bits, s[0]);
    } else if |s| == 2 {
      assert s == [s[0], s[1]];
      PayloadOf2(bits, s[0], s[1]);
    }
  }

  // ----- joining and splitting --------------------------------------------------------

  lemma {:induction false} ValidConcat(a: string, b: string)
    requires ValidUtf8(a) && ValidUtf8(b)
    ensures ValidUtf8(a + b)
    decreases |a|
  {
    hide ValidUtf8, Starts;
    if a == [] {
      assert a + b == b;
    } else {
      ValidIff(a);
      ValidIff(a + b);
      var n := LeadLength(a[0]);
      ValidConcat(a[n..], b);
      assert (a + b)[n..] == a[n..] + b;
      StartsPrefix(a, b, n);
    }
  }

  lemma StartsPrefix(a: string, b: string, n: nat)
    requires n <= |a|
    ensures Starts(a, n) <==> Starts(a + b, n)
  {
    hide IsEncoding;
    assert (a + b)[..n] == a[..n];
  }

  /** No octet of an encoding but the first is below 0x80, so a text may be cut around such an octet. */
  lemma {:induction false} ValidSplit(a: string, c: char, b: string)
    requires ValidUtf8(a + [c] + b) && c as nat < 0x80
    ensures ValidUtf8(a) && ValidUtf8(b)
    decreases |a|
  {
    var s := a + [c] + b;
    hide ValidUtf8, Starts;
    ValidIff(s);
    if a == [] {
      assert s[1..] == b;
      NothingIsValid();
    } else {
      var n := LeadLength(a[0]);
      assert s[0] == a[0];
      StartsIff(s, n);
      assert forall m :: 1 <= m < n ==> s[1..n][m - 1] == s[m] && Continuation(s[m]);
      assert s[|a|] == c;
      assert s[n..] == a[n..] + [c] + b;
      ValidSplit(a[n..], c, b);
      StartsPrefix(a, [c] + b, n);
      assert a + ([c] + b) == s;
      ValidIff(a);
    }
  }

  lemma AsciiValid(c: char)
    requires c as nat < 0x80
    ensures ValidUtf8([c])
  {
    NothingIsValid();
    ValidIff([c]);
    AsciiStarts([c]);
    assert [c][1..] == [];
  }

  lemma EncodeValid(cp: nat)
    requires Scalar(cp)
    ensures ValidUtf8(Encode(cp))
  {
    hide IsEncoding, Encode;
    EncodeIsEncoding(cp);
    EncodingLength(cp, Encode(cp));
    var s := Encode(cp);
    assert s[..|s|] == s && s[|s|..] == [];
    assert Encodes([cp][1..], []);
    assert Encodes([cp], s);
  }

  // ----- the examples of section 7 -------------------------------------------------

  lemma OneMore(cps: seq<nat>, text: string, cp: nat)
    requires Encodes(cps, text) && Scalar(cp)
    ensures Encodes([cp] + cps, Encode(cp) + text)
  {
    hide IsEncoding;
    EncodeIsEncoding(cp);
    var all := Encode(cp) + text;
    assert |Encode(cp)| == Octets(cp);
    assert all[..Octets(cp)] == Encode(cp) && all[Octets(cp)..] == text;
    assert ([cp] + cps)[1..] == cps;
  }

  /** A with the sign for not identical and an alpha; and the Chinese character of four octets. */
  lemma Section7()
    ensures Encodes([0x41, 0x2262, 0x391, 0x2E],
                    ['\U{41}', '\U{E2}', '\U{89}', '\U{A2}', '\U{CE}', '\U{91}', '\U{2E}'])
    ensures Encodes([0x233B4], ['\U{F0}', '\U{A3}', '\U{8E}', '\U{B4}'])
  {
    hide IsEncoding;
    var text, cps: seq<nat> := "", [];
    assert Encodes(cps, text);
    OneMore(cps, text, 0x233B4);
    assert Encode(0x233B4) == ['\U{F0}', '\U{A3}', '\U{8E}', '\U{B4}'];
    assert Encode(0x233B4) + text == ['\U{F0}', '\U{A3}', '\U{8E}', '\U{B4}'] && [0x233B4] + cps == [0x233B4];
    OneMore(cps, text, 0x2E);
    assert Encode(0x2E) == ['\U{2E}'];
    text, cps := ['\U{2E}'] + text, [0x2E] + cps;
    OneMore(cps, text, 0x391);
    assert Encode(0x391) == ['\U{CE}', '\U{91}'];
    text, cps := ['\U{CE}', '\U{91}'] + text, [0x391] + cps;
    OneMore(cps, text, 0x2262);
    assert Encode(0x2262) == ['\U{E2}', '\U{89}', '\U{A2}'];
    text, cps := ['\U{E2}', '\U{89}', '\U{A2}'] + text, [0x2262] + cps;
    OneMore(cps, text, 0x41);
    assert Encode(0x41) == ['\U{41}'];
    assert ['\U{41}'] + text == ['\U{41}', '\U{E2}', '\U{89}', '\U{A2}', '\U{CE}', '\U{91}', '\U{2E}'];
    assert [0x41] + cps == [0x41, 0x2262, 0x391, 0x2E];
  }
}
