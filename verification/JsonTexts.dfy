/**
 * What the reader of JSON makes of plain families of texts under the default limits: escapes in either case,
 * strings, nesting, arrays and integers of every size (src/json.cpp:443-799, include/ifabric/json.hpp).
 */
module JsonTexts {
  import opened Identities
  import opened JsonValues
  import opened JsonGrammar
  import opened JsonParsing
  import opened JsonComplete
  import opened JsonDocuments
  import opened JsonPrinter
  import opened Utf8
  import Payloads

  // ----- escapes ------------------------------------------------------------------------------------

  const LOWER := "0123456789abcdef"
  const UPPER := "0123456789ABCDEF"

  predicate SpellsDigit(c: char, d: nat)
    requires d < 16
  {
    c == LOWER[d] || c == UPPER[d]
  }

  /** Four hexadecimal digits for the number, each in either case. */
  predicate Spells(h: string, n: nat)
    requires n < 0x10000
  {
    && |h| == 4 && SpellsDigit(h[0], n / 16 / 16 / 16) && SpellsDigit(h[1], n / 16 / 16 % 16)
    && SpellsDigit(h[2], n / 16 % 16) && SpellsDigit(h[3], n % 16)
  }

  lemma DigitSpelled(c: char, d: nat)
    requires d < 16 && SpellsDigit(c, d)
    ensures IsHex(c) && HexValue(c) == d
  {
    if d < 10 {
      assert LOWER[d] == UPPER[d] == '0' + d as char;
    } else {
      assert LOWER[d] == 'a' + (d - 10) as char && UPPER[d] == 'A' + (d - 10) as char;
    }
  }

  lemma Spelled(h: string, n: nat)
    requires n < 0x10000 && Spells(h, n)
    ensures IsHex4(h) && Hex4(h) == n
  {
    hide SpellsDigit, IsHex, HexValue;
    DigitSpelled(h[0], n / 16 / 16 / 16);
    DigitSpelled(h[1], n / 16 / 16 % 16);
    DigitSpelled(h[2], n / 16 % 16);
    DigitSpelled(h[3], n % 16);
  }

  lemma OnlyPiece(p: Piece)
    ensures PiecesText([p]) == PieceText(p) && PiecesMeaning([p]) == PieceMeaning(p)
  {
    hide PieceText, PieceMeaning;
    assert [p][1..] == [];
    assert PiecesText([]) == "" && PiecesMeaning([]) == "";
    assert PieceText(p) + "" == PieceText(p) && PieceMeaning(p) + "" == PieceMeaning(p);
  }

  /** A string literal of one piece is read as that piece means. */
  lemma PieceReads(p: Piece, text: string)
    requires PieceOk(p) && |PieceMeaning(p)| <= 4096 && Ascii(PieceText(p)) && |PieceText(p)| <= 12
    requires text == "\"" + PieceText(p) + "\""
    ensures Parse(text, DEFAULT_LIMITS) == Ok(Str(PieceMeaning(p)), "")
  {
    hide Parse, PieceText, PieceMeaning, PieceOk, ValidUtf8;
    var d := Document("", TreeString([p]), "");
    OnlyPiece(p);
    assert DocumentText(d) == text;
    AsciiIsValid(text);
    DocumentParses(d, DEFAULT_LIMITS);
  }

  /** Every character below 0x10000 can be written as one escape, in either case, and is read as its octets. */
  lemma EscapeReads(cp: nat, h: string) returns (octets: string)
    requires Scalar(cp) && cp < 0x10000 && Spells(h, cp)
    ensures IsEncoding(cp, octets) && Parse("\"\\u" + h + "\"", DEFAULT_LIMITS) == Ok(Str(octets), "")
  {
    hide Parse, IsHex, SpellsDigit, IsEncoding;
    Spelled(h, cp);
    octets := Encode(cp);
    EncodeIsEncoding(cp);
    HexAscii(h);
    assert "\"\\u" + h + "\"" == "\"" + (['\\', 'u'] + h) + "\"";
    PieceReads(Unit(h), "\"\\u" + h + "\"");
  }

  lemma HexAscii(h: string)
    requires IsHex4(h)
    ensures Ascii(h)
  {
  }

  /** And every character from 0x10000 on as two: the halves of its ten low and ten high bits. */
  lemma PairReads(cp: nat, high: string, low: string) returns (octets: string)
    requires 0x10000 <= cp <= 0x10FFFF
    requires Spells(high, 0xD800 + (cp - 0x10000) / 1024) && Spells(low, 0xDC00 + (cp - 0x10000) % 1024)
    ensures IsEncoding(cp, octets) && Parse("\"\\u" + high + "\\u" + low + "\"", DEFAULT_LIMITS) == Ok(Str(octets), "")
  {
    hide Parse, IsHex, Spells, IsEncoding, HexValue, Hex4;
    Spelled(high, 0xD800 + (cp - 0x10000) / 1024);
    Spelled(low, 0xDC00 + (cp - 0x10000) % 1024);
    octets := Encode(cp);
    EncodeIsEncoding(cp);
    HexAscii(high);
    HexAscii(low);
    var p := Pair(high, low);
    assert PieceText(p) == ['\\', 'u'] + high + ['\\', 'u'] + low;
    assert "\"\\u" + high + "\\u" + low + "\"" == "\"" + (['\\', 'u'] + high + ['\\', 'u'] + low) + "\"";
    assert PieceMeaning(p) == Encode(cp);
    PieceReads(p, "\"\\u" + high + "\\u" + low + "\"");
  }

  /** The short escapes and what they stand for. */
  lemma ShortReads(k: nat)
    requires k < 8
    ensures Parse(['"', '\\', "\"\\/bfnrt"[k], '"'], DEFAULT_LIMITS)
      == Ok(Str(["\"\\/\U{0008}\U{000C}\n\r\t"[k]]), "")
  {
    hide Parse;
    var c := "\"\\/bfnrt"[k];
    var p := Short(c);
    assert PieceOk(p);
    assert Unescaped(c) == "\"\\/\U{0008}\U{000C}\n\r\t"[k];
    assert ['"', '\\', c, '"'] == "\"" + ['\\', c] + "\"";
    PieceReads(p, ['"', '\\', c, '"']);
  }

  /** Half of a pair alone is refused, whichever half it is. */
  lemma LoneRefused(n: nat, h: string)
    requires 0xD800 <= n <= 0xDFFF && Spells(h, n)
    ensures Parse("\"\\u" + h + "\"", DEFAULT_LIMITS) == Err(EncodingError)
  {
    hide SpellsDigit, IsHex, HexValue, ValidUtf8;
    var text := "\"\\u" + h + "\"";
    Spelled(h, n);
    HexAscii(h);
    AsciiIsValid(text);
    var rest := h + "\"";
    assert text[1..] == ['\\', 'u'] + rest;
    assert text[1..][1..] == ['u'] + rest;
    UnicodeEscape(rest);
    assert rest[..4] == h && rest[4..] == "\"";
    assert ParseUnicode(rest) == Err(EncodingError);
  }

  // ----- strings ------------------------------------------------------------------------------------

  /** Characters that stand for themselves. */
  predicate Unescapable(s: string) { forall i :: 0 <= i < |s| ==> 0x20 <= s[i] as nat < 0x80 && s[i] != '"' && s[i] != '\\' }

  lemma {:induction false} PlainChars(s: string, out: string, max: nat)
    requires Unescapable(s) && |out| <= max
    ensures ParseChars(s + "\"", out, max) == if |out| + |s| <= max then Ok(out + s, "") else Err(LimitExceeded)
    decreases |s|
  {
    hide ParseEscape;
    var t := s + "\"";
    if s == "" {
      assert t == "\"" && t[1..] == "" && out + s == out;
    } else {
      assert t[1..] == s[1..] + "\"";
      if |out| < max {
        PlainChars(s[1..], out + [s[0]], max);
        assert out + [s[0]] + s[1..] == out + s;
      }
    }
  }

  /** A string is read exactly up to 4096 characters. */
  lemma StringReadsIff(s: string)
    requires Unescapable(s) && |s| < 0x10000
    ensures Parse("\"" + s + "\"", DEFAULT_LIMITS) == if |s| <= 4096 then Ok(Str(s), "") else Err(LimitExceeded)
  {
    hide ParseChars, ValidUtf8;
    var text := "\"" + s + "\"";
    AsciiIsValid(text);
    assert text[1..] == s + "\"";
    PlainChars(s, "", 4096);
    assert "" + s == s;
  }

  // ----- nesting --------------------------------------------------------------------------------------

  /** n arrays, each but the innermost holding the next. */
  function Nest(n: nat): (r: string)
    ensures |r| == 2 * n
  {
    if n == 0 then "" else "[" + Nest(n - 1) + "]"
  }

  lemma NestStarts(n: nat)
    requires n > 0
    ensures Nest(n)[0] == '['
  {
  }

  lemma ArrayIsValue(s: string, depth: nat, nodes: nat)
    requires s != "" && s[0] == '[' && depth <= 64 && nodes < 4000000
    ensures ParseValue(s, depth, nodes, DEFAULT_LIMITS) == ParseArray(s[1..], depth, nodes + 1, DEFAULT_LIMITS)
  {
    hide ParseArray, ParseObject;
  }

  lemma {:induction false} NestParses(n: nat, depth: nat, rest: string)
    requires n > 0 && depth <= 65
    ensures var r := ParseValue(Nest(n) + rest, depth, depth, DEFAULT_LIMITS);
      if depth + n <= 65 then r.Ok? && r.rest == rest && r.value.nodes == depth + n else r == Err(DepthExceeded)
    decreases n
  {
    var s := Nest(n) + rest;
    if depth <= 64 {
      assert s[0] == '[' && s[1..] == Nest(n - 1) + ("]" + rest);
      if n == 1 {
        assert s[1..] == "]" + rest;
        assert s[1..][1..] == rest;
      } else {
        var s1 := s[1..];
        NestStarts(n - 1);
        NestParses(n - 1, depth + 1, "]" + rest);
        hide ParseValue;
        assert s1[0] == '[' && SkipBlanks(s1) == s1;
        assert ParseArray(s1, depth, depth + 1, DEFAULT_LIMITS) == ParseItems(s1, depth, depth + 1, [], DEFAULT_LIMITS);
        assert SkipBlanks("]" + rest) == "]" + rest && ("]" + rest)[1..] == rest;
        ArrayIsValue(s, depth, depth);
      }
    }
  }

  /** Nested arrays are read exactly up to 65 of them. */
  lemma NestingReadsIff(n: nat)
    requires 0 < n < 0x10000
    ensures Parse(Nest(n), DEFAULT_LIMITS).Ok? <==> n <= 65
    ensures n > 65 ==> Parse(Nest(n), DEFAULT_LIMITS) == Err(DepthExceeded)
  {
    hide ParseValue, ValidUtf8;
    NestAscii(n);
    AsciiIsValid(Nest(n));
    NestStarts(n);
    NestParses(n, 0, "");
    assert Nest(n) + "" == Nest(n);
  }

  lemma {:induction false} NestAscii(n: nat)
    ensures Ascii(Nest(n))
  {
    if n > 0 {
      NestAscii(n - 1);
    }
  }

  // ----- arrays ---------------------------------------------------------------------------------------

  /** n zeros and what closes them. */
  function Zeros(n: nat): (r: string)
    ensures 0 < |r| <= 2 * n + 1
  {
    if n == 0 then "]" else if n == 1 then "0]" else "0," + Zeros(n - 1)
  }

  function ZeroItems(n: nat): (r: seq<Json>)
    ensures |r| == n
  {
    seq(n, _ => Int(0))
  }

  lemma ZeroParses(tail: string, depth: nat, nodes: nat)
    requires depth <= 64 && nodes < 4000000 && tail != "" && (tail[0] == ',' || tail[0] == ']')
    ensures ParseValue("0" + tail, depth, nodes, DEFAULT_LIMITS) == Ok(Counted(Int(0), nodes + 1), tail)
  {
    hide ParseValue, ParseNumber, TreeOk, NumberValue;
    var t := TreeNumber(false, "0");
    ZeroIsZero();
    assert Text(t) == "0" && Ends(tail);
    NumberIsValue(t, tail, depth, nodes, DEFAULT_LIMITS);
    NumberComplete(false, "0", tail);
  }

  lemma ZeroIsZero()
    ensures TreeOk(TreeNumber(false, "0")) && NumberValue(false, "0") == 0 && Text(TreeNumber(false, "0")) == "0"
  {
    assert "0"[..0] == "";
    assert DecimalValue("0") == 10 * DecimalValue("") + DigitValue('0');
    assert IsInteger("0");
    assert "" + "0" == "0";
  }

  lemma {:induction false} ZerosParse(n: nat, nodes: nat, acc: seq<Json>)
    requires n > 0 && |acc| <= 100000 && nodes == |acc| + 1
    ensures ParseItems(Zeros(n), 0, nodes, acc, DEFAULT_LIMITS)
      == if |acc| + n <= 100000 then Ok(Counted(Arr(acc + ZeroItems(n)), nodes + n), "") else Err(LimitExceeded)
    decreases n
  {
    hide ParseItems;
    var tail := Zeros(n)[1..];
    assert Zeros(n) == "0" + tail;
    ZeroTaken(tail, nodes, acc);
    if |acc| < 100000 {
      if n == 1 {
        assert tail == "]" && tail[1..] == "";
        assert ZeroItems(1) == [Int(0)];
      } else {
        assert tail == "," + Zeros(n - 1) && tail[1..] == Zeros(n - 1);
        ZerosParse(n - 1, nodes + 1, acc + [Int(0)]);
        assert (acc + [Int(0)]) + ZeroItems(n - 1) == acc + ZeroItems(n);
      }
    }
  }

  lemma ZeroTaken(tail: string, nodes: nat, acc: seq<Json>)
    requires tail != "" && (tail[0] == ',' || tail[0] == ']') && nodes < 4000000
    ensures ParseItems("0" + tail, 0, nodes, acc, DEFAULT_LIMITS)
      == if |acc| >= 100000 then Err(LimitExceeded)
         else if tail[0] == ',' then ParseItems(tail[1..], 0, nodes + 1, acc + [Int(0)], DEFAULT_LIMITS)
         else Ok(Counted(Arr(acc + [Int(0)]), nodes + 1), tail[1..])
  {
    hide ParseValue;
    assert SkipBlanks("0" + tail) == "0" + tail && SkipBlanks(tail) == tail;
    ZeroParses(tail, 1, nodes);
  }

  /** An array is read exactly up to 100000 values. */
  lemma ArrayReadsIff(n: nat)
    requires 0 < n < 0x100000
    ensures Parse("[" + Zeros(n), DEFAULT_LIMITS)
      == if n <= 100000 then Ok(Arr(ZeroItems(n)), "") else Err(LimitExceeded)
  {
    hide ParseItems, ParseArray, ValidUtf8;
    var text := "[" + Zeros(n);
    ZerosAscii(n);
    AsciiIsValid(text);
    assert text[1..] == Zeros(n);
    ArrayIsValue(text, 0, 0);
    ZerosStart(n);
    ZerosParse(n, 1, []);
    assert [] + ZeroItems(n) == ZeroItems(n);
    hide ParseValue;
  }

  lemma ZerosStart(n: nat)
    requires n > 0
    ensures ParseArray(Zeros(n), 0, 1, DEFAULT_LIMITS) == ParseItems(Zeros(n), 0, 1, [], DEFAULT_LIMITS)
  {
    hide ParseItems;
    assert Zeros(n)[0] == '0';
  }

  lemma {:induction false} ZerosAscii(n: nat)
    ensures Ascii(Zeros(n))
  {
    if n > 1 {
      ZerosAscii(n - 1);
    }
  }

  // ----- integers -------------------------------------------------------------------------------------

  /** An integer is read from its decimal text exactly within 64 bits. */
  lemma IntegerReadsIff(n: int)
    ensures Parse(Dump(Int(n), 0), DEFAULT_LIMITS) == Ok(Int(n), "")
      <==> -9223372036854775808 <= n <= 9223372036854775807
    ensures Dump(Int(n), 0) == if n < 0 then "-" + NatText(-n) else NatText(n)
  {
    hide Parse, NatText;
    RoundTripIff(Int(n), 0, DEFAULT_LIMITS);
    assert n >= 0 ==> "" + NatText(n) == NatText(n);
    if -9223372036854775808 <= n <= 9223372036854775807 {
      ShortInteger(if n < 0 then -n else n);
    }
  }

  lemma ShortInteger(n: nat)
    requires n <= 9223372036854775808
    ensures |NatText(n)| <= 19
  {
    assert Power10(6) == 1000000;
    assert Power10(13) == 10000000000000;
    assert Power10(19) == 10000000000000000000;
    NatTextShort(n, 19);
  }

  // ----- the compact text of a value ------------------------------------------------------------------

  /** How one character stands in a string: only the two delimiters and control characters are escaped. */
  function Escaped(c: char): string {
    if c == '"' then "\\\""
    else if c == '\\' then "\\\\"
    else if c == '\U{0008}' then "\\b"
    else if c == '\t' then "\\t"
    else if c == '\n' then "\\n"
    else if c == '\U{000C}' then "\\f"
    else if c == '\r' then "\\r"
    else if c as nat < 0x20 then "\\u00" + [LOWER[c as nat / 16], LOWER[c as nat % 16]]
    else [c]
  }

  function EscapedAll(s: string): string { if s == "" then "" else Escaped(s[0]) + EscapedAll(s[1..]) }

  function Decimal(n: int): string { if n < 0 then "-" + NatText(-n) else NatText(n) }

  /** The text without any blank. */
  function Compact(v: Json): string {
    match v
    case Null => "null"
    case Bool(truth) => if truth then "true" else "false"
    case Int(n) => Decimal(n)
    case Real(literal) => LiteralText(literal)
    case Str(text) => "\"" + EscapedAll(text) + "\""
    case Arr(items) => "[" + CompactItems(items) + "]"
    case Obj(members) => "{" + CompactMembers(members) + "}"
  }

  function CompactItems(items: seq<Json>): string {
    if items == [] then ""
    else Compact(items[0]) + (if |items| == 1 then "" else "," + CompactItems(items[1..]))
  }

  function CompactMembers(members: seq<Member>): string {
    if members == [] then ""
    else
      "\"" + EscapedAll(members[0].key) + "\":" + Compact(members[0].value)
      + (if |members| == 1 then "" else "," + CompactMembers(members[1..]))
  }

  lemma OneEscaped(c: char)
    ensures PieceText(PieceOf(c)) == Escaped(c)
  {
  }

  lemma {:induction false} AllEscaped(s: string)
    ensures PiecesText(PiecesOf(s)) == EscapedAll(s)
  {
    hide PieceOf, Escaped, PieceText;
    if s != "" {
      OneEscaped(s[0]);
      AllEscaped(s[1..]);
    }
  }

  /** The canonical text of a value. */
  lemma {:induction false} DumpIsCompact(v: Json)
    ensures Dump(v, 0) == Compact(v)
    decreases v
  {
    hide NatText, LiteralText, EscapedAll, PiecesOf, PiecesText;
    match v
    case Int(n) => IntegerText(n);
    case Str(text) => AllEscaped(text);
    case Arr(items) => ItemsAreCompact(items);
    case Obj(members) => MembersAreCompact(members);
    case _ =>
  }

  lemma IntegerText(n: int)
    ensures Dump(Int(n), 0) == Decimal(n)
  {
    hide NatText;
    assert n >= 0 ==> "" + NatText(n) == NatText(n);
  }

  lemma {:induction false} ItemsAreCompact(items: seq<Json>)
    ensures ItemsText(ItemTrees(items, 0, 0)) == CompactItems(items)
    decreases items
  {
    hide TreeOf, Text, Compact;
    if items != [] {
      var trees := ItemTrees(items, 0, 0);
      Payloads.CompactAnywhere(items[0], 1);
      DumpIsCompact(items[0]);
      DumpIs(items[0]);
      ItemsAreCompact(items[1..]);
      assert trees[1..] == ItemTrees(items[1..], 0, 0);
      assert ItemText(trees[0]) == Compact(items[0]);
    }
  }

  lemma DumpIs(v: Json)
    ensures Dump(v, 0) == Text(TreeOf(v, 0, 0))
  {
  }

  lemma {:induction false} MembersAreCompact(members: seq<Member>)
    ensures FieldsText(FieldTrees(members, 0, 0)) == CompactMembers(members)
    decreases members
  {
    hide TreeOf, Text, Compact, PiecesOf, PiecesText, EscapedAll;
    if members != [] {
      var trees := FieldTrees(members, 0, 0);
      Payloads.CompactAnywhere(members[0].value, 1);
      DumpIsCompact(members[0].value);
      DumpIs(members[0].value);
      AllEscaped(members[0].key);
      MembersAreCompact(members[1..]);
      assert trees[1..] == FieldTrees(members[1..], 0, 0);
      assert FieldText(trees[0]) == "\"" + EscapedAll(members[0].key) + "\":" + Compact(members[0].value);
    }
  }
}
