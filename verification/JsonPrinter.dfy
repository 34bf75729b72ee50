/**
 * The canonical printer (src/json.cpp:264-374), proved against the grammar: what it writes is a text of
 * the grammar whose meaning is the value, so parsing gives the value back.
 */
module JsonPrinter {
  import opened Identities
  import opened Ordering
  import opened JsonValues
  import opened JsonGrammar
  import opened JsonMembers
  import opened JsonParsing
  import opened JsonComplete
  import opened JsonDocuments
  import opened Utf8

  // ----- the tree a value is printed as ----------------------------------------------

  function Digit(n: nat): char
    requires n < 16
  {
    "0123456789abcdef"[n]
  }

  /** std::to_string of a number that is not negative. */
  function NatText(n: nat): (r: string)
    ensures r != ""
  {
    if n < 10 then [Digit(n)] else NatText(n / 10) + [Digit(n % 10)]
  }

  /** How a character is printed inside a string. */
  function PieceOf(c: char): Piece {
    if c == '"' || c == '\\' then Short(c)
    else if c == '\U{0008}' then Short('b')
    else if c == '\U{000C}' then Short('f')
    else if c == '\n' then Short('n')
    else if c == '\r' then Short('r')
    else if c == '\t' then Short('t')
    else if c as nat < 0x20 then Unit(['0', '0', Digit(c as nat / 16), Digit(c as nat % 16)])
    else Plain(c)
  }

  function PiecesOf(text: string): (r: seq<Piece>)
    ensures |r| == |text|
  {
    if text == "" then [] else [PieceOf(text[0])] + PiecesOf(text[1..])
  }

  function Spaces(n: nat): (r: string)
    ensures |r| == n && forall i :: 0 <= i < n ==> r[i] == ' '
  {
    seq(n, _ => ' ')
  }

  /** A line break and the indentation of a depth, when pretty-printing. */
  function NewLine(indent: nat, depth: nat): string {
    if indent == 0 then "" else "\n" + Spaces(depth * indent)
  }

  function AbsoluteValue(n: int): nat { if n < 0 then -n else n }

  function TreeOf(v: Json, indent: nat, depth: nat): Tree {
    match v
    case Null => TreeNull
    case Bool(truth) => TreeBool(truth)
    case Int(n) => TreeNumber(n < 0, NatText(AbsoluteValue(n)))
    case Real(literal) => TreeReal(literal)
    case Str(text) => TreeString(PiecesOf(text))
    case Arr(items) => TreeArray("", ItemTrees(items, indent, depth))
    case Obj(members) => TreeObject("", FieldTrees(members, indent, depth))
  }

  function ItemTrees(items: seq<Json>, indent: nat, depth: nat): (r: seq<Item>)
    ensures |r| == |items|
  {
    if items == [] then []
    else
      var after := if |items| == 1 then NewLine(indent, depth) else "";
      [Item(NewLine(indent, depth + 1), TreeOf(items[0], indent, depth + 1), after)] + ItemTrees(items[1..], indent, depth)
  }

  function FieldTrees(members: seq<Member>, indent: nat, depth: nat): (r: seq<Field>)
    ensures |r| == |members|
  {
    if members == [] then []
    else
      var after := if |members| == 1 then NewLine(indent, depth) else "";
      var afterColon := if indent > 0 then " " else "";
      [Field(NewLine(indent, depth + 1), PiecesOf(members[0].key), "", afterColon, TreeOf(members[0].value, indent, depth + 1), after)]
      + FieldTrees(members[1..], indent, depth)
  }

  /** The text a value is printed as. */
  function Dump(v: Json, indent: nat): string { Text(TreeOf(v, indent, 0)) }

  // ----- what may be printed and read back ----------------------------------------------

  /** 64-bit integers, finite doubles, valid strings, sorted members. */
  ghost predicate Printable(v: Json) { WellFormed(v) && StringsValid(v) && NumbersFit(v) }

  predicate NumbersFit(v: Json) {
    match v
    case Int(n) => MIN_INT <= n <= MAX_INT
    case Real(literal) => LiteralOk(literal)
    case Arr(items) => forall i :: 0 <= i < |items| ==> NumbersFit(items[i])
    case Obj(members) => forall i :: 0 <= i < |members| ==> NumbersFit(members[i].value)
    case _ => true
  }

  /** The limits on depth, strings and collections, on the value itself. */
  predicate Small(v: Json, depth: nat, limits: Limits) {
    && depth <= limits.maxDepth
    && match v
       case Str(text) => |text| <= limits.maxString
       case Arr(items) => |items| <= MAX_COLLECTION && forall i :: 0 <= i < |items| ==> Small(items[i], depth + 1, limits)
       case Obj(members) =>
         && |members| <= MAX_COLLECTION
         && forall i :: 0 <= i < |members| ==> |members[i].key| <= limits.maxString && Small(members[i].value, depth + 1, limits)
       case _ => true
  }

  /** The number of values in a value. */
  function Count(v: Json): nat {
    match v
    case Arr(items) => 1 + CountItems(items)
    case Obj(members) => 1 + CountMembers(members)
    case _ => 1
  }

  function CountItems(items: seq<Json>): nat { if items == [] then 0 else Count(items[0]) + CountItems(items[1..]) }

  function CountMembers(members: seq<Member>): nat {
    if members == [] then 0 else Count(members[0].value) + CountMembers(members[1..])
  }

  // ----- numbers and strings -----------------------------------------------------------------

  lemma {:induction false} NatTextReads(n: nat)
    ensures IsInteger(NatText(n)) && DecimalValue(NatText(n)) == n
    ensures n > 0 ==> NatText(n)[0] != '0'
  {
    var s := NatText(n);
    if n < 10 {
      assert s[..0] == "" && DecimalValue("") == 0;
      assert IsDigit(s[0]) && DigitValue(s[0]) == n;
    } else {
      NatTextReads(n / 10);
      var high := NatText(n / 10);
      assert s[..|s| - 1] == high && s[|s| - 1] == Digit(n % 10);
      assert IsDigit(Digit(n % 10)) && DigitValue(Digit(n % 10)) == n % 10;
      assert s[0] == high[0];
    }
  }

  lemma {:induction false} NatTextShort(n: nat, k: nat)
    requires n < Power10(k) && k > 0
    ensures |NatText(n)| <= k
  {
    if n >= 10 {
      NatTextShort(n / 10, k - 1);
    }
  }

  function Power10(k: nat): nat { if k == 0 then 1 else 10 * Power10(k - 1) }

  lemma PieceOfReads(c: char)
    requires c as nat < 256
    ensures PieceOk(PieceOf(c)) && PieceMeaning(PieceOf(c)) == [c]
  {
    if c as nat < 0x20 {
      ControlReads(c);
    }
  }

  lemma ControlReads(c: char)
    requires c as nat < 0x20
    ensures PieceOk(PieceOf(c)) && PieceMeaning(PieceOf(c)) == [c]
  {
    hide IsHex, HexValue, Digit;
    var h := ['0', '0', Digit(c as nat / 16), Digit(c as nat % 16)];
    DigitReads(c as nat / 16);
    DigitReads(c as nat % 16);
    ZeroReads();
    assert IsHex4(h) && Hex4(h) == c as nat;
  }

  lemma DigitReads(n: nat)
    requires n < 16
    ensures IsHex(Digit(n)) && HexValue(Digit(n)) == n
  {
  }

  lemma ZeroReads()
    ensures IsHex('0') && HexValue('0') == 0
  {
  }

  lemma {:induction false} PiecesOfRead(text: string)
    requires forall i :: 0 <= i < |text| ==> text[i] as nat < 256
    ensures PiecesOk(PiecesOf(text)) && PiecesMeaning(PiecesOf(text)) == text
  {
    hide PieceOf, PieceOk, PieceMeaning, PiecesOk;
    if text != "" {
      PieceOfReads(text[0]);
      PiecesOfRead(text[1..]);
      assert PiecesOf(text)[1..] == PiecesOf(text[1..]);
      OneMoreOk(PieceOf(text[0]), PiecesOf(text[1..]));
      assert text == [text[0]] + text[1..];
    } else {
      NoPiecesOk();
    }
  }

  lemma OneMoreOk(p: Piece, ps: seq<Piece>)
    requires PieceOk(p) && PiecesOk(ps)
    ensures PiecesOk([p] + ps)
  {
    hide PieceOk;
  }

  lemma NoPiecesOk()
    ensures PiecesOk([])
  {
  }

  lemma {:induction false} ValidBytes(text: string)
    requires ValidUtf8(text)
    ensures forall i :: 0 <= i < |text| ==> text[i] as nat < 256
    decreases |text|
  {
    hide ValidUtf8, Starts;
    if text != "" {
      ValidIff(text);
      var n := LeadLength(text[0]);
      StartsIff(text, n);
      ValidBytes(text[n..]);
      forall i | 0 <= i < |text|
        ensures text[i] as nat < 256
      {
        if 0 < i < n {
          assert text[1..n][i - 1] == text[i];
        } else if i >= n {
          assert text[n..][i - n] == text[i];
        }
      }
    }
  }

  // ----- the printed tree means the value ----------------------------------------------------------

  lemma NewLineIsBlank(indent: nat, depth: nat)
    ensures Blanks(NewLine(indent, depth)) && Blanks(" ") && Blanks("")
  {
  }

  ghost predicate Reads(t: Tree, v: Json, depth: nat, limits: Limits) {
    TreeOk(t) && Meaning(t) == v && Nodes(t) == Count(v) && Fits(t, depth, limits)
  }

  ghost predicate Fine(v: Json, depth: nat, limits: Limits) { Printable(v) && Small(v, depth, limits) }

  ghost predicate ItemsFine(items: seq<Json>, depth: nat, limits: Limits) {
    forall i :: 0 <= i < |items| ==> Fine(items[i], depth, limits)
  }

  ghost predicate MembersFine(members: seq<Member>, depth: nat, limits: Limits) {
    forall i :: 0 <= i < |members| ==>
      ValidUtf8(members[i].key) && |members[i].key| <= limits.maxString && Fine(members[i].value, depth, limits)
  }

  lemma {:induction false} TreeReads(v: Json, indent: nat, depth: nat, limits: Limits)
    requires Fine(v, depth, limits)
    ensures Reads(TreeOf(v, indent, depth), v, depth, limits)
    decreases v
  {
    hide StrLe, ValidUtf8, Blanks, NatText, DecimalValue, IsInteger, PiecesOk, LiteralOk, LiteralText, ItemTrees, FieldTrees, ItemsOk,
      ItemsFit, ItemNodes, ItemMeanings, PiecesOf, PiecesMeaning;
    match v
    case Int(n) =>
      NatTextReads(AbsoluteValue(n));
    case Str(text) =>
      ValidBytes(text);
      PiecesOfRead(text);
    case Arr(items) =>
      NewLineIsBlank(0, 0);
      assert ItemsFine(items, depth + 1, limits);
      ItemsRead(items, indent, depth, limits);
    case Obj(members) =>
      NewLineIsBlank(0, 0);
      ObjectReads(members, indent, depth, limits);
    case _ =>
  }

  lemma {:induction false} ItemsRead(items: seq<Json>, indent: nat, depth: nat, limits: Limits)
    requires ItemsFine(items, depth + 1, limits)
    ensures var ts := ItemTrees(items, indent, depth);
      ItemsOk(ts) && ItemMeanings(ts) == items && ItemNodes(ts) == CountItems(items) && ItemsFit(ts, depth + 1, limits)
    decreases items
  {
    hide Fine, TreeOk, Meaning, Nodes, Fits, TreeOf, NewLine, Blanks, Count;
    if items != [] {
      NewLineIsBlank(indent, depth);
      NewLineIsBlank(indent, depth + 1);
      TreeReads(items[0], indent, depth + 1, limits);
      ItemsRead(items[1..], indent, depth, limits);
      var ts := ItemTrees(items, indent, depth);
      assert ts[1..] == ItemTrees(items[1..], indent, depth);
    }
  }

  lemma {:induction false} FieldsRead(members: seq<Member>, indent: nat, depth: nat, limits: Limits)
    requires MembersFine(members, depth + 1, limits)
    ensures var ts := FieldTrees(members, indent, depth);
      FieldsOk(ts) && FieldMembers(ts) == members && FieldNodes(ts) == CountMembers(members) && FieldsFit(ts, depth + 1, limits)
    decreases members, 0
  {
    hide Fine, TreeOk, Meaning, Nodes, Fits, TreeOf, NewLine, Blanks, Count, ValidUtf8, PiecesOf, PiecesOk, PiecesMeaning;
    if members != [] {
      NewLineIsBlank(indent, depth);
      NewLineIsBlank(indent, depth + 1);
      ValidBytes(members[0].key);
      PiecesOfRead(members[0].key);
      TreeReads(members[0].value, indent, depth + 1, limits);
      FieldsRead(members[1..], indent, depth, limits);
      var ts := FieldTrees(members, indent, depth);
      assert ts[1..] == FieldTrees(members[1..], indent, depth);
    }
  }

  lemma {:induction false} FieldNamesAre(fields: seq<Field>)
    ensures FieldNames(fields) == Keys(FieldMembers(fields))
  {
    hide PiecesMeaning, Meaning;
    if fields != [] {
      FieldNamesAre(fields[1..]);
    }
  }

  /** Members that come sorted stay as they come. */
  lemma {:induction false} SortedStays(acc: seq<Member>, fields: seq<Field>)
    requires StrictlySorted(StrLe, Keys(acc + FieldMembers(fields)))
    ensures FieldMeanings(acc, fields) == acc + FieldMembers(fields)
    decreases fields
  {
    hide StrLe, PiecesMeaning, Meaning;
    if fields != [] {
      var m := Member(PiecesMeaning(fields[0].name), Meaning(fields[0].value));
      var all := acc + FieldMembers(fields);
      assert all == (acc + [m]) + FieldMembers(fields[1..]);
      forall i | 0 <= i < |acc|
        ensures StrLt(acc[i].key, m.key)
      {
        assert Keys(all)[i] == acc[i].key && Keys(all)[|acc|] == m.key;
      }
      BoundAtEnd(acc, m.key);
      assert Inserted(acc, m.key, m.value) == acc + [m];
      SortedStays(acc + [m], fields[1..]);
    }
  }

  lemma {:induction false} BoundAtEnd(members: seq<Member>, key: string)
    requires forall i :: 0 <= i < |members| ==> StrLt(members[i].key, key)
    ensures LowerBound(members, key) == |members|
  {
    hide StrLt;
    if members != [] {
      BoundAtEnd(members[1..], key);
    }
  }

  lemma {:induction false} ObjectReads(members: seq<Member>, indent: nat, depth: nat, limits: Limits)
    requires Fine(Obj(members), depth, limits)
    ensures Reads(TreeObject("", FieldTrees(members, indent, depth)), Obj(members), depth, limits)
    decreases members, 1
  {
    hide StrLe, ValidUtf8, FieldMembers, FieldTrees, FieldNames, FieldMeanings, FieldsOk, FieldsFit, FieldNodes, CountMembers;
    var fields := FieldTrees(members, indent, depth);
    assert MembersFine(members, depth + 1, limits);
    FieldsRead(members, indent, depth, limits);
    FieldNamesAre(fields);
    assert [] + FieldMembers(fields) == members;
    SortedStays([], fields);
    NewLineIsBlank(0, 0);
  }

  // ----- the printed text is valid UTF-8 --------------------------------------------------------------

  predicate Ascii(s: string) { forall i :: 0 <= i < |s| ==> s[i] as nat < 0x80 }

  lemma {:induction false} AsciiIsValid(s: string)
    requires Ascii(s)
    ensures ValidUtf8(s)
  {
    hide ValidUtf8;
    if s == "" {
      NothingIsValid();
    } else {
      AsciiIsValid(s[1..]);
      AsciiValid(s[0]);
      ValidConcat([s[0]], s[1..]);
      assert s == [s[0]] + s[1..];
    }
  }

  lemma PieceKeepsKind(c: char)
    ensures c as nat < 0x80 ==> Ascii(PieceText(PieceOf(c)))
    ensures c as nat >= 0x80 ==> PieceText(PieceOf(c)) == [c]
  {
  }

  lemma {:induction false} PiecesAppend(a: string, b: string)
    ensures PiecesText(PiecesOf(a + b)) == PiecesText(PiecesOf(a)) + PiecesText(PiecesOf(b))
  {
    hide PieceOf, PieceText;
    if a == "" {
      assert a + b == b;
    } else {
      PiecesAppend(a[1..], b);
      assert (a + b)[1..] == a[1..] + b;
    }
  }

  lemma {:induction false} HighBytesStay(s: string)
    requires forall i :: 0 <= i < |s| ==> s[i] as nat >= 0x80
    ensures PiecesText(PiecesOf(s)) == s
  {
    hide PieceOf, PieceText;
    if s != "" {
      HighBytesStay(s[1..]);
      PieceKeepsKind(s[0]);
      assert s == [s[0]] + s[1..];
    }
  }

  lemma {:induction false} EscapedIsValid(text: string)
    requires ValidUtf8(text)
    ensures ValidUtf8(PiecesText(PiecesOf(text)))
    decreases |text|
  {
    hide ValidUtf8, Starts, PiecesOf, PiecesText, PieceText, PieceOf;
    if text == "" {
      assert PiecesText(PiecesOf("")) == "" by { HighBytesStay(""); }
    } else {
      ValidIff(text);
      var n := LeadLength(text[0]);
      var first, rest := text[..n], text[n..];
      EscapedIsValid(rest);
      FirstEscaped(text);
      PiecesAppend(first, rest);
      assert text == first + rest;
      ValidConcat(PiecesText(PiecesOf(first)), PiecesText(PiecesOf(rest)));
    }
  }

  /** The first character of a valid text, escaped, is valid. */
  lemma FirstEscaped(text: string)
    requires text != "" && ValidUtf8(text)
    ensures var n := LeadLength(text[0]); 0 < n <= |text| && ValidUtf8(PiecesText(PiecesOf(text[..n])))
  {
    hide ValidUtf8, Starts, PieceText, PieceOf;
    ValidIff(text);
    var n := LeadLength(text[0]);
    var first := text[..n];
    if n == 1 {
      PieceKeepsKind(text[0]);
      assert first == [text[0]];
      SingleEscaped(text[0]);
      AsciiIsValid(PieceText(PieceOf(text[0])));
    } else {
      StartsIff(text, n);
      forall i | 0 <= i < |first|
        ensures first[i] as nat >= 0x80
      {
        if i > 0 { assert text[1..n][i - 1] == first[i]; }
      }
      HighBytesStay(first);
      FirstIsValid(text, n);
    }
  }

  lemma SingleEscaped(c: char)
    ensures PiecesText(PiecesOf([c])) == PieceText(PieceOf(c))
  {
    hide PieceText, PieceOf;
    assert [c][1..] == "" && PiecesOf([c]) == [PieceOf(c)] + PiecesOf("");
    assert [PieceOf(c)][1..] == [];
    assert PiecesText([PieceOf(c)]) == PieceText(PieceOf(c)) + PiecesText([]);
  }

  lemma FirstIsValid(text: string, n: nat)
    requires text != "" && n <= |text| && Starts(text, n) && n == LeadLength(text[0])
    ensures ValidUtf8(text[..n])
  {
    hide ValidUtf8, IsEncoding;
    StartsLength(text, n);
    ValidIff(text[..n]);
    NothingIsValid();
    assert text[..n][n..] == "" && text[..n][..n] == text[..n];
  }

  lemma Join3(a: string, b: string, c: string)
    requires ValidUtf8(a) && ValidUtf8(b) && ValidUtf8(c)
    ensures ValidUtf8(a + b + c)
  {
    hide ValidUtf8;
    ValidConcat(a, b);
    ValidConcat(a + b, c);
  }

  lemma QuotedIsValid(text: string)
    requires ValidUtf8(text)
    ensures ValidUtf8(Quoted(PiecesOf(text)))
  {
    hide ValidUtf8, PiecesText, PiecesOf;
    EscapedIsValid(text);
    AsciiIsValid(['"']);
    Join3(['"'], PiecesText(PiecesOf(text)), ['"']);
  }

  lemma {:induction false} NatTextIsAscii(n: nat)
    ensures Ascii(NatText(n))
  {
    if n >= 10 {
      NatTextIsAscii(n / 10);
    }
  }

  lemma LiteralIsAscii(l: Literal)
    requires LiteralOk(l)
    ensures Ascii(LiteralText(l))
  {
    hide Finite;
    assert Ascii(l.digits) && Ascii(FractionText(l.fraction)) && Ascii(ExponentText(l.exponent));
  }

  lemma {:induction false} DumpIsValid(v: Json, indent: nat, depth: nat)
    requires StringsValid(v) && NumbersFit(v)
    ensures ValidUtf8(Text(TreeOf(v, indent, depth)))
    decreases v
  {
    hide ValidUtf8, PiecesOf, NatText, ItemTrees, FieldTrees, ItemsText, FieldsText, Quoted, LiteralText, LiteralOk;
    match v
    case Int(n) =>
      NatTextIsAscii(AbsoluteValue(n));
      AsciiIsValid(Text(TreeOf(v, indent, depth)));
    case Real(literal) =>
      LiteralIsAscii(literal);
      AsciiIsValid(LiteralText(literal));
    case Str(text) =>
      QuotedIsValid(text);
    case Arr(items) =>
      AsciiIsValid("[");
      AsciiIsValid("]");
      ItemsAreValid(items, indent, depth);
      AsciiIsValid("");
      Join3("[", "", "]");
      Join3("[", ItemsText(ItemTrees(items, indent, depth)), "]");
    case Obj(members) =>
      AsciiIsValid("{");
      AsciiIsValid("}");
      FieldsAreValid(members, indent, depth);
      AsciiIsValid("");
      Join3("{", "", "}");
      Join3("{", FieldsText(FieldTrees(members, indent, depth)), "}");
    case _ =>
      AsciiIsValid(Text(TreeOf(v, indent, depth)));
  }

  lemma {:induction false} ItemsAreValid(items: seq<Json>, indent: nat, depth: nat)
    requires forall i :: 0 <= i < |items| ==> StringsValid(items[i]) && NumbersFit(items[i])
    ensures ValidUtf8(ItemsText(ItemTrees(items, indent, depth)))
    decreases items
  {
    hide ValidUtf8, StringsValid, NumbersFit, Text, TreeOf, NewLine;
    AsciiIsValid("");
    AsciiIsValid(",");
    if items != [] {
      var ts := ItemTrees(items, indent, depth);
      NewLineIsAscii(indent, depth);
      NewLineIsAscii(indent, depth + 1);
      DumpIsValid(items[0], indent, depth + 1);
      Join3(ts[0].before, Text(ts[0].value), ts[0].after);
      ItemsAreValid(items[1..], indent, depth);
      assert ts[1..] == ItemTrees(items[1..], indent, depth);
      Join3(ItemText(ts[0]), ",", ItemsText(ts[1..]));
    }
  }

  lemma {:induction false} FieldsAreValid(members: seq<Member>, indent: nat, depth: nat)
    requires forall i :: 0 <= i < |members| ==> ValidUtf8(members[i].key) && StringsValid(members[i].value) && NumbersFit(members[i].value)
    ensures ValidUtf8(FieldsText(FieldTrees(members, indent, depth)))
    decreases members
  {
    hide ValidUtf8, StringsValid, NumbersFit, Text, TreeOf, NewLine, Quoted, PiecesOf;
    AsciiIsValid("");
    AsciiIsValid(",");
    if members != [] {
      var ts := FieldTrees(members, indent, depth);
      var f := ts[0];
      NewLineIsAscii(indent, depth);
      NewLineIsAscii(indent, depth + 1);
      QuotedIsValid(members[0].key);
      DumpIsValid(members[0].value, indent, depth + 1);
      AsciiIsValid("" + ":" + f.afterColon);
      Join3(f.before, Quoted(f.name), "" + ":" + f.afterColon);
      Join3(f.before + Quoted(f.name) + ("" + ":" + f.afterColon), Text(f.value), f.after);
      assert FieldText(f) == f.before + Quoted(f.name) + ("" + ":" + f.afterColon) + Text(f.value) + f.after;
      FieldsAreValid(members[1..], indent, depth);
      assert ts[1..] == FieldTrees(members[1..], indent, depth);
      Join3(FieldText(f), ",", FieldsText(ts[1..]));
    }
  }

  lemma NewLineIsAscii(indent: nat, depth: nat)
    ensures ValidUtf8(NewLine(indent, depth))
  {
    hide ValidUtf8;
    AsciiIsValid(NewLine(indent, depth));
  }

  // ----- round trip ---------------------------------------------------------------------------------------

  /** Within the limits, as a value and as printed text. */
  ghost predicate Storable(v: Json, indent: nat, limits: Limits) {
    Printable(v) && Small(v, 0, limits) && Count(v) <= limits.maxNodes && |Dump(v, indent)| <= limits.maxBytes
  }

  /** Parsing the compact or the pretty text of a value gives the value back. */
  lemma RoundTrip(v: Json, indent: nat, limits: Limits)
    requires Storable(v, indent, limits)
    ensures Parse(Dump(v, indent), limits) == Ok(v, "")
  {
    hide ValidUtf8, TreeOf, Text, TreeOk, Fits, Nodes, Meaning, Small, WellFormed, StringsValid, NumbersFit, Parse;
    TreeReads(v, indent, 0, limits);
    DumpIsValid(v, indent, 0);
    var d := Document("", TreeOf(v, indent, 0), "");
    assert DocumentText(d) == Dump(v, indent);
    NewLineIsBlank(0, 0);
    DocumentParses(d, limits);
  }

  // ----- what is read is within the limits ---------------------------------------------------------

  ghost predicate Bounded(v: Json, depth: nat, limits: Limits) { NumbersFit(v) && Small(v, depth, limits) }

  ghost predicate MembersBounded(members: seq<Member>, depth: nat, limits: Limits) {
    forall i :: 0 <= i < |members| ==> |members[i].key| <= limits.maxString && Bounded(members[i].value, depth, limits)
  }

  lemma {:induction false} TreeBounds(t: Tree, depth: nat, limits: Limits)
    requires TreeOk(t) && Fits(t, depth, limits)
    ensures Bounded(Meaning(t), depth, limits) && Count(Meaning(t)) == Nodes(t)
    decreases t
  {
    hide PiecesMeaning, NumberValue, PiecesOk, IsInteger, LiteralOk, Blanks, UniqueNames, ItemsOk, FieldsOk, ItemsFit, FieldsFit, ItemNodes,
      FieldNodes, ItemMeanings, FieldMeanings;
    match t
    case TreeArray(_, items) =>
      ItemsBounds(items, depth + 1, limits);
    case TreeObject(_, fields) =>
      FieldsBounds([], fields, depth + 1, limits);
      assert CountMembers([]) == 0;
    case _ =>
  }

  lemma {:induction false} ItemsBounds(items: seq<Item>, depth: nat, limits: Limits)
    requires ItemsOk(items) && ItemsFit(items, depth, limits)
    ensures forall i :: 0 <= i < |items| ==> Bounded(ItemMeanings(items)[i], depth, limits)
    ensures CountItems(ItemMeanings(items)) == ItemNodes(items)
    decreases items
  {
    hide TreeOk, Fits, Meaning, Nodes, Bounded;
    if items != [] {
      TreeBounds(items[0].value, depth, limits);
      ItemsBounds(items[1..], depth, limits);
    }
  }

  lemma {:induction false} CountsApart(x: seq<Member>, y: seq<Member>)
    ensures CountMembers(x + y) == CountMembers(x) + CountMembers(y)
  {
    if x == [] {
      assert x + y == y;
    } else {
      CountsApart(x[1..], y);
      assert (x + y)[1..] == x[1..] + y;
    }
  }

  lemma InsertedCounts(members: seq<Member>, key: string, value: Json)
    ensures CountMembers(Inserted(members, key, value)) == CountMembers(members) + Count(value)
  {
    hide Count, LowerBound;
    var p := LowerBound(members, key);
    var m := [Member(key, value)];
    CountsApart(members[..p] + m, members[p..]);
    CountsApart(members[..p], m);
    CountsApart(members[..p], members[p..]);
    assert members == members[..p] + members[p..];
    assert m[1..] == [];
  }

  lemma {:induction false} FieldsBounds(acc: seq<Member>, fields: seq<Field>, depth: nat, limits: Limits)
    requires FieldsOk(fields) && FieldsFit(fields, depth, limits) && MembersBounded(acc, depth, limits)
    ensures MembersBounded(FieldMeanings(acc, fields), depth, limits)
    ensures CountMembers(FieldMeanings(acc, fields)) == CountMembers(acc) + FieldNodes(fields)
    decreases fields
  {
    hide TreeOk, Fits, Meaning, Nodes, Bounded, PiecesMeaning, LowerBound, Count;
    if fields != [] {
      var name, value := PiecesMeaning(fields[0].name), Meaning(fields[0].value);
      TreeBounds(fields[0].value, depth, limits);
      InsertedCounts(acc, name, value);
      FieldsBounds(Inserted(acc, name, value), fields[1..], depth, limits);
    }
  }

  /** A value is read back from its text exactly when it and its text are within the limits. */
  lemma RoundTripIff(v: Json, indent: nat, limits: Limits)
    ensures Parse(Dump(v, indent), limits) == Ok(v, "") <==> Storable(v, indent, limits)
  {
    hide ParseValue, TreeOf, Text, TreeOk, Fits, Meaning, Small, WellFormed, StringsValid, NumbersFit, Blanks, ValidUtf8;
    if Storable(v, indent, limits) {
      RoundTrip(v, indent, limits);
    }
    if Parse(Dump(v, indent), limits) == Ok(v, "") {
      ParsedStringsAreValid(Dump(v, indent), limits);
      var d := ParsedDocument(Dump(v, indent), limits);
      TreeBounds(d.value, 0, limits);
    }
  }

  /** So values with the same text are the same value. */
  lemma DumpDecides(v: Json, w: Json, indent: nat, limits: Limits)
    requires Storable(v, indent, limits) && Storable(w, indent, limits)
    ensures Dump(v, indent) == Dump(w, indent) <==> v == w
  {
    hide Storable, Dump, Parse;
    RoundTrip(v, indent, limits);
    RoundTrip(w, indent, limits);
  }
}