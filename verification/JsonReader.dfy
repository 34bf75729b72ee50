/** The parser with its cursor and node count (src/json.cpp:443-799), and the printer's buffer (264-374). */
module JsonReader {
  import opened Identities
  import opened Ordering
  import opened JsonValues
  import opened JsonGrammar
  import opened JsonMembers
  import opened JsonParsing
  import opened JsonPrinter
  import opened JsonDocuments
  import opened Utf8

  type Reading<+T> = Result<T, ErrorCode>

  class Parser {
    const text: string
    const limits: Limits
    var cursor: nat
    var nodes: nat

    constructor (text: string, limits: Limits)
      ensures this.text == text && this.limits == limits && cursor == 0 && nodes == 0
    {
      this.text := text;
      this.limits := limits;
      cursor, nodes := 0, 0;
    }

    ghost predicate Valid() reads this`cursor { cursor <= |text| }

    /** The text from the cursor on. */
    ghost function Rest(): string
      requires Valid()
      reads this`cursor
    {
      text[cursor..]
    }

    /** The outcome is that of parsing what was left, and the cursor stands after what was parsed. */
    ghost predicate Did<T>(r: Reading<T>, p: Parsed<T>)
      reads this`cursor
    {
      match p
      case Err(code) => r == Failure(code)
      case Ok(value, rest) => r == Success(value) && Valid() && Rest() == rest
    }

    ghost predicate DidValue(r: Reading<Json>, p: Parsed<Counted>)
      reads this
    {
      match p
      case Err(code) => r == Failure(code)
      case Ok(v, rest) => r == Success(v.json) && nodes == v.nodes && Valid() && Rest() == rest
    }

    method SkipWhitespace()
      requires Valid()
      modifies this`cursor
      ensures Valid() && Rest() == SkipBlanks(old(Rest())) && cursor >= old(cursor)
    {
      while cursor < |text|
        invariant Valid() && cursor >= old(cursor) && SkipBlanks(Rest()) == SkipBlanks(old(Rest()))
      {
        var c := text[cursor];
        if c == ' ' || c == '\t' || c == '\n' || c == '\r' {
          assert Rest()[1..] == text[cursor + 1..];
          cursor := cursor + 1;
          continue;
        }
        break;
      }
    }

    method ReadHex4() returns (r: Reading<nat>)
      requires Valid()
      modifies this`cursor
      ensures Did(r, ParseHex4(old(Rest())))
      ensures cursor >= old(cursor)
    {
      if cursor + 4 > |text| {
        return Failure(ParseError);
      }
      ghost var h := Rest()[..4];
      var value := 0;
      for i := 0 to 4
        invariant forall k :: 0 <= k < i ==> IsHex(h[k])
        invariant value == HexRun(h[..i])
      {
        var c := text[cursor + i];
        var digit := 0;
        assert h[i] == c;
        if '0' <= c <= '9' {
          digit := c as nat - '0' as nat;
        } else if 'a' <= c <= 'f' {
          digit := c as nat - 'a' as nat + 10;
        } else if 'A' <= c <= 'F' {
          digit := c as nat - 'A' as nat + 10;
        } else {
          return Failure(ParseError);
        }
        assert h[..i + 1][..i] == h[..i];
        value := 16 * value + digit;
      }
      HexRunIs(h);
      assert Rest()[4..] == text[cursor + 4..];
      cursor := cursor + 4;
      return Success(value);
    }

    /** The code point of a \\u escape, with its second half when it is a surrogate pair. */
    method ReadUnicode() returns (r: Reading<string>)
      requires Valid()
      modifies this`cursor
      ensures Did(r, ParseUnicode(old(Rest())))
      ensures cursor >= old(cursor)
    {
      hide Hex4, IsHex4, Encode;
      var first := ReadHex4();
      if first.Failure? {
        return Failure(first.error);
      }
      var codepoint := first.value;
      if 0xD800 <= codepoint <= 0xDBFF {
        if cursor + 1 >= |text| || text[cursor] != '\\' || text[cursor + 1] != 'u' {
          return Failure(EncodingError);
        }
        assert Rest()[2..] == text[cursor + 2..];
        cursor := cursor + 2;
        var second := ReadHex4();
        if second.Failure? {
          return Failure(second.error);
        }
        var low := second.value;
        if low < 0xDC00 || low > 0xDFFF {
          return Failure(EncodingError);
        }
        codepoint := 0x10000 + (codepoint - 0xD800) * 1024 + (low - 0xDC00);
      } else if 0xDC00 <= codepoint <= 0xDFFF {
        return Failure(EncodingError);
      }
      return Success(Encode(codepoint));
    }

    /** What the escape after a backslash stands for. */
    method ReadEscape() returns (r: Reading<string>)
      requires Valid()
      modifies this`cursor
      ensures Did(r, ParseEscape(old(Rest())))
      ensures cursor >= old(cursor)
    {
      hide ParseUnicode;
      if cursor >= |text| {
        return Failure(ParseError);
      }
      var escape := text[cursor];
      assert Rest()[1..] == text[cursor + 1..];
      cursor := cursor + 1;
      if escape == 'u' {
        r := ReadUnicode();
        return;
      }
      match escape
      case '"' => r := Success("\"");
      case '\\' => r := Success("\\");
      case '/' => r := Success("/");
      case 'b' => r := Success("\U{0008}");
      case 'f' => r := Success("\U{000C}");
      case 'n' => r := Success("\n");
      case 'r' => r := Success("\r");
      case 't' => r := Success("\t");
      case _ => r := Failure(ParseError);
    }

    /** The characters of a string, from its opening quote to its closing one. */
    method ReadString() returns (r: Reading<string>)
      requires Valid() && cursor < |text|
      modifies this`cursor
      ensures Did(r, ParseChars(old(Rest())[1..], "", limits.maxString))
      ensures cursor > old(cursor)
    {
      hide ParseEscape;
      ghost var goal := ParseChars(Rest()[1..], "", limits.maxString);
      assert Rest()[1..] == text[cursor + 1..];
      cursor := cursor + 1;
      var out := "";
      while true
        invariant Valid() && cursor > old(cursor)
        invariant ParseChars(Rest(), out, limits.maxString) == goal
        decreases |text| - cursor
      {
        if cursor >= |text| {
          return Failure(ParseError);
        }
        var c := text[cursor];
        assert Rest()[0] == c && Rest()[1..] == text[cursor + 1..];
        if c == '"' {
          cursor := cursor + 1;
          return Success(out);
        }
        if c as nat < 0x20 {
          return Failure(ParseError);
        }
        if c != '\\' {
          out := out + [c];
          cursor := cursor + 1;
          if |out| > limits.maxString {
            return Failure(LimitExceeded);
          }
          continue;
        }
        cursor := cursor + 1;
        var escape := ReadEscape();
        if escape.Failure? {
          return Failure(escape.error);
        }
        out := out + escape.value;
        if |out| > limits.maxString {
          return Failure(LimitExceeded);
        }
      }
    }

    method SkipDigits()
      requires Valid()
      modifies this`cursor
      ensures Valid() && cursor == old(cursor) + DigitRun(old(Rest()))
    {
      while cursor < |text| && '0' <= text[cursor] <= '9'
        invariant old(cursor) <= cursor <= |text|
        invariant DigitRun(old(Rest())) == cursor - old(cursor) + DigitRun(Rest())
      {
        assert Rest()[1..] == text[cursor + 1..];
        cursor := cursor + 1;
      }
    }

    /** A number: an integer, unless it has a fraction or an exponent. */
    method ReadNumber() returns (r: Reading<Json>)
      requires Valid()
      modifies this`cursor
      ensures Did(r, ParseNumber(old(Rest())))
      ensures r.Success? ==> cursor > old(cursor)
    {
      hide ParseUnsigned;
      var negative := cursor < |text| && text[cursor] == '-';
      if negative {
        assert Rest()[1..] == text[cursor + 1..];
        cursor := cursor + 1;
      }
      r := ReadUnsigned(negative);
    }

    method ReadUnsigned(negative: bool) returns (r: Reading<Json>)
      requires Valid()
      modifies this`cursor
      ensures Did(r, ParseUnsigned(negative, old(Rest())))
      ensures r.Success? ==> cursor > old(cursor)
    {
      hide NumberValue, DigitRun, ParseFraction, ParseExponent, NumberFrom;
      if cursor >= |text| || text[cursor] < '0' || text[cursor] > '9' {
        return Failure(ParseError);
      }
      var from := cursor;
      RunIsPositive(Rest());
      if text[cursor] == '0' {
        cursor := cursor + 1;
      } else {
        SkipDigits();
      }
      SliceAt(text, from, cursor);
      var digits := text[from..cursor];
      var fraction := ReadFraction();
      if fraction.Failure? {
        return Failure(fraction.error);
      }
      var exponent := ReadExponent();
      if exponent.Failure? {
        return Failure(exponent.error);
      }
      r := ToNumber(negative, digits, fraction.value, exponent.value);
    }

    /** The conversion of the literal. */
    method ToNumber(negative: bool, digits: string, fraction: Option<string>, exponent: Option<Exponent>) returns (r: Reading<Json>)
      requires Valid()
      ensures Did(r, NumberFrom(negative, digits, fraction, exponent, Rest()))
    {
      hide NumberValue, LiteralText, Finite;
      if fraction.None? && exponent.None? {
        var value := NumberValue(negative, digits);
        return if value < MIN_INT || value > MAX_INT then Failure(NumberOutOfRange) else Success(Int(value));
      }
      var literal := Literal(negative, digits, fraction, exponent);
      r := if |LiteralText(literal)| > MAX_LITERAL || !Finite(literal) then Failure(NumberOutOfRange) else Success(Real(literal));
    }

    /** At least one digit. */
    method ReadDigits() returns (r: Reading<string>)
      requires Valid()
      modifies this`cursor
      ensures Did(r, ParseDigits(old(Rest())))
      ensures cursor >= old(cursor)
    {
      hide DigitRun;
      RunIsPositive(Rest());
      NoRun(Rest());
      if cursor >= |text| || text[cursor] < '0' || text[cursor] > '9' {
        return Failure(ParseError);
      }
      var from := cursor;
      SkipDigits();
      SliceAt(text, from, cursor);
      return Success(text[from..cursor]);
    }

    method ReadFraction() returns (r: Reading<Option<string>>)
      requires Valid()
      modifies this`cursor
      ensures Did(r, ParseFraction(old(Rest())))
      ensures cursor >= old(cursor)
    {
      hide ParseDigits;
      if cursor >= |text| || text[cursor] != '.' {
        return Success(None);
      }
      assert Rest()[1..] == text[cursor + 1..];
      cursor := cursor + 1;
      var digits := ReadDigits();
      r := if digits.Success? then Success(Some(digits.value)) else Failure(digits.error);
    }

    method ReadExponent() returns (r: Reading<Option<Exponent>>)
      requires Valid()
      modifies this`cursor
      ensures Did(r, ParseExponent(old(Rest())))
      ensures cursor >= old(cursor)
    {
      hide ParseDigits;
      if cursor >= |text| || (text[cursor] != 'e' && text[cursor] != 'E') {
        return Success(None);
      }
      var mark := text[cursor];
      assert Rest()[1..] == text[cursor + 1..];
      cursor := cursor + 1;
      var sign := ReadSign();
      var digits := ReadDigits();
      r := if digits.Success? then Success(Some(Exponent(mark, sign, digits.value))) else Failure(digits.error);
    }

    method ReadSign() returns (sign: string)
      requires Valid()
      modifies this`cursor
      ensures Valid() && cursor >= old(cursor)
      ensures sign == SignAt(old(Rest())) && Rest() == old(Rest())[|sign|..]
    {
      if cursor < |text| && (text[cursor] == '+' || text[cursor] == '-') {
        sign := [text[cursor]];
        assert Rest()[1..] == text[cursor + 1..];
        cursor := cursor + 1;
        return;
      }
      sign := "";
      assert Rest()[0..] == Rest();
    }

    /** A literal name: compared with the text at the cursor. */
    method ReadLiteral(name: string, json: Json) returns (r: Reading<Json>)
      requires Valid() && name != ""
      modifies this`cursor
      ensures Did(r, ParseLiteral(old(Rest()), name, json))
      ensures cursor >= old(cursor)
    {
      PrefixAt(text, cursor, name);
      if cursor + |name| <= |text| && text[cursor..cursor + |name|] == name {
        assert Rest()[|name|..] == text[cursor + |name|..];
        cursor := cursor + |name|;
        return Success(json);
      }
      return Failure(ParseError);
    }

    method ReadValue(depth: nat) returns (r: Reading<Json>)
      requires Valid()
      modifies this`cursor, this`nodes
      ensures DidValue(r, ParseValue(old(Rest()), depth, old(nodes), limits))
      ensures r.Success? ==> cursor > old(cursor)
      decreases |text| - cursor, 0
    {
      hide ParseArray, ParseObject, ParseChars, ParseNumber, ParseLiteral;
      if depth > limits.maxDepth {
        return Failure(DepthExceeded);
      }
      nodes := nodes + 1;
      if nodes > limits.maxNodes {
        return Failure(SizeExceeded);
      }
      if cursor >= |text| {
        return Failure(ParseError);
      }
      var c := text[cursor];
      assert Rest()[0] == c && Rest()[1..] == text[cursor + 1..];
      match c
      case '{' => r := ReadObject(depth);
      case '[' => r := ReadArray(depth);
      case '"' =>
        var s := ReadString();
        r := if s.Success? then Success(Str(s.value)) else Failure(s.error);
      case 't' => r := ReadLiteral("true", Bool(true));
      case 'f' => r := ReadLiteral("false", Bool(false));
      case 'n' => r := ReadLiteral("null", Null);
      case _ => r := ReadNumber();
    }

    method ReadArray(depth: nat) returns (r: Reading<Json>)
      requires Valid() && cursor < |text|
      modifies this`cursor, this`nodes
      ensures DidValue(r, ParseArray(old(Rest())[1..], depth, old(nodes), limits))
      ensures r.Success? ==> cursor > old(cursor)
      decreases |text| - cursor - 1, 2
    {
      hide ParseItems, SkipBlanks;
      assert Rest()[1..] == text[cursor + 1..];
      cursor := cursor + 1;
      SkipWhitespace();
      if cursor < |text| && text[cursor] == ']' {
        assert Rest()[1..] == text[cursor + 1..];
        cursor := cursor + 1;
        return Success(Arr([]));
      }
      r := ReadItems(depth);
    }

    method ReadItems(depth: nat) returns (r: Reading<Json>)
      requires Valid()
      modifies this`cursor, this`nodes
      ensures DidValue(r, ParseItems(old(Rest()), depth, old(nodes), [], limits))
      ensures r.Success? ==> cursor > old(cursor)
      decreases |text| - cursor, 1
    {
      hide ParseValue, SkipBlanks, MAX_COLLECTION;
      ghost var goal := ParseItems(Rest(), depth, nodes, [], limits);
      var items := [];
      while true
        invariant Valid() && cursor >= old(cursor)
        invariant ParseItems(Rest(), depth, nodes, items, limits) == goal
        decreases |text| - cursor
      {
        SkipWhitespace();
        var value := ReadValue(depth + 1);
        if value.Failure? {
          return Failure(value.error);
        }
        items := items + [value.value];
        if |items| > MAX_COLLECTION {
          return Failure(LimitExceeded);
        }
        SkipWhitespace();
        if cursor >= |text| {
          return Failure(ParseError);
        }
        assert Rest()[0] == text[cursor] && Rest()[1..] == text[cursor + 1..];
        if text[cursor] == ',' {
          cursor := cursor + 1;
          continue;
        }
        if text[cursor] == ']' {
          cursor := cursor + 1;
          return Success(Arr(items));
        }
        return Failure(ParseError);
      }
    }

    /** A member name, its colon and the blanks around them. */
    method ReadName() returns (r: Reading<string>)
      requires Valid()
      modifies this`cursor
      ensures Did(r, ParseName(old(Rest()), limits))
      ensures r.Success? ==> cursor > old(cursor)
    {
      hide ParseChars, SkipBlanks;
      SkipWhitespace();
      if cursor >= |text| || text[cursor] != '"' {
        return Failure(ParseError);
      }
      var key := ReadString();
      if key.Failure? {
        return Failure(key.error);
      }
      SkipWhitespace();
      if cursor >= |text| || text[cursor] != ':' {
        return Failure(ParseError);
      }
      assert Rest()[1..] == text[cursor + 1..];
      cursor := cursor + 1;
      SkipWhitespace();
      return Success(key.value);
    }

    method ReadObject(depth: nat) returns (r: Reading<Json>)
      requires Valid() && cursor < |text|
      modifies this`cursor, this`nodes
      ensures DidValue(r, ParseObject(old(Rest())[1..], depth, old(nodes), limits))
      ensures r.Success? ==> cursor > old(cursor)
      decreases |text| - cursor - 1, 2
    {
      hide ParseFields, SkipBlanks;
      assert Rest()[1..] == text[cursor + 1..];
      cursor := cursor + 1;
      SkipWhitespace();
      if cursor < |text| && text[cursor] == '}' {
        assert Rest()[1..] == text[cursor + 1..];
        cursor := cursor + 1;
        return Success(Obj([]));
      }
      r := ReadFields(depth);
    }

    method ReadFields(depth: nat) returns (r: Reading<Json>)
      requires Valid()
      modifies this`cursor, this`nodes
      ensures DidValue(r, ParseFields(old(Rest()), depth, old(nodes), [], limits))
      ensures r.Success? ==> cursor > old(cursor)
      decreases |text| - cursor, 1
    {
      hide ParseValue, ParseName, SkipBlanks, MAX_COLLECTION, SortedMembers, Inserted;
      ghost var goal := ParseFields(Rest(), depth, nodes, [], limits);
      var members: seq<Member> := [];
      NoMembersSorted();
      while true
        invariant Valid() && cursor >= old(cursor) && SortedMembers(members)
        invariant ParseFields(Rest(), depth, nodes, members, limits) == goal
        decreases |text| - cursor
      {
        var key := ReadName();
        if key.Failure? {
          return Failure(key.error);
        }
        var value := ReadValue(depth + 1);
        if value.Failure? {
          return Failure(value.error);
        }
        var duplicate;
        duplicate, members := InsertMember(members, key.value, value.value);
        if duplicate {
          return Failure(DuplicateKey);
        }
        if |members| > MAX_COLLECTION {
          return Failure(LimitExceeded);
        }
        SkipWhitespace();
        if cursor >= |text| {
          return Failure(ParseError);
        }
        assert Rest()[0] == text[cursor] && Rest()[1..] == text[cursor + 1..];
        if text[cursor] == ',' {
          cursor := cursor + 1;
          continue;
        }
        if text[cursor] == '}' {
          cursor := cursor + 1;
          return Success(Obj(members));
        }
        return Failure(ParseError);
      }
    }

    /** A whole document. */
    method Run() returns (r: Reading<Json>)
      requires cursor == 0 && nodes == 0
      modifies this`cursor, this`nodes
      ensures match Parse(text, limits)
        case Err(code) => r == Failure(code)
        case Ok(value, rest) => r == Success(value)
    {
      hide ParseValue, SkipBlanks, ValidUtf8;
      if |text| > limits.maxBytes {
        return Failure(SizeExceeded);
      }
      var valid := IsValidUtf8(text);
      if !valid {
        return Failure(EncodingError);
      }
      assert Rest() == text;
      SkipWhitespace();
      var value := ReadValue(0);
      if value.Failure? {
        return value;
      }
      SkipWhitespace();
      if cursor != |text| {
        return Failure(TrailingContent);
      }
      return value;
    }
  }

  lemma NoMembersSorted()
    ensures SortedMembers([])
  {
  }

  /** Puts a member in its place in the sorted list, unless its key is there. */
  method InsertMember(members: seq<Member>, key: string, value: Json) returns (duplicate: bool, r: seq<Member>)
    requires SortedMembers(members)
    ensures SortedMembers(r) && duplicate == (key in Keys(members))
    ensures r == if duplicate then members else Inserted(members, key, value)
  {
    hide StrLt, LowerBound;
    var p := FindLowerBound(members, key);
    if p < |members| && members[p].key == key {
      return true, members;
    }
    InsertedSorted(members, key, value);
    return false, members[..p] + [Member(key, value)] + members[p..];
  }

  /** The text is, within the limits, a text of the grammar with this meaning. */
  ghost predicate Denotes(text: string, limits: Limits, v: Json) {
    ValidUtf8(text) && exists d :: IsDocumentOf(d, text, limits, v)
  }

  /** The entry point accepts exactly the texts of the grammar, with their meaning. */
  method ParseJson(text: string, limits: Limits) returns (r: Reading<Json>)
    ensures match r
      case Success(v) => Denotes(text, limits, v)
      case Failure(_) => forall v :: !Denotes(text, limits, v)
  {
    hide Parse, ValidUtf8, IsDocumentOf;
    var parser := new Parser(text, limits);
    r := parser.Run();
    forall v
      ensures Parse(text, limits) == Ok(v, "") <==> Denotes(text, limits, v)
    {
      ParseIff(text, limits, v);
    }
    NothingLeft(text, limits);
  }

  lemma NothingLeft(text: string, limits: Limits)
    ensures Parse(text, limits).Ok? ==> Parse(text, limits).rest == ""
  {
    hide ParseValue, ValidUtf8;
  }

  // ----- the printer ------------------------------------------------------------------------

  /** One character of a string literal. */
  method Escape(ch: char) returns (s: string)
    ensures s == PieceText(PieceOf(ch))
  {
    match ch
    case '"' => s := "\\\"";
    case '\\' => s := "\\\\";
    case '\U{0008}' => s := "\\b";
    case '\U{000C}' => s := "\\f";
    case '\n' => s := "\\n";
    case '\r' => s := "\\r";
    case '\t' => s := "\\t";
    case _ =>
      if ch as nat < 0x20 {
        s := "\\u00" + [Digit(ch as nat / 16), Digit(ch as nat % 16)];
      } else {
        s := [ch];
      }
  }

  /** Appends a string literal. */
  method AppendEscaped(out: string, text: string) returns (r: string)
    ensures r == out + Quoted(PiecesOf(text))
  {
    hide PieceText, PieceOf;
    r := out + ['"'];
    assert text[0..] == text;
    for i := 0 to |text|
      invariant r + PiecesText(PiecesOf(text[i..])) == out + ['"'] + PiecesText(PiecesOf(text))
    {
      NextPiece(text, i, r);
      var s := Escape(text[i]);
      r := r + s;
    }
    assert text[|text|..] == "" && PiecesText(PiecesOf("")) == "";
    assert r + "" == r;
    r := r + ['"'];
  }

  /** When pretty-printing, a line break and the indentation. */
  method StartLine(out: string, indent: nat, depth: nat) returns (r: string)
    ensures r == out + NewLine(indent, depth)
  {
    r := out;
    if indent > 0 {
      r := r + ['\n'];
      r := r + Spaces(depth * indent);
      assert r == out + ("\n" + Spaces(depth * indent));
    }
  }

  /** Appends the text of a value, indented when asked. */
  method DumpInto(value: Json, out: string, indent: nat, depth: nat) returns (r: string)
    ensures r == out + Text(TreeOf(value, indent, depth))
    decreases value, 1
  {
    hide NewLine, Quoted, PiecesOf, ItemsText, FieldsText, ItemTrees, FieldTrees, NatText, LiteralText;
    match value
    case Null => r := out + "null";
    case Bool(truth) => r := out + BoolText(truth);
    case Int(n) => r := out + (SignText(n < 0) + NatText(AbsoluteValue(n)));
    case Real(literal) => r := out + LiteralText(literal);
    case Str(text) => r := AppendEscaped(out, text);
    case Arr(items) =>
      if items == [] {
        assert ItemTrees(items, indent, depth) == [];
        return out + "[]";
      }
      r := DumpItems(items, out, indent, depth);
    case Obj(members) =>
      if members == [] {
        assert FieldTrees(members, indent, depth) == [];
        return out + "{}";
      }
      r := DumpMembers(members, out, indent, depth);
  }

  /** The compact text, or the pretty one for an indentation that is not zero. */
  method Print(value: Json, indent: nat) returns (r: string)
    ensures r == Dump(value, indent)
  {
    r := DumpInto(value, "", indent, 0);
    assert "" + Dump(value, indent) == Dump(value, indent);
  }

  method DumpItems(items: seq<Json>, out: string, indent: nat, depth: nat) returns (r: string)
    requires items != []
    ensures r == out + Text(TreeArray("", ItemTrees(items, indent, depth)))
    decreases items, 0
  {
    hide NewLine, ItemsLeft, TreeOf, ItemTrees, ItemsText;
    r := out + "[";
    for i := 0 to |items|
      invariant r + ItemsLeft(items, indent, depth, i) == out + "[" + ItemsLeft(items, indent, depth, 0)
    {
      NextItem(items, indent, depth, i, r);
      if i != 0 {
        r := r + ",";
      } else {
        assert r + "" == r;
      }
      r := StartLine(r, indent, depth + 1);
      r := DumpInto(items[i], r, indent, depth + 1);
    }
    ItemsEnd(items, indent, depth, r);
    r := StartLine(r, indent, depth);
    r := r + "]";
    ItemsLeftIs(items, indent, depth, 0);
    assert items[0..] == items;
    assert out + "[" + (ItemsText(ItemTrees(items, indent, depth)) + "]") == out + ("[" + ItemsText(ItemTrees(items, indent, depth)) + "]");
  }

  method DumpMembers(members: seq<Member>, out: string, indent: nat, depth: nat) returns (r: string)
    requires members != []
    ensures r == out + Text(TreeObject("", FieldTrees(members, indent, depth)))
    decreases members, 0
  {
    hide NewLine, MembersLeft, TreeOf, FieldTrees, FieldsText, Quoted, PiecesOf;
    r := out + "{";
    for i := 0 to |members|
      invariant r + MembersLeft(members, indent, depth, i) == out + "{" + MembersLeft(members, indent, depth, 0)
    {
      NextMember(members, indent, depth, i, r);
      if i != 0 {
        r := r + ",";
      } else {
        assert r + "" == r;
      }
      r := StartLine(r, indent, depth + 1);
      r := AppendEscaped(r, members[i].key);
      r := r + ":";
      if indent > 0 {
        r := r + " ";
      } else {
        assert r + "" == r;
      }
      r := DumpInto(members[i].value, r, indent, depth + 1);
    }
    MembersEnd(members, indent, depth, r);
    r := StartLine(r, indent, depth);
    r := r + "}";
    MembersLeftIs(members, indent, depth, 0);
    assert members[0..] == members;
    assert out + "{" + (FieldsText(FieldTrees(members, indent, depth)) + "}") == out + ("{" + FieldsText(FieldTrees(members, indent, depth)) + "}");
  }

  function Separator(i: nat): string { if i != 0 then "," else "" }

  function Space(indent: nat): string { if indent > 0 then " " else "" }

  /** What is still to be written when the loop is at element i. */
  function ItemsLeft(items: seq<Json>, indent: nat, depth: nat, i: nat): string
    decreases |items| - i
  {
    if i >= |items| then NewLine(indent, depth) + "]"
    else
      Separator(i) + (NewLine(indent, depth + 1)
        + (Text(TreeOf(items[i], indent, depth + 1)) + ItemsLeft(items, indent, depth, i + 1)))
  }

  function MembersLeft(members: seq<Member>, indent: nat, depth: nat, i: nat): string
    decreases |members| - i
  {
    if i >= |members| then NewLine(indent, depth) + "}"
    else
      Separator(i) + (NewLine(indent, depth + 1) + (Quoted(PiecesOf(members[i].key)) + (":" + (Space(indent)
        + (Text(TreeOf(members[i].value, indent, depth + 1)) + MembersLeft(members, indent, depth, i + 1))))))
  }

  lemma NextItem(items: seq<Json>, indent: nat, depth: nat, i: nat, r: string)
    requires i < |items|
    ensures r + ItemsLeft(items, indent, depth, i)
         == (((r + Separator(i)) + NewLine(indent, depth + 1)) + Text(TreeOf(items[i], indent, depth + 1))) + ItemsLeft(items, indent, depth, i + 1)
  {
    hide Separator, NewLine, Text, TreeOf;
  }

  lemma ItemsEnd(items: seq<Json>, indent: nat, depth: nat, r: string)
    ensures r + ItemsLeft(items, indent, depth, |items|) == (r + NewLine(indent, depth)) + "]"
  {
    hide NewLine;
  }

  lemma NextMember(members: seq<Member>, indent: nat, depth: nat, i: nat, r: string)
    requires i < |members|
    ensures r + MembersLeft(members, indent, depth, i)
         == ((((((r + Separator(i)) + NewLine(indent, depth + 1)) + Quoted(PiecesOf(members[i].key))) + ":") + Space(indent))
            + Text(TreeOf(members[i].value, indent, depth + 1))) + MembersLeft(members, indent, depth, i + 1)
  {
    hide Separator, NewLine, Text, TreeOf, Space, Quoted, PiecesOf;
  }

  lemma MembersEnd(members: seq<Member>, indent: nat, depth: nat, r: string)
    ensures r + MembersLeft(members, indent, depth, |members|) == (r + NewLine(indent, depth)) + "}"
  {
    hide NewLine;
  }

  lemma {:induction false} ItemsLeftIs(items: seq<Json>, indent: nat, depth: nat, i: nat)
    requires i < |items|
    ensures ItemsLeft(items, indent, depth, i) == Separator(i) + (ItemsText(ItemTrees(items[i..], indent, depth)) + "]")
    decreases |items| - i
  {
    hide Separator, NewLine, Text, TreeOf;
    var ts := ItemTrees(items[i..], indent, depth);
    assert items[i..][1..] == items[i + 1..];
    assert ts[1..] == ItemTrees(items[i + 1..], indent, depth);
    if i + 1 < |items| {
      ItemsLeftIs(items, indent, depth, i + 1);
      assert Separator(i + 1) == "," by { CommaBetween(i + 1); }
      assert ItemText(ts[0]) == NewLine(indent, depth + 1) + Text(ts[0].value);
    } else {
      assert ItemText(ts[0]) == NewLine(indent, depth + 1) + Text(ts[0].value) + NewLine(indent, depth);
    }
  }

  lemma CommaBetween(i: nat)
    requires i > 0
    ensures Separator(i) == ","
  {
  }

  /** A member up to its value. */
  function MemberLine(m: Member, indent: nat, depth: nat): string {
    NewLine(indent, depth + 1) + (Quoted(PiecesOf(m.key)) + (":" + (Space(indent) + Text(TreeOf(m.value, indent, depth + 1)))))
  }

  lemma MembersStep(members: seq<Member>, indent: nat, depth: nat, i: nat)
    requires i < |members|
    ensures MembersLeft(members, indent, depth, i)
         == Separator(i) + (MemberLine(members[i], indent, depth) + MembersLeft(members, indent, depth, i + 1))
  {
    hide Separator, NewLine, Text, TreeOf, Quoted, PiecesOf, Space;
    var m := members[i];
    FiveParts(NewLine(indent, depth + 1), Quoted(PiecesOf(m.key)), Space(indent), Text(TreeOf(m.value, indent, depth + 1)),
      MembersLeft(members, indent, depth, i + 1));
  }

  lemma FirstField(members: seq<Member>, indent: nat, depth: nat)
    requires members != []
    ensures var ts := FieldTrees(members, indent, depth);
      && ts[1..] == FieldTrees(members[1..], indent, depth)
      && FieldText(ts[0]) == MemberLine(members[0], indent, depth) + (if |members| == 1 then NewLine(indent, depth) else "")
  {
    hide NewLine, Text, TreeOf, Quoted, PiecesOf;
    SpaceIs(indent);
    var ts := FieldTrees(members, indent, depth);
    FieldLine(ts[0], MemberLine(members[0], indent, depth));
  }

  lemma {:induction false} MembersLeftIs(members: seq<Member>, indent: nat, depth: nat, i: nat)
    requires i < |members|
    ensures MembersLeft(members, indent, depth, i) == Separator(i) + (FieldsText(FieldTrees(members[i..], indent, depth)) + "}")
    decreases |members| - i
  {
    hide Separator, NewLine, FieldText, MemberLine, FieldTrees, FieldsText, MembersLeft;
    MembersStep(members, indent, depth, i);
    FieldsStep(members[i..], indent, depth);
    assert members[i..][1..] == members[i + 1..];
    if i + 1 < |members| {
      MembersLeftIs(members, indent, depth, i + 1);
      CommaBetween(i + 1);
    } else {
      MembersEnd(members, indent, depth, "");
      assert "" + MembersLeft(members, indent, depth, |members|) == MembersLeft(members, indent, depth, |members|);
      assert "" + NewLine(indent, depth) == NewLine(indent, depth);
    }
  }

  lemma FieldsStep(members: seq<Member>, indent: nat, depth: nat)
    requires members != []
    ensures FieldsText(FieldTrees(members, indent, depth)) == MemberLine(members[0], indent, depth)
      + (if |members| == 1 then NewLine(indent, depth) else "," + FieldsText(FieldTrees(members[1..], indent, depth)))
  {
    hide NewLine, FieldText, MemberLine, FieldTrees;
    FirstField(members, indent, depth);
  }

  lemma SpaceIs(indent: nat)
    ensures Space(indent) == if indent > 0 then " " else ""
  {
  }

  lemma FiveParts(a: string, b: string, d: string, e: string, rest: string)
    ensures a + (b + (":" + (d + (e + rest)))) == (a + (b + (":" + (d + e)))) + rest
  {
  }

  lemma FieldLine(f: Field, line: string)
    requires line == f.before + (Quoted(f.name) + (":" + (f.afterColon + Text(f.value)))) && f.beforeColon == ""
    ensures FieldText(f) == line + f.after
  {
    hide Quoted, Text;
  }

  lemma NextPiece(text: string, i: nat, r: string)
    requires i < |text|
    ensures r + PiecesText(PiecesOf(text[i..])) == (r + PieceText(PieceOf(text[i]))) + PiecesText(PiecesOf(text[i + 1..]))
  {
    hide PieceOf, PieceText;
    assert text[i..][1..] == text[i + 1..];
  }

  lemma SliceAt(text: string, from: nat, to: nat)
    requires from <= to <= |text|
    ensures text[from..][..to - from] == text[from..to] && text[from..][to - from..] == text[to..]
  {
  }

  lemma PrefixAt(text: string, i: nat, name: string)
    requires i <= |text|
    ensures name <= text[i..] <==> i + |name| <= |text| && text[i..i + |name|] == name
  {
    if name <= text[i..] {
      assert text[i..i + |name|] == text[i..][..|name|];
    }
  }

  lemma RunIsPositive(s: string)
    ensures s != "" && IsDigit(s[0]) ==> DigitRun(s) > 0
  {
  }

  lemma NoRun(s: string)
    ensures s == "" || !IsDigit(s[0]) ==> DigitRun(s) == 0
  {
  }

  function HexRun(h: string): nat {
    if h == "" then 0 else 16 * HexRun(h[..|h| - 1]) + (if IsHex(h[|h| - 1]) then HexValue(h[|h| - 1]) else 0)
  }

  lemma HexRunIs(h: string)
    requires IsHex4(h)
    ensures HexRun(h[..4]) == Hex4(h)
  {
    assert h[..4][..3] == h[..3] && h[..3][..2] == h[..2] && h[..2][..1] == h[..1] && h[..1][..0] == "";
    assert HexRun(h[..1]) == HexValue(h[0]);
    assert HexRun(h[..2]) == 16 * HexRun(h[..1]) + HexValue(h[1]);
    assert HexRun(h[..3]) == 16 * HexRun(h[..2]) + HexValue(h[2]);
  }
}
