/**
 * Whole documents: the parser accepts exactly the texts of the grammar within its limits, and every
 * string of the value it returns is valid UTF-8 (src/json.cpp:443-799).
 */
module JsonDocuments {
  import opened Identities
  import opened Ordering
  import opened JsonValues
  import opened JsonGrammar
  import opened JsonMembers
  import opened JsonParsing
  import opened JsonComplete
  import opened JsonSound
  import opened Utf8

  /** A JSON text (section 2): a value with blanks around it. */
  datatype Document = Document(before: string, value: Tree, after: string)

  function DocumentText(d: Document): string { d.before + (Text(d.value) + d.after) }

  predicate InGrammar(d: Document) { Blanks(d.before) && TreeOk(d.value) && Blanks(d.after) }

  predicate WithinLimits(d: Document, limits: Limits) {
    && Fits(d.value, 0, limits) && Nodes(d.value) <= limits.maxNodes && |DocumentText(d)| <= limits.maxBytes
  }

  ghost predicate IsDocumentOf(d: Document, text: string, limits: Limits, v: Json) {
    InGrammar(d) && WithinLimits(d, limits) && DocumentText(d) == text && Meaning(d.value) == v
  }

  lemma DocumentParses(d: Document, limits: Limits)
    requires InGrammar(d) && WithinLimits(d, limits) && ValidUtf8(DocumentText(d))
    ensures Parse(DocumentText(d), limits) == Ok(Meaning(d.value), "")
  {
    hide ParseValue, Text, TreeOk, Fits, Nodes, Meaning, ValidUtf8;
    SkipsToValue(d.before, d.value, d.after);
    assert Ends(d.after);
    ValueComplete(d.value, d.after, 0, 0, limits);
    BlanksSkipped(d.after, "");
    assert d.after + "" == d.after;
  }

  lemma ParsedDocument(text: string, limits: Limits) returns (d: Document)
    requires Parse(text, limits).Ok?
    ensures ValidUtf8(text) && IsDocumentOf(d, text, limits, Parse(text, limits).value)
    ensures Parse(text, limits).rest == ""
  {
    hide ParseValue, Text, TreeOk, Fits, Nodes, Meaning, ValidUtf8, Blanks, SkipBlanks;
    var before := BlanksTaken(text);
    var t := ValueSound(SkipBlanks(text), 0, 0, limits);
    var after := BlanksTaken(ParseValue(SkipBlanks(text), 0, 0, limits).rest);
    assert after + "" == after;
    d := Document(before, t, after);
  }

  /**
   * The parser accepts a text, with a given value, exactly when the text is valid UTF-8 and is, within
   * the limits, a text of the grammar that has that meaning.
   */
  lemma ParseIff(text: string, limits: Limits, v: Json)
    ensures Parse(text, limits) == Ok(v, "") <==> ValidUtf8(text) && exists d :: IsDocumentOf(d, text, limits, v)
  {
    hide Parse, InGrammar, WithinLimits, DocumentText, Meaning, ValidUtf8;
    if Parse(text, limits) == Ok(v, "") {
      var d := ParsedDocument(text, limits);
    }
    if ValidUtf8(text) && exists d :: IsDocumentOf(d, text, limits, v) {
      var d :| IsDocumentOf(d, text, limits, v);
      DocumentParses(d, limits);
    }
  }

  // ----- the members of an object ------------------------------------------------------------

  function FieldMembers(fields: seq<Field>): seq<Member> {
    if fields == [] then []
    else [Member(PiecesMeaning(fields[0].name), Meaning(fields[0].value))] + FieldMembers(fields[1..])
  }

  /** The members of a parsed object are those of its text, sorted by key. */
  lemma {:induction false} MembersAreFields(acc: seq<Member>, fields: seq<Field>)
    requires FieldsOk(fields) && NewNames(acc, FieldNames(fields)) && StrictlySorted(StrLe, Keys(acc))
    ensures StrictlySorted(StrLe, Keys(FieldMeanings(acc, fields)))
    ensures multiset(FieldMeanings(acc, fields)) == multiset(acc) + multiset(FieldMembers(fields))
    decreases fields
  {
    hide StrLe, StrictlySorted, NewNames, Meaning, PiecesMeaning, FieldOk, LowerBound;
    if fields != [] {
      var name, value := PiecesMeaning(fields[0].name), Meaning(fields[0].value);
      assert FieldNames(fields)[0] == name && FieldNames(fields)[1..] == FieldNames(fields[1..]);
      FirstNameNew(acc, FieldNames(fields));
      InsertedSorted(acc, name, value);
      NewNamesRest(acc, FieldNames(fields), value);
      MembersAreFields(Inserted(acc, name, value), fields[1..]);
      assert acc == acc[..LowerBound(acc, name)] + acc[LowerBound(acc, name)..];
    }
  }

  ghost predicate AllWellFormed(members: seq<Member>) { forall m :: m in members ==> WellFormed(m.value) }

  /** What is parsed keeps the invariant of the value type. */
  lemma {:induction false} MeaningWellFormed(t: Tree)
    requires TreeOk(t)
    ensures WellFormed(Meaning(t))
    decreases t
  {
    hide StrLe, PiecesMeaning, NumberValue;
    match t
    case TreeArray(_, items) =>
      ItemsWellFormed(items);
    case TreeObject(_, fields) =>
      FieldsWellFormed(fields);
      FirstNamesNew(fields);
      assert Keys([]) == [];
      MembersAreFields([], fields);
      var members := FieldMeanings([], fields);
      forall i | 0 <= i < |members|
        ensures WellFormed(members[i].value)
      {
        assert members[i] in multiset(members);
        assert members[i] in FieldMembers(fields);
      }
    case _ =>
  }

  lemma {:induction false} ItemsWellFormed(items: seq<Item>)
    requires ItemsOk(items)
    ensures forall i :: 0 <= i < |items| ==> WellFormed(ItemMeanings(items)[i])
    decreases items
  {
    hide WellFormed, Meaning, TreeOk;
    if items != [] {
      MeaningWellFormed(items[0].value);
      ItemsWellFormed(items[1..]);
    }
  }

  lemma {:induction false} FieldsWellFormed(fields: seq<Field>)
    requires FieldsOk(fields)
    ensures AllWellFormed(FieldMembers(fields))
    decreases fields
  {
    hide WellFormed, Meaning, TreeOk, PiecesMeaning;
    if fields != [] {
      MeaningWellFormed(fields[0].value);
      FieldsWellFormed(fields[1..]);
    }
  }

  // ----- strings of the result are valid UTF-8 -------------------------------------------------

  ghost predicate StringsValid(v: Json) {
    match v
    case Str(text) => ValidUtf8(text)
    case Arr(items) => forall i :: 0 <= i < |items| ==> StringsValid(items[i])
    case Obj(members) => forall i :: 0 <= i < |members| ==> ValidUtf8(members[i].key) && StringsValid(members[i].value)
    case _ => true
  }

  lemma {:induction false} DropAscii(s: string, n: nat)
    requires ValidUtf8(s) && n <= |s| && forall i :: 0 <= i < n ==> s[i] as nat < 0x80
    ensures ValidUtf8(s[n..])
    decreases n
  {
    hide ValidUtf8;
    if n == 0 {
      assert s[0..] == s;
    } else {
      assert s == [] + [s[0]] + s[1..];
      ValidSplit([], s[0], s[1..]);
      DropAscii(s[1..], n - 1);
      assert s[1..][n - 1..] == s[n..];
    }
  }

  lemma {:induction false} SkipKeepsValid(s: string)
    requires ValidUtf8(s)
    ensures ValidUtf8(SkipBlanks(s))
  {
    hide ValidUtf8;
    if s != "" && IsBlank(s[0]) {
      DropAscii(s, 1);
      SkipKeepsValid(s[1..]);
    }
  }

  lemma UnicodeKeepsValid(s: string)
    requires ValidUtf8(s) && ParseUnicode(s).Ok?
    ensures ValidUtf8(ParseUnicode(s).rest) && ValidUtf8(ParseUnicode(s).value)
  {
    hide ValidUtf8, Hex4, Encode, HexValue;
    var high, rest := s[..4], s[4..];
    DropAscii(s, 4);
    if HighSurrogate(Hex4(high)) {
      DropAscii(rest, 2);
      assert forall i :: 0 <= i < 4 ==> rest[2..][i] == rest[2..][..4][i];
      DropAscii(rest[2..], 4);
      EncodeValid(0x10000 + (Hex4(high) - 0xD800) * 1024 + (Hex4(rest[2..][..4]) - 0xDC00));
    } else {
      EncodeValid(Hex4(high));
    }
  }

  lemma EscapeKeepsValid(s: string)
    requires ValidUtf8(s) && ParseEscape(s).Ok?
    ensures ValidUtf8(ParseEscape(s).rest) && ValidUtf8(ParseEscape(s).value)
  {
    hide ValidUtf8, ParseUnicode;
    if s[0] in SHORT_ESCAPES {
      DropAscii(s, 1);
      AsciiValid(Unescaped(s[0]));
    } else {
      DropAscii(s, 1);
      UnicodeKeepsValid(s[1..]);
    }
  }

  lemma {:induction false} CharsKeepValid(s: string, out: string, max: nat)
    requires ValidUtf8(out + s) && ParseChars(s, out, max).Ok?
    ensures ValidUtf8(ParseChars(s, out, max).value) && ValidUtf8(ParseChars(s, out, max).rest)
    decreases |s|
  {
    hide ValidUtf8, ParseEscape;
    if s[0] == '"' || s[0] == '\\' {
      assert out + s == out + [s[0]] + s[1..];
      ValidSplit(out, s[0], s[1..]);
      if s[0] == '\\' {
        EscapeKeepsValid(s[1..]);
        var c, rest := ParseEscape(s[1..]).value, ParseEscape(s[1..]).rest;
        ValidConcat(out, c);
        ValidConcat(out + c, rest);
        CharsKeepValid(rest, out + c, max);
      }
    } else {
      assert (out + [s[0]]) + s[1..] == out + s;
      CharsKeepValid(s[1..], out + [s[0]], max);
    }
  }

  lemma {:induction false} RunIsAscii(s: string)
    ensures forall i :: 0 <= i < DigitRun(s) ==> s[i] as nat < 0x80
  {
    if s != "" && IsDigit(s[0]) {
      RunIsAscii(s[1..]);
      forall i | 0 <= i < DigitRun(s)
        ensures s[i] as nat < 0x80
      {
        if i > 0 { assert s[i] == s[1..][i - 1]; }
      }
    }
  }

  lemma NumberKeepsValid(s: string)
    requires ValidUtf8(s) && ParseNumber(s).Ok?
    ensures ValidUtf8(ParseNumber(s).rest)
  {
    hide ValidUtf8, DigitRun, NumberFrom, ParseFraction, ParseExponent;
    var s1 := if s[0] == '-' then s[1..] else s;
    if s[0] == '-' { DropAscii(s, 1); }
    RunIsAscii(s1);
    var n := if s1[0] == '0' then 1 else DigitRun(s1);
    DropAscii(s1, n);
    FractionKeepsValid(s1[n..]);
    ExponentKeepsValid(ParseFraction(s1[n..]).rest);
    NumberFromRest(s[0] == '-', s1[..n], ParseFraction(s1[n..]).value, ParseExponent(ParseFraction(s1[n..]).rest).value,
                   ParseExponent(ParseFraction(s1[n..]).rest).rest);
  }

  lemma NumberFromRest(negative: bool, digits: string, fraction: Option<string>, exponent: Option<Exponent>, rest: string)
    ensures NumberFrom(negative, digits, fraction, exponent, rest).Ok? ==>
      NumberFrom(negative, digits, fraction, exponent, rest).rest == rest
  {
    hide NumberValue, Finite, LiteralText;
  }

  lemma DigitsKeepValid(s: string)
    requires ValidUtf8(s) && ParseDigits(s).Ok?
    ensures ValidUtf8(ParseDigits(s).rest)
  {
    hide ValidUtf8, DigitRun;
    RunIsAscii(s);
    DropAscii(s, DigitRun(s));
  }

  lemma FractionKeepsValid(s: string)
    requires ValidUtf8(s) && ParseFraction(s).Ok?
    ensures ValidUtf8(ParseFraction(s).rest)
  {
    hide ValidUtf8, ParseDigits;
    if s != "" && s[0] == '.' {
      DropAscii(s, 1);
      DigitsKeepValid(s[1..]);
    }
  }

  lemma ExponentKeepsValid(s: string)
    requires ValidUtf8(s) && ParseExponent(s).Ok?
    ensures ValidUtf8(ParseExponent(s).rest)
  {
    hide ValidUtf8, ParseDigits;
    if s != "" && (s[0] == 'e' || s[0] == 'E') {
      var sign := SignAt(s[1..]);
      DropAscii(s, 1);
      DropAscii(s[1..], |sign|);
      DigitsKeepValid(s[1..][|sign|..]);
    }
  }

  lemma LiteralKeepsValid(s: string, text: string, json: Json)
    requires ValidUtf8(s) && text != "" && ParseLiteral(s, text, json).Ok?
    requires forall i :: 0 <= i < |text| ==> text[i] as nat < 0x80
    ensures ValidUtf8(ParseLiteral(s, text, json).rest) && ParseLiteral(s, text, json).value == json
  {
    hide ValidUtf8;
    DropAscii(s, |text|);
  }

  ghost predicate AllValid(items: seq<Json>) { forall i :: 0 <= i < |items| ==> StringsValid(items[i]) }

  ghost predicate MembersValid(members: seq<Member>) {
    forall i :: 0 <= i < |members| ==> ValidUtf8(members[i].key) && StringsValid(members[i].value)
  }

  ghost predicate ValidResult(r: Parsed<Counted>) { r.Ok? && ValidUtf8(r.rest) && StringsValid(r.value.json) }

  lemma {:induction false} ItemsKeepValid(s: string, depth: nat, nodes: nat, items: seq<Json>, limits: Limits)
    requires ValidUtf8(s) && AllValid(items) && ParseItems(s, depth, nodes, items, limits).Ok?
    ensures ValidResult(ParseItems(s, depth, nodes, items, limits))
    decreases |s|, 1
  {
    hide ValidUtf8, StringsValid, ParseValue, SkipBlanks, MAX_COLLECTION;
    SkipKeepsValid(s);
    ValueKeepsValid(SkipBlanks(s), depth + 1, nodes, limits);
    var v := ParseValue(SkipBlanks(s), depth + 1, nodes, limits);
    SkipKeepsValid(v.rest);
    var s1, items' := SkipBlanks(v.rest), items + [v.value.json];
    DropAscii(s1, 1);
    assert AllValid(items');
    if s1[0] == ',' {
      ItemsKeepValid(s1[1..], depth, v.value.nodes, items', limits);
    } else {
      ArrayValid(items');
    }
  }

  lemma ArrayValid(items: seq<Json>)
    requires AllValid(items)
    ensures StringsValid(Arr(items))
  {
  }

  lemma ObjectValid(members: seq<Member>)
    requires MembersValid(members)
    ensures StringsValid(Obj(members))
  {
  }

  lemma NameKeepsValid(s: string, limits: Limits)
    requires ValidUtf8(s) && ParseName(s, limits).Ok?
    ensures ValidUtf8(ParseName(s, limits).rest) && ValidUtf8(ParseName(s, limits).value)
  {
    hide ValidUtf8, ParseChars, SkipBlanks;
    SkipKeepsValid(s);
    var s1 := SkipBlanks(s);
    DropAscii(s1, 1);
    assert "" + s1[1..] == s1[1..];
    CharsKeepValid(s1[1..], "", limits.maxString);
    var rest := ParseChars(s1[1..], "", limits.maxString).rest;
    SkipKeepsValid(rest);
    var s2 := SkipBlanks(rest);
    DropAscii(s2, 1);
    SkipKeepsValid(s2[1..]);
  }

  lemma InsertedValid(members: seq<Member>, key: string, value: Json)
    requires MembersValid(members) && ValidUtf8(key) && StringsValid(value)
    ensures MembersValid(Inserted(members, key, value))
  {
    hide ValidUtf8, StringsValid, LowerBound;
  }

  lemma {:induction false} FieldsKeepValid(s: string, depth: nat, nodes: nat, members: seq<Member>, limits: Limits)
    requires ValidUtf8(s) && MembersValid(members) && ParseFields(s, depth, nodes, members, limits).Ok?
    ensures ValidResult(ParseFields(s, depth, nodes, members, limits))
    decreases |s|, 1
  {
    hide ValidUtf8, StringsValid, ParseValue, ParseName, SkipBlanks, MAX_COLLECTION, Inserted, MembersValid;
    NameKeepsValid(s, limits);
    var name := ParseName(s, limits);
    ValueKeepsValid(name.rest, depth + 1, nodes, limits);
    var v := ParseValue(name.rest, depth + 1, nodes, limits);
    SkipKeepsValid(v.rest);
    var s1, members' := SkipBlanks(v.rest), Inserted(members, name.value, v.value.json);
    DropAscii(s1, 1);
    InsertedValid(members, name.value, v.value.json);
    if s1[0] == ',' {
      FieldsKeepValid(s1[1..], depth, v.value.nodes, members', limits);
    } else {
      ObjectValid(members');
    }
  }

  lemma {:induction false} ValueKeepsValid(s: string, depth: nat, nodes: nat, limits: Limits)
    requires ValidUtf8(s) && ParseValue(s, depth, nodes, limits).Ok?
    ensures ValidResult(ParseValue(s, depth, nodes, limits))
    decreases |s|, 0
  {
    hide ValidUtf8, ParseItems, ParseFields, ParseNumber, ParseLiteral, ParseChars, SkipBlanks;
    if s[0] == '{' || s[0] == '[' {
      DropAscii(s, 1);
      SkipKeepsValid(s[1..]);
      var s1 := SkipBlanks(s[1..]);
      if s1 != "" && ((s[0] == '{' && s1[0] == '}') || (s[0] == '[' && s1[0] == ']')) {
        DropAscii(s1, 1);
      } else if s[0] == '{' {
        FieldsKeepValid(s1, depth, nodes + 1, [], limits);
      } else {
        ItemsKeepValid(s1, depth, nodes + 1, [], limits);
      }
    } else if s[0] == '"' {
      DropAscii(s, 1);
      assert "" + s[1..] == s[1..];
      CharsKeepValid(s[1..], "", limits.maxString);
    } else if s[0] == 't' {
      LiteralKeepsValid(s, "true", Bool(true));
    } else if s[0] == 'f' {
      LiteralKeepsValid(s, "false", Bool(false));
    } else if s[0] == 'n' {
      LiteralKeepsValid(s, "null", Null);
    } else {
      NumberKeepsValid(s);
      NumberIsNumber(s);
    }
  }

  lemma NumberIsNumber(s: string)
    requires ParseNumber(s).Ok?
    ensures ParseNumber(s).value.Int? || ParseNumber(s).value.Real?
  {
    hide NumberValue, Finite, LiteralText, ParseFraction, ParseExponent, DigitRun;
  }

  /** Every key and string of a parsed document is valid UTF-8. */
  lemma ParsedStringsAreValid(text: string, limits: Limits)
    requires Parse(text, limits).Ok?
    ensures StringsValid(Parse(text, limits).value) && WellFormed(Parse(text, limits).value)
  {
    hide ValidUtf8, StringsValid, ParseValue, SkipBlanks, InGrammar, WithinLimits;
    var d := ParsedDocument(text, limits);
    MeaningWellFormed(d.value) by { InGrammarTree(d); }
    SkipKeepsValid(text);
    ValueKeepsValid(SkipBlanks(text), 0, 0, limits);
  }

  lemma InGrammarTree(d: Document)
    requires InGrammar(d)
    ensures TreeOk(d.value)
  {
  }
}
