/** The parser accepts every text of the grammar within its limits (src/json.cpp:443-799). */
module JsonComplete {
  import opened Identities
  import opened JsonValues
  import opened JsonGrammar
  import opened JsonMembers
  import opened JsonParsing
  import opened Utf8

  /** A text that cannot lengthen a number it follows. */
  predicate Ends(s: string) { s == "" || (!IsDigit(s[0]) && !ContinuesNumber(s)) }

  predicate NoBlank(s: string) { s == "" || !IsBlank(s[0]) }

  lemma {:induction false} BlanksSkipped(w: string, s: string)
    requires Blanks(w) && NoBlank(s)
    ensures SkipBlanks(w + s) == s
    decreases |w|
  {
    if w == "" {
      assert w + s == s;
    } else {
      BlanksSkipped(w[1..], s);
      assert (w + s)[1..] == w[1..] + s;
    }
  }

  // ----- strings ---------------------------------------------------------------------

  ghost predicate EscapeParsed(p: Piece, rest: string) {
    && |PieceText(p)| > 0 && PieceText(p)[0] == '\\'
    && ParseEscape(PieceText(p)[1..] + rest) == Ok(PieceMeaning(p), rest)
  }

  lemma ShortComplete(c: char, rest: string)
    requires PieceOk(Short(c))
    ensures EscapeParsed(Short(c), rest)
  {
    assert PieceText(Short(c))[1..] + rest == [c] + rest;
    assert ([c] + rest)[1..] == rest;
  }

  lemma UnicodeComplete(p: Piece, digits: string, rest: string)
    requires PieceOk(p) && PieceText(p) == ['\\', 'u'] + digits
    requires ParseUnicode(digits + rest) == Ok(PieceMeaning(p), rest)
    ensures EscapeParsed(p, rest)
  {
    hide ParseEscape, ParseUnicode, PieceMeaning, PieceOk;
    assert PieceText(p)[1..] + rest == ['u'] + (digits + rest);
    UnicodeEscape(digits + rest);
  }

  lemma EscapeComplete(p: Piece, rest: string)
    requires PieceOk(p) && !p.Plain?
    ensures EscapeParsed(p, rest)
  {
    hide EscapeParsed, PieceMeaning, ParseUnicode, Hex4, IsHex4;
    match p
    case Short(c) =>
      ShortComplete(c, rest);
    case Unit(h) =>
      UnitComplete(h, rest);
      UnicodeComplete(p, h, rest);
    case Pair(high, low) =>
      PairComplete(high, low, rest);
      PairDigits(high, low, rest);
      UnicodeComplete(p, high + (['\\', 'u'] + low), rest);
  }

  lemma PairDigits(high: string, low: string, rest: string)
    ensures var digits := high + (['\\', 'u'] + low);
      PieceText(Pair(high, low)) == ['\\', 'u'] + digits && digits + rest == high + (['\\', 'u'] + (low + rest))
  {
  }

  lemma UnicodeEscape(s: string)
    ensures ParseEscape(['u'] + s) == ParseUnicode(s)
  {
    hide ParseUnicode;
    assert (['u'] + s)[1..] == s;
    assert 'u' !in SHORT_ESCAPES;
  }

  lemma UnitComplete(h: string, rest: string)
    requires PieceOk(Unit(h))
    ensures ParseUnicode(h + rest) == Ok(PieceMeaning(Unit(h)), rest)
  {
    hide Hex4, HexValue, IsHex, Encode;
    assert (h + rest)[..4] == h && (h + rest)[4..] == rest;
  }

  lemma PairComplete(high: string, low: string, rest: string)
    requires PieceOk(Pair(high, low))
    ensures ParseUnicode(high + (['\\', 'u'] + (low + rest))) == Ok(PieceMeaning(Pair(high, low)), rest)
  {
    hide Hex4, HexValue, IsHex, Encode;
    var s := high + (['\\', 'u'] + (low + rest));
    assert s[..4] == high && s[4..] == ['\\', 'u'] + (low + rest);
    assert s[4..][2..] == low + rest;
    assert (low + rest)[..4] == low && (low + rest)[4..] == rest;
  }

  lemma {:induction false} CharsComplete(ps: seq<Piece>, rest: string, out: string, max: nat)
    requires PiecesOk(ps) && |out| + |PiecesMeaning(ps)| <= max
    ensures ParseChars(PiecesText(ps) + (['"'] + rest), out, max) == Ok(out + PiecesMeaning(ps), rest)
    decreases |ps|
  {
    hide PieceText, PieceMeaning, PieceOk, ParseEscape;
    var s := PiecesText(ps) + (['"'] + rest);
    if ps == [] {
      assert s == ['"'] + rest && s[1..] == rest;
      assert out + "" == out;
    } else {
      var p, tail := ps[0], PiecesText(ps[1..]) + (['"'] + rest);
      CharsComplete(ps[1..], rest, out + PieceMeaning(p), max);
      assert (out + PieceMeaning(p)) + PiecesMeaning(ps[1..]) == out + PiecesMeaning(ps);
      assert s == PieceText(p) + tail;
      OnePiece(p, tail, s, out, max);
    }
  }

  lemma OnePiece(p: Piece, tail: string, s: string, out: string, max: nat)
    requires PieceOk(p) && s == PieceText(p) + tail && |out| + |PieceMeaning(p)| <= max
    ensures ParseChars(s, out, max) == ParseChars(tail, out + PieceMeaning(p), max)
  {
    hide ParseEscape, Encode, Hex4, Unescaped, IsHex4;
    if p.Plain? {
      assert s[1..] == tail;
    } else {
      EscapeComplete(p, tail);
      assert s[1..] == PieceText(p)[1..] + tail;
      assert s[0] == '\\';
    }
  }

  // ----- numbers ------------------------------------------------------------------------

  lemma {:induction false} RunOfDigits(digits: string, rest: string)
    requires Digits(digits) && (rest == "" || !IsDigit(rest[0]))
    ensures DigitRun(digits + rest) == |digits|
    decreases |digits|
  {
    if digits == "" {
      assert digits + rest == rest;
    } else {
      RunOfDigits(digits[1..], rest);
      assert (digits + rest)[1..] == digits[1..] + rest;
    }
  }

  lemma NumberComplete(negative: bool, digits: string, rest: string)
    requires TreeOk(TreeNumber(negative, digits)) && Ends(rest)
    ensures ParseNumber(Text(TreeNumber(negative, digits)) + rest) == Ok(Int(NumberValue(negative, digits)), rest)
  {
    hide DecimalValue, NumberValue, LiteralText, Finite, Digits, ParseNumber, ParseFraction, ParseExponent, DigitRun;
    var s := digits + rest;
    assert Text(TreeNumber(negative, digits)) + rest == SignText(negative) + s;
    FirstDigit(digits);
    SignRead(negative, s);
    RunOfDigits(digits, rest);
    assert s[..|digits|] == digits && s[|digits|..] == rest;
    NothingMore(rest);
  }

  lemma FirstDigit(digits: string)
    requires IsInteger(digits)
    ensures IsDigit(digits[0])
  {
  }

  lemma NothingMore(rest: string)
    requires Ends(rest)
    ensures ParseFraction(rest) == Ok(None, rest) && ParseExponent(rest) == Ok(None, rest)
  {
  }

  lemma DigitsComplete(digits: string, rest: string)
    requires digits != "" && Digits(digits) && (rest == "" || !IsDigit(rest[0]))
    ensures ParseDigits(digits + rest) == Ok(digits, rest)
  {
    RunOfDigits(digits, rest);
    assert (digits + rest)[..|digits|] == digits && (digits + rest)[|digits|..] == rest;
  }

  lemma FractionComplete(fraction: Option<string>, rest: string)
    requires FractionOk(fraction) && (rest == "" || (!IsDigit(rest[0]) && rest[0] != '.'))
    ensures ParseFraction(FractionText(fraction) + rest) == Ok(fraction, rest)
  {
    hide ParseDigits, Digits;
    var s := FractionText(fraction) + rest;
    if fraction.Some? {
      assert s[1..] == fraction.value + rest;
      DigitsComplete(fraction.value, rest);
    } else {
      assert s == rest;
    }
  }

  lemma ExponentComplete(exponent: Option<Exponent>, rest: string)
    requires ExponentOk(exponent) && Ends(rest)
    ensures ParseExponent(ExponentText(exponent) + rest) == Ok(exponent, rest)
  {
    hide ParseDigits, Digits, SignAt;
    var s := ExponentText(exponent) + rest;
    if exponent.Some? {
      var e := exponent.value;
      var d := e.digits + rest;
      DigitsStart(e.digits, rest);
      SignComplete(e.sign, d);
      DigitsComplete(e.digits, rest);
      ExponentSplits(e, rest);
    } else {
      assert s == rest;
    }
  }

  lemma ExponentSplits(e: Exponent, rest: string)
    ensures var s := [e.mark] + e.sign + e.digits + rest;
      s[0] == e.mark && s[1..] == e.sign + (e.digits + rest) && s[1..][|e.sign|..] == e.digits + rest
  {
  }

  lemma DigitsStart(digits: string, rest: string)
    requires digits != "" && Digits(digits)
    ensures IsDigit((digits + rest)[0])
  {
  }

  lemma SignComplete(sign: string, d: string)
    requires sign == "" || sign == "+" || sign == "-"
    requires d != "" && IsDigit(d[0])
    ensures SignAt(sign + d) == sign
  {
    if sign == "" {
      assert sign + d == d;
    }
  }

  lemma RealComplete(l: Literal, rest: string)
    requires LiteralOk(l) && Ends(rest)
    ensures ParseNumber(LiteralText(l) + rest) == Ok(Real(l), rest)
  {
    hide Digits, DecimalValue, NumberValue, Finite, ParseFraction, ParseExponent, FractionOk, ExponentOk, LiteralText, FractionText,
      ExponentText, DigitRun, ParseNumber, Ends;
    var s2 := ExponentText(l.exponent) + rest;
    var s3 := FractionText(l.fraction) + s2;
    var s1 := l.digits + s3;
    PartsStart(l, rest);
    LiteralParts(l, rest);
    SignRead(l.negative, s1);
    FractionComplete(l.fraction, s2);
    ExponentComplete(l.exponent, rest);
    assert s1[..|l.digits|] == l.digits && s1[|l.digits|..] == s3;
    RunOfDigits(l.digits, s3);
  }

  /** The sign is read off first. */
  lemma SignRead(negative: bool, s: string)
    requires s != "" && IsDigit(s[0])
    ensures ParseNumber(SignText(negative) + s) == ParseUnsigned(negative, s)
  {
    hide ParseUnsigned;
    var signed := SignText(negative) + s;
    if negative {
      assert signed[1..] == s;
    } else {
      assert signed == s;
    }
  }

  lemma LiteralParts(l: Literal, rest: string)
    requires IsInteger(l.digits)
    ensures var s1 := l.digits + (FractionText(l.fraction) + (ExponentText(l.exponent) + rest));
      LiteralText(l) + rest == SignText(l.negative) + s1 && s1 != "" && IsDigit(s1[0])
  {
    hide FractionText, ExponentText;
  }

  lemma PartsStart(l: Literal, rest: string)
    requires LiteralOk(l) && Ends(rest)
    ensures var s2 := ExponentText(l.exponent) + rest; s2 == "" || (!IsDigit(s2[0]) && s2[0] != '.')
    ensures var s3 := FractionText(l.fraction) + (ExponentText(l.exponent) + rest); s3 == "" || !IsDigit(s3[0])
  {
    hide Finite, Digits, LiteralText;
  }

  // ----- values ----------------------------------------------------------------------------

  /** A value starts with a character that is no blank, separator or closing bracket. */
  lemma TextStarts(t: Tree)
    requires TreeOk(t)
    ensures Text(t) != "" && !IsBlank(Text(t)[0]) && Text(t)[0] != ']' && Text(t)[0] != '}'
  {
  }

  lemma LiteralComplete(s: string, text: string, json: Json, rest: string)
    requires text != "" && s == text + rest
    ensures ParseLiteral(s, text, json) == Ok(json, rest)
  {
    assert s[..|text|] == text && s[|text|..] == rest;
  }

  // ----- arrays --------------------------------------------------------------------------------

  /** What follows the value of the first item, up to the end of the array and beyond. */
  function AfterItem(items: seq<Item>, rest: string): string
    requires items != []
  {
    if |items| == 1 then "]" + rest else "," + (ItemsText(items[1..]) + ("]" + rest))
  }

  lemma ItemsShape(items: seq<Item>, rest: string)
    requires items != []
    ensures ItemsText(items) + ("]" + rest)
         == items[0].before + (Text(items[0].value) + (items[0].after + AfterItem(items, rest)))
  {
    hide Text, ItemText;
    var tail := AfterItem(items, rest);
    assert ItemsText(items) + ("]" + rest) == ItemText(items[0]) + tail;
    ItemShape(items[0], tail);
  }

  lemma ItemShape(i: Item, tail: string)
    ensures ItemText(i) + tail == i.before + (Text(i.value) + (i.after + tail))
  {
    hide Text;
  }

  /** Blanks, then something that is neither blank nor part of a number. */
  lemma EndsAfterBlanks(w: string, s: string)
    requires Blanks(w) && s != "" && (s[0] == ',' || s[0] == ']' || s[0] == '}')
    ensures Ends(w + s) && SkipBlanks(w + s) == s
  {
    BlanksSkipped(w, s);
  }

  lemma SkipsToValue(w: string, t: Tree, tail: string)
    requires Blanks(w) && TreeOk(t)
    ensures var s := Text(t) + tail; SkipBlanks(w + s) == s && SkipBlanks(s) == s && s != "" && s[0] != ']' && s[0] != '}'
  {
    hide TreeOk, Text;
    TextStarts(t);
    var s := Text(t) + tail;
    assert s[0] == Text(t)[0];
    BlanksSkipped(w, s);
  }

  lemma {:induction false} ItemsComplete(items: seq<Item>, s: string, rest: string, depth: nat, nodes: nat, acc: seq<Json>, limits: Limits)
    requires items != [] && ItemsOk(items) && ItemsFit(items, depth + 1, limits)
    requires |acc| + |items| <= MAX_COLLECTION && nodes + ItemNodes(items) <= limits.maxNodes
    requires SkipBlanks(s) == SkipBlanks(ItemsText(items) + ("]" + rest))
    ensures ParseItems(s, depth, nodes, acc, limits)
         == Ok(Counted(Arr(acc + ItemMeanings(items)), nodes + ItemNodes(items)), rest)
    decreases items, 0
  {
    hide Text, TreeOk, Fits, ParseValue, Meaning, Nodes, SkipBlanks, Blanks, MAX_COLLECTION;
    var item, more := items[0], items[1..];
    var tail := AfterItem(items, rest);
    ItemsShape(items, rest);
    SkipsToValue(item.before, item.value, item.after + tail);
    EndsAfterBlanks(item.after, tail);
    ValueComplete(item.value, item.after + tail, depth + 1, nodes, limits);
    var acc' := acc + [Meaning(item.value)];
    assert acc + ItemMeanings(items) == acc' + ItemMeanings(more);
    if more == [] {
      assert tail[1..] == rest;
      assert acc' + [] == acc';
    } else {
      assert tail[1..] == ItemsText(more) + ("]" + rest);
      ItemsComplete(more, tail[1..], rest, depth, nodes + Nodes(item.value), acc', limits);
    }
  }

  // ----- objects ------------------------------------------------------------------------------

  function AfterField(fields: seq<Field>, rest: string): string
    requires fields != []
  {
    if |fields| == 1 then "}" + rest else "," + (FieldsText(fields[1..]) + ("}" + rest))
  }

  /** What follows a member name: the colon, the value and the rest. */
  function AfterName(f: Field, tail: string): string {
    f.beforeColon + (":" + (f.afterColon + (Text(f.value) + (f.after + tail))))
  }

  lemma FieldsShape(fields: seq<Field>, rest: string)
    requires fields != []
    ensures FieldsText(fields) + ("}" + rest)
         == fields[0].before + (['"'] + (PiecesText(fields[0].name) + (['"'] + AfterName(fields[0], AfterField(fields, rest)))))
  {
    hide Text, PiecesText, AfterName;
    var f := fields[0];
    var tail := AfterField(fields, rest);
    assert FieldsText(fields) + ("}" + rest) == FieldText(f) + tail;
    FieldShape(f, tail);
  }

  lemma FieldShape(f: Field, tail: string)
    ensures FieldText(f) + tail == f.before + (['"'] + (PiecesText(f.name) + (['"'] + AfterName(f, tail))))
  {
    hide Text, PiecesText;
    var value := Text(f.value) + (f.after + tail);
    assert AfterName(f, tail) == f.beforeColon + (":" + (f.afterColon + value));
    assert FieldText(f) + tail == f.before + Quoted(f.name) + f.beforeColon + ":" + f.afterColon + value;
  }

  /** Blanks skipped, a field starts with the quote of its name. */
  lemma FieldsStart(fields: seq<Field>, rest: string)
    requires fields != [] && FieldsOk(fields)
    ensures var s := SkipBlanks(FieldsText(fields) + ("}" + rest)); s != "" && s[0] == '"' && SkipBlanks(s) == s
  {
    hide AfterName, PiecesText, AfterField, Text, TreeOk, PiecesOk;
    FieldsShape(fields, rest);
    var s0 := ['"'] + (PiecesText(fields[0].name) + (['"'] + AfterName(fields[0], AfterField(fields, rest))));
    BlanksSkipped(fields[0].before, s0);
  }

  /** The name of the first field is read, up to its value. */
  lemma NameComplete(f: Field, s: string, tail: string, limits: Limits)
    requires FieldOk(f) && |PiecesMeaning(f.name)| <= limits.maxString
    requires SkipBlanks(s) == SkipBlanks(f.before + (['"'] + (PiecesText(f.name) + (['"'] + AfterName(f, tail)))))
    ensures ParseName(s, limits) == Ok(PiecesMeaning(f.name), Text(f.value) + (f.after + tail))
  {
    hide Text, PiecesText, PiecesMeaning, PiecesOk, TreeOk, ParseChars;
    var s0 := PiecesText(f.name) + (['"'] + AfterName(f, tail));
    BlanksSkipped(f.before, ['"'] + s0);
    assert (['"'] + s0)[1..] == s0;
    CharsComplete(f.name, AfterName(f, tail), "", limits.maxString);
    assert "" + PiecesMeaning(f.name) == PiecesMeaning(f.name);
    var s1 := f.afterColon + (Text(f.value) + (f.after + tail));
    BlanksSkipped(f.beforeColon, ":" + s1);
    assert (":" + s1)[1..] == s1;
    SkipsToValue(f.afterColon, f.value, f.after + tail);
  }

  /** Names that are new to a list of members, and distinct. */
  ghost predicate NewNames(members: seq<Member>, names: seq<string>) {
    && (forall i :: 0 <= i < |names| ==> names[i] !in Keys(members))
    && forall i, j :: 0 <= i < j < |names| ==> names[i] != names[j]
  }

  lemma NewNamesRest(members: seq<Member>, names: seq<string>, value: Json)
    requires names != [] && NewNames(members, names)
    ensures NewNames(Inserted(members, names[0], value), names[1..])
  {
    hide Inserted;
    forall i | 0 <= i < |names[1..]|
      ensures names[1..][i] !in Keys(Inserted(members, names[0], value))
    {
      InsertedKeys(members, names[0], value, names[1..][i]);
      assert names[1..][i] == names[i + 1];
    }
  }

  lemma {:induction false} FieldsComplete(fields: seq<Field>, s: string, rest: string, depth: nat, nodes: nat, acc: seq<Member>, limits: Limits)
    requires fields != [] && FieldsOk(fields) && FieldsFit(fields, depth + 1, limits)
    requires |acc| + |fields| <= MAX_COLLECTION && nodes + FieldNodes(fields) <= limits.maxNodes
    requires NewNames(acc, FieldNames(fields))
    requires SkipBlanks(s) == SkipBlanks(FieldsText(fields) + ("}" + rest))
    ensures ParseFields(s, depth, nodes, acc, limits)
         == Ok(Counted(Obj(FieldMeanings(acc, fields)), nodes + FieldNodes(fields)), rest)
    decreases fields, 0
  {
    hide Text, TreeOk, Fits, ParseValue, ParseName, Meaning, Nodes, SkipBlanks, Blanks, MAX_COLLECTION, NewNames, PiecesText, PiecesMeaning, Inserted;
    var f, more := fields[0], fields[1..];
    var tail := AfterField(fields, rest);
    FieldsShape(fields, rest);
    NameComplete(f, s, tail, limits);
    EndsAfterBlanks(f.after, tail);
    ValueComplete(f.value, f.after + tail, depth + 1, nodes, limits);
    var key := PiecesMeaning(f.name);
    assert FieldNames(fields)[0] == key && FieldNames(fields)[1..] == FieldNames(more);
    FirstNameNew(acc, FieldNames(fields));
    NewNamesRest(acc, FieldNames(fields), Meaning(f.value));
    var acc' := Inserted(acc, key, Meaning(f.value));
    InsertedKeys(acc, key, Meaning(f.value), key);
    if more == [] {
      assert tail[1..] == rest;
    } else {
      assert tail[1..] == FieldsText(more) + ("}" + rest);
      FieldsComplete(more, tail[1..], rest, depth, nodes + Nodes(f.value), acc', limits);
    }
  }

  lemma FirstNamesNew(fields: seq<Field>)
    requires UniqueNames(fields)
    ensures NewNames([], FieldNames(fields))
  {
  }

  lemma FirstNameNew(members: seq<Member>, names: seq<string>)
    requires names != [] && NewNames(members, names)
    ensures names[0] !in Keys(members)
  {
  }

  // ----- values ------------------------------------------------------------------------------------

  lemma {:induction false} ArrayComplete(blank: string, items: seq<Item>, rest: string, depth: nat, nodes: nat, limits: Limits)
    requires var t := TreeArray(blank, items); TreeOk(t) && Fits(t, depth, limits) && nodes + ItemNodes(items) <= limits.maxNodes
    ensures ParseArray(Text(TreeArray(blank, items))[1..] + rest, depth, nodes, limits)
         == Ok(Counted(Arr(ItemMeanings(items)), nodes + ItemNodes(items)), rest)
    decreases items, 1
  {
    hide ParseItems, SkipBlanks, MAX_COLLECTION;
    var s := Text(TreeArray(blank, items))[1..] + rest;
    if items == [] {
      assert s == blank + ("]" + rest);
      EndsAfterBlanks(blank, "]" + rest);
      assert ("]" + rest)[1..] == rest;
    } else {
      assert s == ItemsText(items) + ("]" + rest);
      ItemsShape(items, rest);
      SkipsToValue(items[0].before, items[0].value, items[0].after + AfterItem(items, rest));
      ItemsComplete(items, SkipBlanks(s), rest, depth, nodes, [], limits);
      assert [] + ItemMeanings(items) == ItemMeanings(items);
    }
  }

  lemma {:induction false} ObjectComplete(blank: string, fields: seq<Field>, rest: string, depth: nat, nodes: nat, limits: Limits)
    requires var t := TreeObject(blank, fields); TreeOk(t) && Fits(t, depth, limits) && nodes + FieldNodes(fields) <= limits.maxNodes
    ensures ParseObject(Text(TreeObject(blank, fields))[1..] + rest, depth, nodes, limits)
         == Ok(Counted(Obj(FieldMeanings([], fields)), nodes + FieldNodes(fields)), rest)
    decreases fields, 1
  {
    hide ParseFields, SkipBlanks, MAX_COLLECTION, PiecesText, FieldMeanings, FieldsText, FieldText, NewNames, FieldNames, UniqueNames, FieldOk;
    var s := Text(TreeObject(blank, fields))[1..] + rest;
    if fields == [] {
      assert s == blank + ("}" + rest);
      EndsAfterBlanks(blank, "}" + rest);
      assert ("}" + rest)[1..] == rest;
    } else {
      assert s == FieldsText(fields) + ("}" + rest);
      FieldsStart(fields, rest);
      FirstNamesNew(fields);
      FieldsComplete(fields, SkipBlanks(s), rest, depth, nodes, [], limits);
    }
  }

  lemma {:induction false} ValueComplete(t: Tree, rest: string, depth: nat, nodes: nat, limits: Limits)
    requires TreeOk(t) && Fits(t, depth, limits) && nodes + Nodes(t) <= limits.maxNodes && Ends(rest)
    ensures ParseValue(Text(t) + rest, depth, nodes, limits) == Ok(Counted(Meaning(t), nodes + Nodes(t)), rest)
    decreases t
  {
    hide SkipBlanks, ParseArray, ParseObject, ParseNumber, ParseLiteral, UniqueNames, FieldsFit, ItemsFit, FieldsOk, ItemsOk, ParseChars, ItemsText, FieldsText, ItemMeanings, FieldMeanings, PiecesMeaning, PiecesText, NumberValue, IsInteger, LiteralText, LiteralOk, Ends;
    var s := Text(t) + rest;
    match t
    case TreeNull => NameIsValue(t, rest, depth, nodes, limits);
    case TreeBool(truth) => NameIsValue(t, rest, depth, nodes, limits);
    case TreeNumber(negative, digits) =>
      NumberComplete(negative, digits, rest);
      NumberStarts(negative, digits);
      NumberIsValue(t, rest, depth, nodes, limits);
    case TreeReal(literal) =>
      RealComplete(literal, rest);
      RealStarts(literal);
      NumberIsValue(t, rest, depth, nodes, limits);
    case TreeString(pieces) =>
      CharsComplete(pieces, rest, "", limits.maxString);
      assert s[1..] == PiecesText(pieces) + (['"'] + rest);
      assert "" + PiecesMeaning(pieces) == PiecesMeaning(pieces);
    case TreeArray(blank, items) =>
      assert s[1..] == Text(t)[1..] + rest;
      ArrayComplete(blank, items, rest, depth, nodes + 1, limits);
    case TreeObject(blank, fields) =>
      assert s[1..] == Text(t)[1..] + rest;
      ObjectComplete(blank, fields, rest, depth, nodes + 1, limits);
  }

  /** A literal name is read as its value. */
  lemma NameIsValue(t: Tree, rest: string, depth: nat, nodes: nat, limits: Limits)
    requires (t.TreeNull? || t.TreeBool?) && depth <= limits.maxDepth && nodes + 1 <= limits.maxNodes
    ensures ParseValue(Text(t) + rest, depth, nodes, limits) == Ok(Counted(Meaning(t), nodes + 1), rest)
  {
    hide ParseArray, ParseObject, ParseNumber, ParseLiteral, ParseChars;
    LiteralComplete(Text(t) + rest, Text(t), Meaning(t), rest);
  }

  /** What starts like a number is read as one. */
  lemma NumberIsValue(t: Tree, rest: string, depth: nat, nodes: nat, limits: Limits)
    requires Text(t) != "" && (Text(t)[0] == '-' || IsDigit(Text(t)[0])) && depth <= limits.maxDepth && nodes + 1 <= limits.maxNodes
    ensures ParseValue(Text(t) + rest, depth, nodes, limits) == WithCount(ParseNumber(Text(t) + rest), nodes + 1)
  {
    hide Text, ParseArray, ParseObject, ParseNumber, ParseLiteral, ParseChars;
    assert (Text(t) + rest)[0] == Text(t)[0];
  }

  lemma NumberStarts(negative: bool, digits: string)
    requires IsInteger(digits)
    ensures var s := Text(TreeNumber(negative, digits)); s != "" && (s[0] == '-' || IsDigit(s[0]))
  {
  }

  lemma RealStarts(l: Literal)
    requires LiteralOk(l)
    ensures var s := LiteralText(l); s != "" && (s[0] == '-' || IsDigit(s[0]))
  {
  }
}
