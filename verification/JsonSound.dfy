/** Whatever the parser accepts is in the grammar, with the grammar's meaning (src/json.cpp:443-799). */
module JsonSound {
  import opened Identities
  import opened Ordering
  import opened JsonValues
  import opened JsonGrammar
  import opened JsonMembers
  import opened JsonParsing
  import opened JsonComplete
  import opened Utf8

  lemma {:induction false} BlanksTaken(s: string) returns (w: string)
    ensures Blanks(w) && s == w + SkipBlanks(s) && NoBlank(SkipBlanks(s))
  {
    if s != "" && IsBlank(s[0]) {
      var w1 := BlanksTaken(s[1..]);
      w := [s[0]] + w1;
      ConsBlank(s, w1, SkipBlanks(s[1..]));
    } else {
      w := "";
    }
  }

  lemma ConsBlank(s: string, w: string, rest: string)
    requires s != "" && IsBlank(s[0]) && Blanks(w) && s[1..] == w + rest
    ensures Blanks([s[0]] + w) && s == ([s[0]] + w) + rest
  {
    assert s == [s[0]] + s[1..];
  }

  lemma SkipTwice(s: string)
    ensures SkipBlanks(SkipBlanks(s)) == SkipBlanks(s)
  {
    var w := BlanksTaken(s);
    BlanksSkipped("", SkipBlanks(s));
    assert "" + SkipBlanks(s) == SkipBlanks(s);
  }

  // ----- strings -------------------------------------------------------------------

  lemma UnicodeSound(s: string) returns (p: Piece, digits: string)
    requires ParseUnicode(s).Ok?
    ensures PieceOk(p) && !p.Plain? && PieceText(p) == ['\\', 'u'] + digits
    ensures s == digits + ParseUnicode(s).rest && ParseUnicode(s).value == PieceMeaning(p)
  {
    hide Hex4, IsHex, HexValue, Encode;
    var high, rest := s[..4], s[4..];
    if HighSurrogate(Hex4(high)) {
      var low := rest[2..][..4];
      p := Pair(high, low);
      digits := high + (['\\', 'u'] + low);
      assert rest == ['\\', 'u'] + rest[2..];
      assert rest[2..] == low + rest[2..][4..];
      PairDigits(high, low, rest[2..][4..]);
    } else {
      p := Unit(high);
      digits := high;
    }
  }

  lemma ShortSound(s: string)
    requires s != "" && s[0] in SHORT_ESCAPES
    ensures ParseEscape(s) == Ok(PieceMeaning(Short(s[0])), s[1..])
    ensures PieceOk(Short(s[0])) && ['\\'] + s == PieceText(Short(s[0])) + s[1..]
  {
  }

  lemma EscapeSound(s: string) returns (p: Piece)
    requires ParseEscape(s).Ok?
    ensures PieceOk(p) && !p.Plain?
    ensures ['\\'] + s == PieceText(p) + ParseEscape(s).rest && ParseEscape(s).value == PieceMeaning(p)
  {
    hide ParseUnicode, PieceOk, PieceText, PieceMeaning;
    if s[0] in SHORT_ESCAPES {
      p := Short(s[0]);
      ShortSound(s);
    } else {
      var digits;
      p, digits := UnicodeSound(s[1..]);
      assert s == ['u'] + s[1..];
    }
  }

  lemma {:induction false} CharsSound(s: string, out: string, max: nat) returns (ps: seq<Piece>)
    requires ParseChars(s, out, max).Ok? && |out| <= max
    ensures PiecesOk(ps)
    ensures s == PiecesText(ps) + (['"'] + ParseChars(s, out, max).rest)
    ensures ParseChars(s, out, max).value == out + PiecesMeaning(ps) && |ParseChars(s, out, max).value| <= max
    decreases |s|
  {
    if s[0] == '"' {
      ps := [];
      assert s == ['"'] + s[1..];
      assert out + "" == out;
    } else if s[0] != '\\' {
      var more := CharsSound(s[1..], out + [s[0]], max);
      ps := [Plain(s[0])] + more;
      JoinPieces(Plain(s[0]), more, out, s[1..], ParseChars(s, out, max).rest);
      assert s == [s[0]] + s[1..];
    } else {
      var p := EscapeSound(s[1..]);
      var c, rest := ParseEscape(s[1..]).value, ParseEscape(s[1..]).rest;
      var more := CharsSound(rest, out + c, max);
      ps := [p] + more;
      JoinPieces(p, more, out, rest, ParseChars(s, out, max).rest);
      assert s == ['\\'] + s[1..];
    }
  }

  lemma JoinPieces(p: Piece, more: seq<Piece>, out: string, s: string, rest: string)
    requires PieceOk(p) && PiecesOk(more) && s == PiecesText(more) + (['"'] + rest)
    ensures PiecesOk([p] + more)
    ensures PieceText(p) + s == PiecesText([p] + more) + (['"'] + rest)
    ensures (out + PieceMeaning(p)) + PiecesMeaning(more) == out + PiecesMeaning([p] + more)
  {
    hide PieceOk, PieceText, PieceMeaning;
    assert ([p] + more)[1..] == more;
  }

  // ----- numbers --------------------------------------------------------------------------

  lemma {:induction false} RunTaken(s: string)
    ensures Digits(s[..DigitRun(s)])
  {
    if s != "" && IsDigit(s[0]) {
      RunTaken(s[1..]);
      assert s[..DigitRun(s)] == [s[0]] + s[1..][..DigitRun(s[1..])];
    }
  }

  lemma RunStarts(s: string)
    requires s != "" && IsDigit(s[0])
    ensures DigitRun(s) > 0
  {
  }

  lemma DigitsSound(s: string)
    requires ParseDigits(s).Ok?
    ensures var r := ParseDigits(s); r.value != "" && Digits(r.value) && s == r.value + r.rest
  {
    hide DigitRun;
    RunTaken(s);
  }

  lemma FractionSound(s: string)
    requires ParseFraction(s).Ok?
    ensures FractionOk(ParseFraction(s).value) && s == FractionText(ParseFraction(s).value) + ParseFraction(s).rest
  {
    hide ParseDigits, Digits;
    if s != "" && s[0] == '.' {
      DigitsSound(s[1..]);
      assert s == ['.'] + s[1..];
    }
  }

  lemma ExponentSound(s: string)
    requires ParseExponent(s).Ok?
    ensures ExponentOk(ParseExponent(s).value) && s == ExponentText(ParseExponent(s).value) + ParseExponent(s).rest
  {
    hide ParseDigits, Digits, SignAt;
    if s != "" && (s[0] == 'e' || s[0] == 'E') {
      var sign := SignAt(s[1..]);
      var d := s[1..][|sign|..];
      SignSound(s[1..]);
      DigitsSound(d);
      ExponentJoins(s, sign, d, ParseDigits(d).value, ParseDigits(d).rest);
    }
  }

  lemma ExponentJoins(s: string, sign: string, d: string, digits: string, rest: string)
    requires s != "" && s[1..] == sign + d && d == digits + rest
    ensures s == ([s[0]] + sign + digits) + rest
  {
    assert s == [s[0]] + s[1..];
  }

  lemma SignSound(s: string)
    ensures var sign := SignAt(s); (sign == "" || sign == "+" || sign == "-") && s == sign + s[|sign|..]
  {
  }

  /** Digits, then what they continue with. */
  lemma UnsignedSound(negative: bool, s: string) returns (t: Tree)
    requires ParseUnsigned(negative, s).Ok?
    ensures TreeOk(t) && Text(t) + ParseUnsigned(negative, s).rest == SignText(negative) + s
    ensures ParseUnsigned(negative, s).value == Meaning(t) && (t.TreeNumber? || t.TreeReal?)
  {
    hide NumberValue, DigitRun, ParseFraction, ParseExponent, FractionText, ExponentText, LiteralText, FractionOk, ExponentOk, Finite;
    var n := if s[0] == '0' then 1 else DigitRun(s);
    var digits := s[..n];
    RunTaken(s);
    RunStarts(s);
    FractionSound(s[n..]);
    var f := ParseFraction(s[n..]);
    ExponentSound(f.rest);
    var e := ParseExponent(f.rest);
    var l := Literal(negative, digits, f.value, e.value);
    LiteralJoins(l, s, n, f.rest, e.rest);
    t := if f.value.None? && e.value.None? then TreeNumber(negative, digits) else TreeReal(l);
    if t.TreeNumber? {
      NothingFollows();
    }
  }

  lemma LiteralJoins(l: Literal, s: string, n: nat, s1: string, rest: string)
    requires n <= |s| && s[..n] == l.digits
    requires s[n..] == FractionText(l.fraction) + s1 && s1 == ExponentText(l.exponent) + rest
    ensures LiteralText(l) + rest == SignText(l.negative) + s
    ensures FractionText(l.fraction) == "" && ExponentText(l.exponent) == "" ==> SignText(l.negative) + l.digits + rest == SignText(l.negative) + s
  {
    hide FractionText, ExponentText;
    assert s == l.digits + s[n..];
  }

  lemma NothingFollows()
    ensures FractionText(None) == "" && ExponentText(None) == ""
  {
  }

  lemma NumberSound(s: string) returns (t: Tree)
    requires ParseNumber(s).Ok?
    ensures TreeOk(t) && s == Text(t) + ParseNumber(s).rest && ParseNumber(s).value == Meaning(t)
    ensures t.TreeNumber? || t.TreeReal?
  {
    hide ParseUnsigned, Text, TreeOk, Meaning;
    var negative := s != "" && s[0] == '-';
    var s1 := if negative then s[1..] else s;
    assert SignText(negative) + s1 == s;
    t := UnsignedSound(negative, s1);
  }

  lemma LiteralSound(s: string, text: string, json: Json)
    requires text != "" && ParseLiteral(s, text, json).Ok?
    ensures s == text + ParseLiteral(s, text, json).rest && ParseLiteral(s, text, json).value == json
  {
  }

  // ----- arrays ----------------------------------------------------------------------------

  /** The tree stands for what was parsed. */
  ghost predicate Stands(t: Tree, s: string, depth: nat, nodes: nat, limits: Limits, r: Parsed<Counted>) {
    && r.Ok? && TreeOk(t) && Fits(t, depth, limits)
    && s == Text(t) + r.rest
    && r.value == Counted(Meaning(t), nodes + Nodes(t)) && r.value.nodes <= limits.maxNodes
  }

  ghost predicate ItemsStand(items: seq<Item>, s: string, depth: nat, nodes: nat, acc: seq<Json>, limits: Limits, r: Parsed<Counted>) {
    && r.Ok? && items != [] && ItemsOk(items) && ItemsFit(items, depth + 1, limits) && |acc| + |items| <= MAX_COLLECTION
    && s == ItemsText(items) + ("]" + r.rest)
    && r.value == Counted(Arr(acc + ItemMeanings(items)), nodes + ItemNodes(items)) && r.value.nodes <= limits.maxNodes
  }

  /** The parse of the items after the first. */
  lemma ItemsJoin(item: Item, more: seq<Item>, s: string, depth: nat, nodes: nat, acc: seq<Json>, limits: Limits, r: Parsed<Counted>, s1: string)
    requires Blanks(item.before) && TreeOk(item.value) && Blanks(item.after) && Fits(item.value, depth + 1, limits)
    requires s == item.before + (Text(item.value) + (item.after + ("," + s1)))
    requires ItemsStand(more, s1, depth, nodes + Nodes(item.value), acc + [Meaning(item.value)], limits, r)
    ensures ItemsStand([item] + more, s, depth, nodes, acc, limits, r)
  {
    hide Text, TreeOk, Fits, Nodes, Meaning, MAX_COLLECTION, Blanks, ItemsText;
    var items := [item] + more;
    assert items[1..] == more;
    ItemsShape(items, r.rest);
    assert acc + ItemMeanings(items) == (acc + [Meaning(item.value)]) + ItemMeanings(more);
  }

  lemma ItemsEnd(item: Item, s: string, depth: nat, nodes: nat, acc: seq<Json>, limits: Limits, rest: string)
    requires Blanks(item.before) && TreeOk(item.value) && Blanks(item.after) && Fits(item.value, depth + 1, limits)
    requires s == item.before + (Text(item.value) + (item.after + ("]" + rest)))
    requires |acc| < MAX_COLLECTION && nodes + Nodes(item.value) <= limits.maxNodes
    ensures ItemsStand([item], s, depth, nodes, acc, limits,
              Ok(Counted(Arr(acc + [Meaning(item.value)]), nodes + Nodes(item.value)), rest))
  {
    hide Text, TreeOk, Fits, Nodes, Meaning, MAX_COLLECTION, Blanks, ItemsText;
    ItemsShape([item], rest);
    assert [item][1..] == [];
    assert ItemsOk([]) && ItemsFit([], depth + 1, limits) && ItemMeanings([]) == [] && ItemNodes([]) == 0;
    assert [Meaning(item.value)] + [] == [Meaning(item.value)];
  }

  lemma {:induction false} ItemsSound(s: string, depth: nat, nodes: nat, acc: seq<Json>, limits: Limits) returns (items: seq<Item>)
    requires ParseItems(s, depth, nodes, acc, limits).Ok?
    ensures ItemsStand(items, s, depth, nodes, acc, limits, ParseItems(s, depth, nodes, acc, limits))
    decreases |s|, 1
  {
    hide ParseValue, SkipBlanks, Text, TreeOk, Fits, Nodes, Meaning, MAX_COLLECTION, ItemsStand, Blanks;
    var before := BlanksTaken(s);
    var s0 := SkipBlanks(s);
    var t := ValueSound(s0, depth + 1, nodes, limits);
    var v := ParseValue(s0, depth + 1, nodes, limits);
    var after := BlanksTaken(v.rest);
    var s1 := SkipBlanks(v.rest);
    var item := Item(before, t, after);
    assert s1 == [s1[0]] + s1[1..];
    if s1[0] == ',' {
      var more := ItemsSound(s1[1..], depth, v.value.nodes, acc + [v.value.json], limits);
      items := [item] + more;
      ItemsJoin(item, more, s, depth, nodes, acc, limits, ParseItems(s, depth, nodes, acc, limits), s1[1..]);
    } else {
      items := [item];
      ItemsEnd(item, s, depth, nodes, acc, limits, s1[1..]);
    }
  }

  // ----- objects -----------------------------------------------------------------------------

  ghost predicate FieldsStand(fields: seq<Field>, s: string, depth: nat, nodes: nat, acc: seq<Member>, limits: Limits, r: Parsed<Counted>) {
    && r.Ok? && fields != [] && FieldsOk(fields) && FieldsFit(fields, depth + 1, limits) && |acc| + |fields| <= MAX_COLLECTION
    && NewNames(acc, FieldNames(fields))
    && s == FieldsText(fields) + ("}" + r.rest)
    && r.value == Counted(Obj(FieldMeanings(acc, fields)), nodes + FieldNodes(fields)) && r.value.nodes <= limits.maxNodes
  }

  /** A name and its colon, taken from the front of the text. */
  lemma NameSound(s: string, limits: Limits) returns (before: string, name: seq<Piece>, beforeColon: string, afterColon: string)
    requires ParseName(s, limits).Ok?
    ensures Blanks(before) && PiecesOk(name) && Blanks(beforeColon) && Blanks(afterColon)
    ensures ParseName(s, limits).value == PiecesMeaning(name) && |PiecesMeaning(name)| <= limits.maxString
    ensures s == before + (['"'] + (PiecesText(name) + (['"'] + (beforeColon + (":" + (afterColon + ParseName(s, limits).rest))))))
  {
    hide ParseChars, PiecesOk, PiecesText, PiecesMeaning, Blanks, SkipBlanks;
    before := BlanksTaken(s);
    var s1 := SkipBlanks(s);
    assert s1 == ['"'] + s1[1..];
    name := CharsSound(s1[1..], "", limits.maxString);
    assert "" + PiecesMeaning(name) == PiecesMeaning(name);
    var rest := ParseChars(s1[1..], "", limits.maxString).rest;
    beforeColon := BlanksTaken(rest);
    var s2 := SkipBlanks(rest);
    assert s2 == ":" + s2[1..];
    afterColon := BlanksTaken(s2[1..]);
    NameParts(s, before, s1, PiecesText(name), rest, beforeColon, s2, afterColon, SkipBlanks(s2[1..]));
  }

  /** The text of a name and its colon, put together from the front. */
  lemma NameParts(s: string, before: string, s1: string, name: string, rest: string, beforeColon: string, s2: string, afterColon: string, tail: string)
    requires s == before + s1 && s1 != "" && s1[0] == '"' && s1[1..] == name + (['"'] + rest)
    requires rest == beforeColon + s2 && s2 != "" && s2[0] == ':' && s2[1..] == afterColon + tail
    ensures s == before + (['"'] + (name + (['"'] + (beforeColon + (":" + (afterColon + tail))))))
  {
    assert s1 == ['"'] + s1[1..] && s2 == ":" + s2[1..];
  }

  ghost predicate FieldStands(f: Field, s: string, depth: nat, limits: Limits, tail: string) {
    && FieldOk(f) && |PiecesMeaning(f.name)| <= limits.maxString && Fits(f.value, depth + 1, limits)
    && s == f.before + (['"'] + (PiecesText(f.name) + (['"'] + AfterName(f, tail))))
  }

  lemma FieldsJoin(f: Field, more: seq<Field>, s: string, depth: nat, nodes: nat, acc: seq<Member>, limits: Limits, r: Parsed<Counted>, s1: string)
    requires FieldStands(f, s, depth, limits, "," + s1) && PiecesMeaning(f.name) !in Keys(acc)
    requires FieldsStand(more, s1, depth, nodes + Nodes(f.value), Inserted(acc, PiecesMeaning(f.name), Meaning(f.value)), limits, r)
    ensures FieldsStand([f] + more, s, depth, nodes, acc, limits, r)
  {
    hide Text, Fits, Nodes, Meaning, MAX_COLLECTION, FieldsText, FieldOk, AfterName, PiecesText, PiecesMeaning, Inserted, NewNames, Keys;
    var fields := [f] + more;
    assert fields[1..] == more;
    FieldsShape(fields, r.rest);
    InsertedKeys(acc, PiecesMeaning(f.name), Meaning(f.value), "");
    NamesJoin(acc, PiecesMeaning(f.name), Meaning(f.value), FieldNames(more));
  }

  lemma NamesJoin(acc: seq<Member>, name: string, value: Json, names: seq<string>)
    requires name !in Keys(acc) && NewNames(Inserted(acc, name, value), names)
    ensures NewNames(acc, [name] + names)
  {
    hide Inserted;
    var all := [name] + names;
    forall i | 0 <= i < |all|
      ensures all[i] !in Keys(acc) && (i > 0 ==> all[i] != name)
    {
      if i > 0 {
        assert names[i - 1] !in Keys(Inserted(acc, name, value));
        InsertedKeys(acc, name, value, all[i]);
      }
    }
    forall i, j | 0 <= i < j < |all|
      ensures all[i] != all[j]
    {
      if i > 0 { assert names[i - 1] != names[j - 1]; }
    }
  }

  lemma FieldsEnd(f: Field, s: string, depth: nat, nodes: nat, acc: seq<Member>, limits: Limits, rest: string)
    requires FieldStands(f, s, depth, limits, "}" + rest) && PiecesMeaning(f.name) !in Keys(acc)
    requires |acc| < MAX_COLLECTION && nodes + Nodes(f.value) <= limits.maxNodes
    ensures FieldsStand([f], s, depth, nodes, acc, limits,
              Ok(Counted(Obj(Inserted(acc, PiecesMeaning(f.name), Meaning(f.value))), nodes + Nodes(f.value)), rest))
  {
    hide Text, Fits, Nodes, Meaning, MAX_COLLECTION, FieldsText, FieldOk, AfterName, PiecesText, PiecesMeaning, Inserted;
    FieldsShape([f], rest);
    assert [f][1..] == [];
    assert FieldsOk([]) && FieldsFit([], depth + 1, limits) && FieldNodes([]) == 0 && FieldNames([]) == [];
    assert FieldNames([f]) == [PiecesMeaning(f.name)];
    InsertedKeys(acc, PiecesMeaning(f.name), Meaning(f.value), "");
    assert FieldMeanings(acc, [f]) == Inserted(acc, PiecesMeaning(f.name), Meaning(f.value));
  }

  lemma {:induction false} FieldsSound(s: string, depth: nat, nodes: nat, acc: seq<Member>, limits: Limits) returns (fields: seq<Field>)
    requires ParseFields(s, depth, nodes, acc, limits).Ok?
    ensures FieldsStand(fields, s, depth, nodes, acc, limits, ParseFields(s, depth, nodes, acc, limits))
    decreases |s|, 1
  {
    hide ParseValue, ParseName, SkipBlanks, Text, TreeOk, Fits, Nodes, Meaning, MAX_COLLECTION, FieldsStand, Blanks, PiecesOk, PiecesText, PiecesMeaning, Inserted;
    var before, name, beforeColon, afterColon := NameSound(s, limits);
    var s0 := ParseName(s, limits).rest;
    var t := ValueSound(s0, depth + 1, nodes, limits);
    var v := ParseValue(s0, depth + 1, nodes, limits);
    var after := BlanksTaken(v.rest);
    var s1 := SkipBlanks(v.rest);
    var f := Field(before, name, beforeColon, afterColon, t, after);
    assert s1 == [s1[0]] + s1[1..];
    InsertedKeys(acc, PiecesMeaning(name), Meaning(t), "");
    if s1[0] == ',' {
      var more := FieldsSound(s1[1..], depth, v.value.nodes, Inserted(acc, PiecesMeaning(name), v.value.json), limits);
      fields := [f] + more;
      FieldsJoin(f, more, s, depth, nodes, acc, limits, ParseFields(s, depth, nodes, acc, limits), s1[1..]);
    } else {
      fields := [f];
      FieldsEnd(f, s, depth, nodes, acc, limits, s1[1..]);
    }
  }

  // ----- values ------------------------------------------------------------------------------------

  lemma {:induction false} ArraySound(s: string, depth: nat, nodes: nat, limits: Limits) returns (t: Tree)
    requires ParseArray(s, depth, nodes + 1, limits).Ok? && depth <= limits.maxDepth && nodes + 1 <= limits.maxNodes
    ensures Stands(t, "[" + s, depth, nodes, limits, ParseArray(s, depth, nodes + 1, limits))
    decreases |s|, 2
  {
    hide SkipBlanks, ParseItems, Blanks, ItemsText, MAX_COLLECTION, ItemsOk, ItemsFit, ItemNodes, ItemMeanings;
    var s1 := SkipBlanks(s);
    if s1 != "" && s1[0] == ']' {
      var blank := BlanksTaken(s);
      t := TreeArray(blank, []);
      NoItems(depth + 1, limits);
      assert "[" + s == ("[" + blank + "]") + s1[1..];
      assert s1 == "]" + s1[1..];
    } else {
      SkipTwice(s);
      ItemsFromSkipped(s, depth, nodes + 1, limits);
      var items := ItemsSound(s, depth, nodes + 1, [], limits);
      t := TreeArray("", items);
      assert [] + ItemMeanings(items) == ItemMeanings(items);
      NoBlanks();
      assert "[" + s == ("[" + ItemsText(items) + "]") + ParseArray(s, depth, nodes + 1, limits).rest;
    }
  }

  lemma NoBlanks()
    ensures Blanks("")
  {
  }

  lemma ItemsFromSkipped(s: string, depth: nat, nodes: nat, limits: Limits)
    requires SkipBlanks(SkipBlanks(s)) == SkipBlanks(s)
    ensures ParseItems(SkipBlanks(s), depth, nodes, [], limits) == ParseItems(s, depth, nodes, [], limits)
  {
    hide ParseValue, SkipBlanks;
  }

  lemma FieldsFromSkipped(s: string, depth: nat, nodes: nat, limits: Limits)
    requires SkipBlanks(SkipBlanks(s)) == SkipBlanks(s)
    ensures ParseFields(SkipBlanks(s), depth, nodes, [], limits) == ParseFields(s, depth, nodes, [], limits)
  {
    hide ParseValue, SkipBlanks, ParseChars, Inserted;
    assert ParseName(SkipBlanks(s), limits) == ParseName(s, limits);
  }

  lemma {:induction false} ObjectSound(s: string, depth: nat, nodes: nat, limits: Limits) returns (t: Tree)
    requires ParseObject(s, depth, nodes + 1, limits).Ok? && depth <= limits.maxDepth && nodes + 1 <= limits.maxNodes
    ensures Stands(t, "{" + s, depth, nodes, limits, ParseObject(s, depth, nodes + 1, limits))
    decreases |s|, 2
  {
    hide SkipBlanks, ParseFields, Blanks, FieldsText, MAX_COLLECTION, FieldMeanings, FieldNames, FieldsOk, FieldsFit, FieldNodes;
    var s1 := SkipBlanks(s);
    if s1 != "" && s1[0] == '}' {
      var blank := BlanksTaken(s);
      t := TreeObject(blank, []);
      NoFields(depth + 1, limits);
      assert s1 == "}" + s1[1..];
    } else {
      SkipTwice(s);
      FieldsFromSkipped(s, depth, nodes + 1, limits);
      var fields := FieldsSound(s, depth, nodes + 1, [], limits);
      t := TreeObject("", fields);
      NoBlanks();
      assert "{" + s == ("{" + FieldsText(fields) + "}") + ParseObject(s, depth, nodes + 1, limits).rest;
    }
  }

  lemma NoItems(depth: nat, limits: Limits)
    ensures ItemsOk([]) && ItemsFit([], depth, limits) && ItemNodes([]) == 0 && ItemMeanings([]) == []
  {
  }

  lemma NoFields(depth: nat, limits: Limits)
    ensures FieldsOk([]) && FieldsFit([], depth, limits) && FieldNodes([]) == 0 && FieldNames([]) == [] && FieldMeanings([], []) == []
  {
  }

  lemma {:induction false} ValueSound(s: string, depth: nat, nodes: nat, limits: Limits) returns (t: Tree)
    requires ParseValue(s, depth, nodes, limits).Ok?
    ensures Stands(t, s, depth, nodes, limits, ParseValue(s, depth, nodes, limits))
    decreases |s|, 0
  {
    hide ParseArray, ParseObject, ParseNumber, ParseLiteral, ParseChars, ItemsText, FieldsText, ItemMeanings, FieldMeanings, PiecesMeaning, PiecesText, NumberValue, IsInteger, PiecesOk;
    assert s == [s[0]] + s[1..];
    if s[0] == '{' {
      t := ObjectSound(s[1..], depth, nodes, limits);
    } else if s[0] == '[' {
      t := ArraySound(s[1..], depth, nodes, limits);
    } else if s[0] == '"' {
      var ps := CharsSound(s[1..], "", limits.maxString);
      t := TreeString(ps);
      assert "" + PiecesMeaning(ps) == PiecesMeaning(ps);
      var rest := ParseChars(s[1..], "", limits.maxString).rest;
      assert s == Quoted(ps) + rest;
    } else if s[0] == 't' {
      LiteralSound(s, "true", Bool(true));
      t := TreeBool(true);
    } else if s[0] == 'f' {
      LiteralSound(s, "false", Bool(false));
      t := TreeBool(false);
    } else if s[0] == 'n' {
      LiteralSound(s, "null", Null);
      t := TreeNull;
    } else {
      t := NumberSound(s);
    }
  }
}
