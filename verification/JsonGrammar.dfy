/**
 * The grammar of sections 2 to 7 of RFC 8259 as concrete syntax trees, their texts and their meanings.
 * A char stands for a byte of the text; a number with a fraction or an exponent means its literal.
 */
module JsonGrammar {
  import opened Identities
  import opened JsonValues
  import opened Utf8

  // ----- characters of a string (section 7) -------------------------------------------

  /** One character of a string literal: as it is, by a short escape, or by one or two \u escapes. */
  datatype Piece = Plain(c: char) | Short(c: char) | Unit(h: string) | Pair(high: string, low: string)

  predicate IsDigit(c: char) { '0' <= c <= '9' }

  predicate IsHex(c: char) { IsDigit(c) || 'a' <= c <= 'f' || 'A' <= c <= 'F' }

  function HexValue(c: char): (n: nat)
    requires IsHex(c)
    ensures n < 16
  {
    if IsDigit(c) then c as nat - '0' as nat
    else if 'a' <= c <= 'f' then c as nat - 'a' as nat + 10
    else c as nat - 'A' as nat + 10
  }

  predicate IsHex4(h: string) { |h| == 4 && forall i :: 0 <= i < 4 ==> IsHex(h[i]) }

  function Hex4(h: string): (n: nat)
    requires IsHex4(h)
    ensures n < 0x10000
  {
    16 * (16 * (16 * HexValue(h[0]) + HexValue(h[1])) + HexValue(h[2])) + HexValue(h[3])
  }

  predicate HighSurrogate(n: nat) { 0xD800 <= n <= 0xDBFF }
  predicate LowSurrogate(n: nat) { 0xDC00 <= n <= 0xDFFF }

  const SHORT_ESCAPES := "\"\\/bfnrt"

  function Unescaped(c: char): char {
    if c == 'b' then '\U{0008}' else if c == 'f' then '\U{000C}' else if c == 'n' then '\n'
    else if c == 'r' then '\r' else if c == 't' then '\t' else c
  }

  predicate PieceOk(p: Piece) {
    match p
    case Plain(c) => c as nat >= 0x20 && c != '"' && c != '\\'
    case Short(c) => c in SHORT_ESCAPES
    case Unit(h) => IsHex4(h) && Scalar(Hex4(h))
    case Pair(high, low) => IsHex4(high) && IsHex4(low) && HighSurrogate(Hex4(high)) && LowSurrogate(Hex4(low))
  }

  function PieceText(p: Piece): string {
    match p
    case Plain(c) => [c]
    case Short(c) => ['\\', c]
    case Unit(h) => ['\\', 'u'] + h
    case Pair(high, low) => ['\\', 'u'] + high + ['\\', 'u'] + low
  }

  function PieceMeaning(p: Piece): string {
    if !PieceOk(p) then ""
    else
      match p
      case Plain(c) => [c]
      case Short(c) => [Unescaped(c)]
      case Unit(h) => Encode(Hex4(h))
      case Pair(high, low) => Encode(0x10000 + (Hex4(high) - 0xD800) * 1024 + (Hex4(low) - 0xDC00))
  }

  predicate PiecesOk(ps: seq<Piece>) { forall i :: 0 <= i < |ps| ==> PieceOk(ps[i]) }

  function PiecesText(ps: seq<Piece>): string {
    if ps == [] then "" else PieceText(ps[0]) + PiecesText(ps[1..])
  }

  function PiecesMeaning(ps: seq<Piece>): string {
    if ps == [] then "" else PieceMeaning(ps[0]) + PiecesMeaning(ps[1..])
  }

  // ----- numbers (section 6) ---------------------------------------------------------------

  predicate Digits(s: string) { forall i :: 0 <= i < |s| ==> IsDigit(s[i]) }

  /** One or more digits, with a leading zero only as the whole. */
  predicate IsInteger(digits: string) {
    digits != "" && Digits(digits) && (digits[0] == '0' ==> |digits| == 1)
  }

  function DigitValue(c: char): nat { if IsDigit(c) then c as nat - '0' as nat else 0 }

  function DecimalValue(digits: string): nat {
    if digits == "" then 0
    else 10 * DecimalValue(digits[..|digits| - 1]) + DigitValue(digits[|digits| - 1])
  }

  const MIN_INT := -0x8000_0000_0000_0000
  const MAX_INT := 0x7FFF_FFFF_FFFF_FFFF

  function NumberValue(negative: bool, digits: string): int {
    var n: int := DecimalValue(digits);
    if negative then -n else n
  }

  function SignText(negative: bool): string { if negative then "-" else "" }

  function FractionText(fraction: Option<string>): string { if fraction.Some? then "." + fraction.value else "" }

  function ExponentText(exponent: Option<Exponent>): string {
    if exponent.Some? then [exponent.value.mark] + exponent.value.sign + exponent.value.digits else ""
  }

  function LiteralText(l: Literal): string {
    SignText(l.negative) + l.digits + FractionText(l.fraction) + ExponentText(l.exponent)
  }

  predicate FractionOk(fraction: Option<string>) { fraction.Some? ==> fraction.value != "" && Digits(fraction.value) }

  predicate ExponentOk(exponent: Option<Exponent>) {
    exponent.Some? ==>
      var e := exponent.value;
      (e.mark == 'e' || e.mark == 'E') && (e.sign == "" || e.sign == "+" || e.sign == "-") && e.digits != "" && Digits(e.digits)
  }

  function Power(base: nat, k: nat): nat { if k == 0 then 1 else base * Power(base, k - 1) }

  /** The least magnitude that a double rounds to infinity: halfway between its greatest number and 2^1024. */
  function Overflow(): int { Power(2, 1024) - Power(2, 970) }

  /** The magnitude of a literal is its digits, shifted by the exponent, and below that bound. */
  predicate Finite(l: Literal) {
    var fraction := if l.fraction.Some? then l.fraction.value else "";
    var m := DecimalValue(l.digits + fraction);
    var e: int := if l.exponent.Some? then DecimalValue(l.exponent.value.digits) else 0;
    var signed := if l.exponent.Some? && l.exponent.value.sign == "-" then -e else e;
    var shift := signed - |fraction|;
    if shift >= 0 then m * Power(10, shift) < Overflow() else m < Overflow() * Power(10, -shift)
  }

  const MAX_LITERAL: nat := 63

  /** A number with a fraction or an exponent that is read as a finite double. */
  predicate LiteralOk(l: Literal) {
    && IsInteger(l.digits) && (l.fraction.Some? || l.exponent.Some?)
    && FractionOk(l.fraction) && ExponentOk(l.exponent)
    && |LiteralText(l)| <= MAX_LITERAL && Finite(l)
  }

  // ----- values, arrays and objects (sections 2 to 5) -----------------------------------------

  predicate IsBlank(c: char) { c == ' ' || c == '\t' || c == '\n' || c == '\r' }
  predicate Blanks(s: string) { forall i :: 0 <= i < |s| ==> IsBlank(s[i]) }

  datatype Tree =
    | TreeNull
    | TreeBool(truth: bool)
    | TreeNumber(negative: bool, digits: string)
    | TreeReal(literal: Literal)
    | TreeString(pieces: seq<Piece>)
    | TreeArray(blank: string, items: seq<Item>)
    | TreeObject(blank: string, fields: seq<Field>)

  datatype Item = Item(before: string, value: Tree, after: string)

  datatype Field = Field(before: string, name: seq<Piece>, beforeColon: string, afterColon: string, value: Tree, after: string)

  function Quoted(ps: seq<Piece>): string { ['"'] + PiecesText(ps) + ['"'] }

  function BoolText(truth: bool): string { if truth then "true" else "false" }

  function Text(t: Tree): string {
    match t
    case TreeNull => "null"
    case TreeBool(truth) => BoolText(truth)
    case TreeNumber(negative, digits) => SignText(negative) + digits
    case TreeReal(literal) => LiteralText(literal)
    case TreeString(pieces) => Quoted(pieces)
    case TreeArray(blank, items) => if items == [] then "[" + blank + "]" else "[" + ItemsText(items) + "]"
    case TreeObject(blank, fields) => if fields == [] then "{" + blank + "}" else "{" + FieldsText(fields) + "}"
  }

  function ItemText(i: Item): string { i.before + Text(i.value) + i.after }

  function ItemsText(items: seq<Item>): string {
    if items == [] then ""
    else if |items| == 1 then ItemText(items[0])
    else ItemText(items[0]) + "," + ItemsText(items[1..])
  }

  function FieldText(f: Field): string {
    f.before + Quoted(f.name) + f.beforeColon + ":" + f.afterColon + Text(f.value) + f.after
  }

  function FieldsText(fields: seq<Field>): string {
    if fields == [] then ""
    else if |fields| == 1 then FieldText(fields[0])
    else FieldText(fields[0]) + "," + FieldsText(fields[1..])
  }

  /** In the grammar: the productions, 64-bit integers, finite doubles, well-paired surrogates, unique names. */
  predicate TreeOk(t: Tree) {
    match t
    case TreeNumber(negative, digits) => IsInteger(digits) && MIN_INT <= NumberValue(negative, digits) <= MAX_INT
    case TreeReal(literal) => LiteralOk(literal)
    case TreeString(pieces) => PiecesOk(pieces)
    case TreeArray(blank, items) => Blanks(blank) && ItemsOk(items)
    case TreeObject(blank, fields) => Blanks(blank) && FieldsOk(fields) && UniqueNames(fields)
    case _ => true
  }

  predicate ItemsOk(items: seq<Item>) {
    items == [] || (Blanks(items[0].before) && TreeOk(items[0].value) && Blanks(items[0].after) && ItemsOk(items[1..]))
  }

  predicate FieldOk(f: Field) {
    && Blanks(f.before) && PiecesOk(f.name) && Blanks(f.beforeColon) && Blanks(f.afterColon)
    && TreeOk(f.value) && Blanks(f.after)
  }

  predicate FieldsOk(fields: seq<Field>) {
    fields == [] || (FieldOk(fields[0]) && FieldsOk(fields[1..]))
  }

  function FieldNames(fields: seq<Field>): (r: seq<string>)
    ensures |r| == |fields|
  {
    if fields == [] then [] else [PiecesMeaning(fields[0].name)] + FieldNames(fields[1..])
  }

  predicate UniqueNames(fields: seq<Field>) {
    var names := FieldNames(fields);
    forall i, j :: 0 <= i < j < |names| ==> names[i] != names[j]
  }

  // ----- meaning --------------------------------------------------------------------------

  /** The number of keys below a key at the front of the list: where std::lower_bound points. */
  function LowerBound(members: seq<Member>, key: string): (p: nat)
    ensures p <= |members|
  {
    if members == [] || !StrLt(members[0].key, key) then 0 else 1 + LowerBound(members[1..], key)
  }

  /** The member list with one more member, in its place. */
  function Inserted(members: seq<Member>, key: string, value: Json): seq<Member> {
    var p := LowerBound(members, key);
    members[..p] + [Member(key, value)] + members[p..]
  }

  function Meaning(t: Tree): Json {
    match t
    case TreeNull => Null
    case TreeBool(truth) => Bool(truth)
    case TreeNumber(negative, digits) => Int(NumberValue(negative, digits))
    case TreeReal(literal) => Real(literal)
    case TreeString(pieces) => Str(PiecesMeaning(pieces))
    case TreeArray(_, items) => Arr(ItemMeanings(items))
    case TreeObject(_, fields) => Obj(FieldMeanings([], fields))
  }

  function ItemMeanings(items: seq<Item>): (r: seq<Json>)
    ensures |r| == |items|
  {
    if items == [] then [] else [Meaning(items[0].value)] + ItemMeanings(items[1..])
  }

  /** The members inserted one after the other. */
  function FieldMeanings(members: seq<Member>, fields: seq<Field>): (r: seq<Member>)
    ensures |r| == |members| + |fields|
    decreases fields
  {
    if fields == [] then members
    else FieldMeanings(Inserted(members, PiecesMeaning(fields[0].name), Meaning(fields[0].value)), fields[1..])
  }

  // ----- limits ------------------------------------------------------------------------------

  datatype Limits = Limits(maxDepth: nat, maxNodes: nat, maxBytes: nat, maxString: nat)

  const DEFAULT_LIMITS := Limits(64, 4000000, 256 * 1024 * 1024, 4096)
  const MAX_COLLECTION: nat := 100000

  /** A value at a depth stays within the limits on depth, strings and collections. */
  predicate Fits(t: Tree, depth: nat, limits: Limits) {
    && depth <= limits.maxDepth
    && match t
       case TreeString(pieces) => |PiecesMeaning(pieces)| <= limits.maxString
       case TreeArray(_, items) => |items| <= MAX_COLLECTION && ItemsFit(items, depth + 1, limits)
       case TreeObject(_, fields) => |fields| <= MAX_COLLECTION && FieldsFit(fields, depth + 1, limits)
       case _ => true
  }

  predicate ItemsFit(items: seq<Item>, depth: nat, limits: Limits) {
    items == [] || (Fits(items[0].value, depth, limits) && ItemsFit(items[1..], depth, limits))
  }

  predicate FieldsFit(fields: seq<Field>, depth: nat, limits: Limits) {
    fields == []
    || (|PiecesMeaning(fields[0].name)| <= limits.maxString && Fits(fields[0].value, depth, limits)
        && FieldsFit(fields[1..], depth, limits))
  }

  /** The number of values in a tree. */
  function Nodes(t: Tree): (n: nat)
    ensures n > 0
  {
    match t
    case TreeArray(_, items) => 1 + ItemNodes(items)
    case TreeObject(_, fields) => 1 + FieldNodes(fields)
    case _ => 1
  }

  function ItemNodes(items: seq<Item>): nat {
    if items == [] then 0 else Nodes(items[0].value) + ItemNodes(items[1..])
  }

  function FieldNodes(fields: seq<Field>): nat {
    if fields == [] then 0 else Nodes(fields[0].value) + FieldNodes(fields[1..])
  }
}
