/** The parser as functions on what is left of the text (src/json.cpp:443-799). */
module JsonParsing {
  import opened Identities
  import opened JsonValues
  import opened JsonGrammar
  import opened Utf8

  datatype ErrorCode =
    | ParseError | DepthExceeded | SizeExceeded | EncodingError | DuplicateKey | LimitExceeded
    | NumberOutOfRange | TrailingContent

  datatype Parsed<T> = Ok(value: T, rest: string) | Err(code: ErrorCode)

  /** A value together with the number of values counted so far. */
  datatype Counted = Counted(json: Json, nodes: nat)

  function SkipBlanks(s: string): (r: string)
    ensures |r| <= |s|
  {
    if s != "" && IsBlank(s[0]) then SkipBlanks(s[1..]) else s
  }

  // ----- strings ------------------------------------------------------------------

  function ParseHex4(s: string): (r: Parsed<nat>)
    ensures r.Ok? ==> |r.rest| == |s| - 4 && r.value < 0x10000
  {
    if |s| < 4 || !IsHex4(s[..4]) then Err(ParseError) else Ok(Hex4(s[..4]), s[4..])
  }

  /** The escape after a backslash: what it stands for. */
  function ParseEscape(s: string): (r: Parsed<string>)
    ensures r.Ok? ==> |r.rest| < |s|
  {
    if s == "" then Err(ParseError)
    else if s[0] in SHORT_ESCAPES then Ok([Unescaped(s[0])], s[1..])
    else if s[0] == 'u' then ParseUnicode(s[1..])
    else Err(ParseError)
  }

  function ParseUnicode(s: string): (r: Parsed<string>)
    ensures r.Ok? ==> |r.rest| < |s|
  {
    match ParseHex4(s)
    case Err(code) => Err(code)
    case Ok(first, rest) =>
      if HighSurrogate(first) then
        if |rest| < 2 || rest[0] != '\\' || rest[1] != 'u' then Err(EncodingError)
        else
          match ParseHex4(rest[2..])
          case Err(code) => Err(code)
          case Ok(second, rest2) =>
            if !LowSurrogate(second) then Err(EncodingError)
            else Ok(Encode(0x10000 + (first - 0xD800) * 1024 + (second - 0xDC00)), rest2)
      else if LowSurrogate(first) then Err(EncodingError)
      else Ok(Encode(first), rest)
  }

  /** The characters after an opening quote, up to and with the closing one. */
  function ParseChars(s: string, out: string, max: nat): (r: Parsed<string>)
    ensures r.Ok? ==> |r.rest| < |s|
    decreases |s|
  {
    if s == "" then Err(ParseError)
    else if s[0] == '"' then Ok(out, s[1..])
    else if s[0] as nat < 0x20 then Err(ParseError)
    else if s[0] != '\\' then
      if |out| + 1 > max then Err(LimitExceeded) else ParseChars(s[1..], out + [s[0]], max)
    else
      match ParseEscape(s[1..])
      case Err(code) => Err(code)
      case Ok(c, rest) => if |out + c| > max then Err(LimitExceeded) else ParseChars(rest, out + c, max)
  }

  // ----- numbers -----------------------------------------------------------------------

  /** The digits at the front. */
  function DigitRun(s: string): (n: nat)
    ensures n <= |s|
  {
    if s != "" && IsDigit(s[0]) then 1 + DigitRun(s[1..]) else 0
  }

  predicate ContinuesNumber(s: string) { s != "" && (s[0] == '.' || s[0] == 'e' || s[0] == 'E') }

  /** At least one digit. */
  function ParseDigits(s: string): (r: Parsed<string>)
    ensures r.Ok? ==> |r.rest| < |s|
  {
    var n := DigitRun(s);
    if n == 0 then Err(ParseError) else Ok(s[..n], s[n..])
  }

  /** A point and digits, or nothing. */
  function ParseFraction(s: string): (r: Parsed<Option<string>>)
    ensures r.Ok? ==> |r.rest| <= |s|
  {
    if s == "" || s[0] != '.' then Ok(None, s)
    else
      match ParseDigits(s[1..])
      case Err(code) => Err(code)
      case Ok(digits, rest) => Ok(Some(digits), rest)
  }

  function SignAt(s: string): (sign: string)
    ensures |sign| <= |s|
  {
    if s != "" && (s[0] == '+' || s[0] == '-') then [s[0]] else ""
  }

  /** A mark, perhaps a sign, and digits, or nothing. */
  function ParseExponent(s: string): (r: Parsed<Option<Exponent>>)
    ensures r.Ok? ==> |r.rest| <= |s|
  {
    if s == "" || (s[0] != 'e' && s[0] != 'E') then Ok(None, s)
    else
      var sign := SignAt(s[1..]);
      match ParseDigits(s[1..][|sign|..])
      case Err(code) => Err(code)
      case Ok(digits, rest) => Ok(Some(Exponent(s[0], sign, digits)), rest)
  }

  function ParseNumber(s: string): (r: Parsed<Json>)
    ensures r.Ok? ==> |r.rest| < |s|
  {
    var negative := s != "" && s[0] == '-';
    ParseUnsigned(negative, if negative then s[1..] else s)
  }

  function ParseUnsigned(negative: bool, s: string): (r: Parsed<Json>)
    ensures r.Ok? ==> |r.rest| < |s|
  {
    if s == "" || !IsDigit(s[0]) then Err(ParseError)
    else
      var n := if s[0] == '0' then 1 else DigitRun(s);
      match ParseFraction(s[n..])
      case Err(code) => Err(code)
      case Ok(fraction, s1) =>
        match ParseExponent(s1)
        case Err(code) => Err(code)
        case Ok(exponent, rest) => NumberFrom(negative, s[..n], fraction, exponent, rest)
  }

  /** An integer, unless there is a fraction or an exponent. */
  function NumberFrom(negative: bool, digits: string, fraction: Option<string>, exponent: Option<Exponent>, rest: string): Parsed<Json> {
    if fraction.None? && exponent.None? then
      var value := NumberValue(negative, digits);
      if MIN_INT <= value <= MAX_INT then Ok(Int(value), rest) else Err(NumberOutOfRange)
    else
      var l := Literal(negative, digits, fraction, exponent);
      if |LiteralText(l)| > MAX_LITERAL || !Finite(l) then Err(NumberOutOfRange) else Ok(Real(l), rest)
  }

  // ----- values ---------------------------------------------------------------------------

  function WithCount(r: Parsed<Json>, nodes: nat): Parsed<Counted> {
    match r
    case Err(code) => Err(code)
    case Ok(json, rest) => Ok(Counted(json, nodes), rest)
  }

  function ParseLiteral(s: string, text: string, json: Json): (r: Parsed<Json>)
    requires text != ""
    ensures r.Ok? ==> |r.rest| < |s|
  {
    if text <= s then Ok(json, s[|text|..]) else Err(ParseError)
  }

  function ParseText(s: string, limits: Limits): (r: Parsed<Json>)
    ensures r.Ok? ==> |r.rest| <= |s|
  {
    match ParseChars(s, "", limits.maxString)
    case Err(code) => Err(code)
    case Ok(text, rest) => Ok(Str(text), rest)
  }

  function ParseValue(s: string, depth: nat, nodes: nat, limits: Limits): (r: Parsed<Counted>)
    ensures r.Ok? ==> |r.rest| < |s|
    decreases |s|, 0
  {
    if depth > limits.maxDepth then Err(DepthExceeded)
    else if nodes + 1 > limits.maxNodes then Err(SizeExceeded)
    else if s == "" then Err(ParseError)
    else if s[0] == '{' then ParseObject(s[1..], depth, nodes + 1, limits)
    else if s[0] == '[' then ParseArray(s[1..], depth, nodes + 1, limits)
    else if s[0] == '"' then WithCount(ParseText(s[1..], limits), nodes + 1)
    else if s[0] == 't' then WithCount(ParseLiteral(s, "true", Bool(true)), nodes + 1)
    else if s[0] == 'f' then WithCount(ParseLiteral(s, "false", Bool(false)), nodes + 1)
    else if s[0] == 'n' then WithCount(ParseLiteral(s, "null", Null), nodes + 1)
    else WithCount(ParseNumber(s), nodes + 1)
  }

  function ParseArray(s: string, depth: nat, nodes: nat, limits: Limits): (r: Parsed<Counted>)
    ensures r.Ok? ==> |r.rest| < |s|
    decreases |s|, 2
  {
    var s1 := SkipBlanks(s);
    if s1 != "" && s1[0] == ']' then Ok(Counted(Arr([]), nodes), s1[1..])
    else ParseItems(s1, depth, nodes, [], limits)
  }

  function ParseItems(s: string, depth: nat, nodes: nat, items: seq<Json>, limits: Limits): (r: Parsed<Counted>)
    ensures r.Ok? ==> |r.rest| < |s|
    decreases |s|, 1
  {
    match ParseValue(SkipBlanks(s), depth + 1, nodes, limits)
    case Err(code) => Err(code)
    case Ok(v, rest) =>
      var items' := items + [v.json];
      if |items'| > MAX_COLLECTION then Err(LimitExceeded)
      else
        var s1 := SkipBlanks(rest);
        if s1 == "" then Err(ParseError)
        else if s1[0] == ',' then ParseItems(s1[1..], depth, v.nodes, items', limits)
        else if s1[0] == ']' then Ok(Counted(Arr(items'), v.nodes), s1[1..])
        else Err(ParseError)
  }

  function ParseObject(s: string, depth: nat, nodes: nat, limits: Limits): (r: Parsed<Counted>)
    ensures r.Ok? ==> |r.rest| < |s|
    decreases |s|, 2
  {
    var s1 := SkipBlanks(s);
    if s1 != "" && s1[0] == '}' then Ok(Counted(Obj([]), nodes), s1[1..])
    else ParseFields(s1, depth, nodes, [], limits)
  }

  /** A member name, the colon and the blanks around it. */
  function ParseName(s: string, limits: Limits): (r: Parsed<string>)
    ensures r.Ok? ==> |r.rest| < |s|
  {
    var s1 := SkipBlanks(s);
    if s1 == "" || s1[0] != '"' then Err(ParseError)
    else
      match ParseChars(s1[1..], "", limits.maxString)
      case Err(code) => Err(code)
      case Ok(key, rest) =>
        var s2 := SkipBlanks(rest);
        if s2 == "" || s2[0] != ':' then Err(ParseError) else Ok(key, SkipBlanks(s2[1..]))
  }

  function ParseFields(s: string, depth: nat, nodes: nat, members: seq<Member>, limits: Limits): (r: Parsed<Counted>)
    ensures r.Ok? ==> |r.rest| < |s|
    decreases |s|, 1
  {
    match ParseName(s, limits)
    case Err(code) => Err(code)
    case Ok(key, rest) =>
      match ParseValue(rest, depth + 1, nodes, limits)
      case Err(code) => Err(code)
      case Ok(v, rest2) =>
        if key in Keys(members) then Err(DuplicateKey)
        else
          var members' := Inserted(members, key, v.json);
          if |members'| > MAX_COLLECTION then Err(LimitExceeded)
          else
            var s1 := SkipBlanks(rest2);
            if s1 == "" then Err(ParseError)
            else if s1[0] == ',' then ParseFields(s1[1..], depth, v.nodes, members', limits)
            else if s1[0] == '}' then Ok(Counted(Obj(members'), v.nodes), s1[1..])
            else Err(ParseError)
  }

  /** A whole document. */
  ghost function Parse(text: string, limits: Limits): Parsed<Json> {
    if |text| > limits.maxBytes then Err(SizeExceeded)
    else if !ValidUtf8(text) then Err(EncodingError)
    else
      match ParseValue(SkipBlanks(text), 0, 0, limits)
      case Err(code) => Err(code)
      case Ok(v, rest) => if SkipBlanks(rest) != "" then Err(TrailingContent) else Ok(v.json, "")
  }
}
