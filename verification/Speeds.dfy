/**
 * The texts of link speeds (src/model.cpp:144-175): which are accepted, what they mean, and that every bit
 * rate has one, or else is written as a number, so that the older spelling of trees covers both.
 */
module Speeds {
  import opened Identities
  import opened JsonValues
  import opened JsonGrammar
  import opened JsonPrinter
  import opened JsonEditing
  import opened Migration
  import opened LegacyTrees
  import Canonical

  const GIGA: nat := 1_000_000_000
  const MEGA: nat := 1_000_000
  const MAX_SPEED: nat := 1_000_000_000_000

  /** What a suffix multiplies by, if it is one. */
  function Multiplier(suffix: string): Option<nat> {
    if suffix == "" then Some(1)
    else if suffix == "g" || suffix == "G" then Some(GIGA)
    else if suffix == "m" || suffix == "M" then Some(MEGA)
    else None
  }

  /** The text is, apart from outer blanks, at most 18 digits for at most 10^12 and a suffix, and means the rate. */
  ghost predicate Means(text: string, digits: string, suffix: string, bits: nat) {
    && Canonical.TrimsTo(text, digits + suffix) && Multiplier(suffix).Some?
    && 0 < |digits| <= 18 && Digits(digits) && DecimalValue(digits) <= MAX_SPEED
    && bits == DecimalValue(digits) * Multiplier(suffix).value && bits < TWO_64
  }

  lemma {:induction false} DecimalGrows(prefix: string, s: string)
    ensures DecimalValue(prefix) <= DecimalValue(prefix + s)
  {
    if s == "" {
      assert prefix + s == prefix;
    } else {
      DecimalGrows(prefix, s[..|s| - 1]);
      assert (prefix + s)[..|prefix + s| - 1] == prefix + s[..|s| - 1];
    }
  }

  /** Reading on from a prefix gives the number of the whole, unless that is above the bound. */
  lemma {:induction false} ReadDigitsIs(prefix: string, s: string)
    requires DecimalValue(prefix) <= MAX_SPEED
    ensures ReadDigits(s, DecimalValue(prefix))
      == if Digits(s) && DecimalValue(prefix + s) <= MAX_SPEED then Success(DecimalValue(prefix + s)) else Failure(UnknownField)
    decreases |s|
  {
    hide DecimalValue, Digits;
    if s == "" {
      assert prefix + s == prefix;
      DigitsFront(s);
    } else {
      var longer := prefix + [s[0]];
      assert longer + s[1..] == prefix + s;
      OneMoreDigit(prefix, s[0]);
      DecimalGrows(longer, s[1..]);
      DigitsFront(s);
      if IsDigit(s[0]) && DecimalValue(longer) <= MAX_SPEED {
        ReadDigitsIs(longer, s[1..]);
      }
    }
  }

  lemma OneMoreDigit(prefix: string, c: char)
    ensures DecimalValue(prefix + [c]) == 10 * DecimalValue(prefix) + DigitValue(c)
  {
    assert (prefix + [c])[..|prefix|] == prefix;
  }

  lemma DigitsFront(s: string)
    ensures Digits(s) <==> s == "" || (IsDigit(s[0]) && Digits(s[1..]))
  {
    if s != "" && IsDigit(s[0]) && Digits(s[1..]) {
      forall i | 0 <= i < |s|
        ensures IsDigit(s[i])
      {
        assert i > 0 ==> s[i] == s[1..][i - 1];
      }
    }
  }

  /** A last char that is no suffix is part of the digits. */
  lemma OneSplit(text: string, digits: string, suffix: string, bits: nat)
    requires Canonical.Trim(text) == digits + suffix && Means(text, digits, suffix, bits)
    ensures var body := Canonical.Trim(text); var last := body[|body| - 1];
      && body != ""
      && (last in "gGmM" <==> suffix != "")
      && digits == (if last in "gGmM" then body[..|body| - 1] else body)
      && (suffix != "" ==> suffix == [last])
  {
    hide Canonical.Trim, DecimalValue;
    if suffix == "" {
      assert digits + suffix == digits;
      assert IsDigit(digits[|digits| - 1]);
    } else {
      assert |suffix| == 1;
    }
  }

  /** Main result. Exactly these texts are accepted as a speed, with that rate. */
  lemma ParseSpeedIff(text: string, bits: nat)
    ensures ParseSpeed(text) == Success(bits) <==> exists digits, suffix :: Means(text, digits, suffix, bits)
  {
    hide ParseSpeed, Means;
    if exists digits, suffix :: Means(text, digits, suffix, bits) {
      var digits, suffix :| Means(text, digits, suffix, bits);
      MeansIsParsed(text, digits, suffix, bits);
    }
    if ParseSpeed(text) == Success(bits) {
      var digits, suffix := ParsedMeans(text, bits);
    }
  }

  lemma MeansIsParsed(text: string, digits: string, suffix: string, bits: nat)
    requires Means(text, digits, suffix, bits)
    ensures ParseSpeed(text) == Success(bits)
  {
    hide Canonical.Trim, Canonical.TrimsTo, DecimalValue, Digits, ReadDigits;
    Canonical.TrimIff(text, digits + suffix);
    OneSplit(text, digits, suffix, bits);
    ReadWhole(digits);
  }

  lemma ParsedMeans(text: string, bits: nat) returns (digits: string, suffix: string)
    requires ParseSpeed(text) == Success(bits)
    ensures Means(text, digits, suffix, bits)
  {
    hide Canonical.Trim, Canonical.TrimsTo, DecimalValue, Digits, ReadDigits;
    Canonical.TrimIff(text, Canonical.Trim(text));
    var body := Canonical.Trim(text);
    var last := body[|body| - 1];
    suffix := if last in "gGmM" then [last] else "";
    digits := if last in "gGmM" then body[..|body| - 1] else body;
    assert body == digits + suffix;
    ReadWhole(digits);
  }

  lemma ReadWhole(digits: string)
    ensures ReadDigits(digits, 0)
      == if Digits(digits) && DecimalValue(digits) <= MAX_SPEED then Success(DecimalValue(digits)) else Failure(UnknownField)
  {
    ReadDigitsIs("", digits);
    assert "" + digits == digits;
  }

  // ----- writing a rate as a text -------------------------------------------------------------

  /** The decimal text of k with a suffix means k times its multiplier. */
  lemma SpeedTextReads(k: nat, suffix: string)
    requires Multiplier(suffix).Some? && k <= MAX_SPEED && k * Multiplier(suffix).value < TWO_64
    ensures ParseSpeed(NatText(k) + suffix) == Success(k * Multiplier(suffix).value)
  {
    hide ParseSpeed, NatText, DecimalValue, IsInteger, Canonical.Trim, Canonical.TrimsTo, Power10;
    var text := NatText(k) + suffix;
    NatTextReads(k);
    ShortSpeed(k);
    EndsPlain(NatText(k), suffix);
    NoBlanks(text);
    Canonical.TrimIff(text, text);
    ParseSpeedIff(text, k * Multiplier(suffix).value);
    assert Means(text, NatText(k), suffix, k * Multiplier(suffix).value) by { IntegerDigits(NatText(k)); }
  }

  lemma SomeTexts()
    ensures NatText(100) == "100" && NatText(25) == "25" && NatText(9600) == "9600"
  {
    assert NatText(10) == "10" && NatText(100) == NatText(10) + ['0'];
    assert NatText(25) == NatText(2) + ['5'];
    assert NatText(96) == "96" && NatText(960) == NatText(96) + ['0'] && NatText(9600) == NatText(960) + ['0'];
  }

  /** A hundred gigabits, twenty-five megabits and plain bits, in bits per second. */
  lemma Examples()
    ensures ParseSpeed("100g") == Success(100000000000) && ParseSpeed("100G") == Success(100000000000)
    ensures ParseSpeed("25m") == Success(25000000) && ParseSpeed("25M") == Success(25000000)
    ensures ParseSpeed("9600") == Success(9600)
  {
    hide ParseSpeed, NatText;
    SomeTexts();
    SpeedTextReads(100, "g");
    SpeedTextReads(100, "G");
    SpeedTextReads(25, "m");
    SpeedTextReads(25, "M");
    SpeedTextReads(9600, "");
    assert "100" + "g" == "100g" && "100" + "G" == "100G" && "25" + "m" == "25m" && "25" + "M" == "25M" && "9600" + "" == "9600";
  }

  lemma IntegerDigits(s: string)
    requires IsInteger(s)
    ensures s != "" && Digits(s)
  {
  }

  lemma ShortSpeed(k: nat)
    requires k <= MAX_SPEED
    ensures |NatText(k)| <= 13
  {
    assert Power10(6) == 1000000;
    assert Power10(13) == 10000000000000;
    NatTextShort(k, 13);
  }

  lemma EndsPlain(digits: string, suffix: string)
    requires IsInteger(digits) && Multiplier(suffix).Some?
    ensures var text := digits + suffix;
      text != "" && !Canonical.IsSpace(text[0]) && !Canonical.IsSpace(text[|text| - 1])
  {
    assert IsDigit(digits[0]) && IsDigit(digits[|digits| - 1]);
    assert |suffix| <= 1;
  }

  lemma NoBlanks(text: string)
    requires text != "" && !Canonical.IsSpace(text[0]) && !Canonical.IsSpace(text[|text| - 1])
    ensures Canonical.Trim(text) == text
  {
  }

  /** A text for a rate where one is accepted, and the number itself elsewhere. */
  function SpeedText(n: nat): Json {
    if n % GIGA == 0 && n / GIGA <= MAX_SPEED then Str(NatText(n / GIGA) + "g")
    else if n % MEGA == 0 && n / MEGA <= MAX_SPEED then Str(NatText(n / MEGA) + "m")
    else if n <= MAX_SPEED then Str(NatText(n))
    else Int(n)
  }

  /** It is read back as the rate. */
  lemma TextsSpell()
    ensures Spells(SpeedText)
  {
    hide ParseSpeed, NatText;
    forall n: nat | n < TWO_63
      ensures SpeedOf(SpeedText(n)) == Success(n)
    {
      SpeedSpells(n);
    }
  }

  lemma SpeedSpells(n: nat)
    requires n < TWO_63
    ensures SpeedOf(SpeedText(n)) == Success(n)
  {
    hide ParseSpeed, NatText;
    if n % GIGA == 0 && n / GIGA <= MAX_SPEED {
      SpeedTextReads(n / GIGA, "g");
      assert n / GIGA * GIGA == n;
    } else if n % MEGA == 0 && n / MEGA <= MAX_SPEED {
      SpeedTextReads(n / MEGA, "m");
      assert n / MEGA * MEGA == n;
    } else if n <= MAX_SPEED {
      SpeedTextReads(n, "");
      assert NatText(n) + "" == NatText(n);
    }
  }

  /** So a current tree written in any older minor version, with its rates as texts, is read back as it was. */
  lemma UpgradeReadsTexts(t: Json, minor: nat)
    requires Current(t) && minor < SUPPORTED_MINOR
    ensures Upgrade(Legacy(t, minor, SpeedText))
         == Success((Set(t, "schema", Set(Find(t, "schema").value, "upgraded_from", Str(VersionText(minor)))), SUPPORTED_MINOR - minor))
  {
    TextsSpell();
    UpgradeReadsLegacy(t, minor, SpeedText);
  }
}
