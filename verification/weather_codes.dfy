/** Japanese labels for WMO weather codes (services/weatherCodes.ts). */
module WeatherCodes {
  import opened Wrappers

  /** The 28 codes the app knows, with their labels. */
  const CodeToJa: map<int, string> := map[
    0 := "快晴",
    1 := "晴れ",
    2 := "薄曇り",
    3 := "曇り",
    45 := "霧",
    48 := "霧（樹氷）",
    51 := "霧雨",
    53 := "霧雨",
    55 := "霧雨",
    56 := "着氷性の霧雨",
    57 := "着氷性の霧雨",
    61 := "雨",
    63 := "雨",
    65 := "雨",
    66 := "着氷性の雨",
    67 := "着氷性の雨",
    71 := "雪",
    73 := "雪",
    75 := "雪",
    77 := "霧雪",
    80 := "にわか雨",
    81 := "にわか雨",
    82 := "にわか雨",
    85 := "にわか雪",
    86 := "にわか雪",
    95 := "雷雨",
    96 := "雷雨（雹）",
    99 := "激しい雷雨（雹）"
  ]

  const KnownCodes: set<int> :=
    {0, 1, 2, 3, 45, 48, 51, 53, 55, 56, 57, 61, 63, 65, 66, 67,
     71, 73, 75, 77, 80, 81, 82, 85, 86, 95, 96, 99}

  const NoCode: string := "--"
  const UnknownOpen: string := "不明（"
  const UnknownClose: string := "）"

  predicate IsDigit(c: char) {
    '0' <= c <= '9'
  }

  function DigitChar(d: nat): (c: char)
    requires d < 10
    ensures IsDigit(c) && c as int - '0' as int == d
  {
    ('0' as int + d) as char
  }

  /** Decimal digits of `n`, most significant first, with no leading zero. */
  function NatToDecimal(n: nat): (s: string)
    ensures s != [] && AllDigits(s)
    ensures |s| > 1 ==> s[0] != '0'
  {
    if n < 10 then [DigitChar(n)] else NatToDecimal(n / 10) + [DigitChar(n % 10)]
  }

  /** How a template literal prints an integer: an optional minus sign, then
      its decimal digits. */
  function IntToDecimal(i: int): (s: string)
    ensures s != [] && (s[0] == '-' <==> i < 0)
  {
    if i < 0 then "-" + NatToDecimal(-i) else NatToDecimal(i)
  }

  predicate AllDigits(s: string) {
    forall i :: 0 <= i < |s| ==> IsDigit(s[i])
  }

  /** Reading back a string of decimal digits. */
  function ParseNat(s: string): nat
    requires AllDigits(s)
  {
    if s == [] then 0
    else ParseNat(s[..|s| - 1]) * 10 + (s[|s| - 1] as int - '0' as int)
  }

  /** Reading back an optional minus sign followed by decimal digits. */
  function ParseInt(s: string): int
    requires if s != [] && s[0] == '-' then AllDigits(s[1..]) else AllDigits(s)
  {
    if s != [] && s[0] == '-' then -(ParseNat(s[1..]) as int) else ParseNat(s)
  }

  lemma {:induction false} NatDecimalRoundTrip(n: nat)
    ensures ParseNat(NatToDecimal(n)) == n
  {
    if n >= 10 {
      NatDecimalRoundTrip(n / 10);
      var s := NatToDecimal(n);
      assert s[..|s| - 1] == NatToDecimal(n / 10);
    }
  }

  /** The printed code determines the code. */
  lemma DecimalRoundTrip(i: int)
    ensures ParseInt(IntToDecimal(i)) == i
  {
    if i < 0 {
      NatDecimalRoundTrip(-i);
      assert ("-" + NatToDecimal(-i))[1..] == NatToDecimal(-i);
    } else {
      NatDecimalRoundTrip(i);
    }
  }

  /** No table label is "--", and none starts with the character that opens
      the label of an unknown code. */
  lemma TableLabels(code: int)
    requires code in CodeToJa
    ensures CodeToJa[code] != [] && CodeToJa[code] != NoCode && CodeToJa[code][0] != UnknownOpen[0]
  {
  }

  /** `weatherCodeToJa`: "--" exactly when there is no code, and never an
      empty label. */
  function WeatherCodeToJa(code: Option<int>): (ja: string)
    ensures ja != []
    ensures ja == NoCode <==> code.None?
  {
    if code.None? then NoCode
    else if code.value in CodeToJa then (TableLabels(code.value); CodeToJa[code.value])
    else UnknownOpen + IntToDecimal(code.value) + UnknownClose
  }

  /** The table is keyed by exactly the 28 known codes, and each of them
      gets its table label. */
  lemma KnownCodeLabel(code: int)
    requires code in KnownCodes
    ensures code in CodeToJa && WeatherCodeToJa(Some(code)) == CodeToJa[code]
  {
  }

  /** Any other code is shown as "不明（", the code in decimal, "）": the text
      between the brackets is a minus sign exactly for a negative code, then
      digits without a leading zero, and reads back as the code. */
  lemma {:induction false} UnknownCodeLabel(code: int)
    requires code !in KnownCodes
    ensures var ja := WeatherCodeToJa(Some(code));
      && |ja| > |UnknownOpen| + |UnknownClose|
      && ja[..|UnknownOpen|] == UnknownOpen
      && ja[|ja| - |UnknownClose|..] == UnknownClose
      && ParseInt(ja[|UnknownOpen|..|ja| - |UnknownClose|]) == code
      && var mid := ja[|UnknownOpen|..|ja| - |UnknownClose|];
         && (mid[0] == '-' <==> code < 0)
         && var digits := if code < 0 then mid[1..] else mid;
            |digits| > 1 ==> digits[0] != '0'
  {
    var ja := WeatherCodeToJa(Some(code));
    var digits := IntToDecimal(code);
    assert ja == UnknownOpen + digits + UnknownClose;
    assert ja[|UnknownOpen|..|ja| - |UnknownClose|] == digits;
    DecimalRoundTrip(code);
  }

  /** Distinct codes outside the table get distinct labels. */
  lemma {:induction false} UnknownLabelsDiffer(a: int, b: int)
    requires a !in KnownCodes && b !in KnownCodes && a != b
    ensures WeatherCodeToJa(Some(a)) != WeatherCodeToJa(Some(b))
  {
    UnknownCodeLabel(a);
    UnknownCodeLabel(b);
  }

  /** A code outside the table never gets the label of a code in it. */
  lemma {:induction false} UnknownLabelNeverKnown(known: int, other: int)
    requires known in KnownCodes && other !in KnownCodes
    ensures WeatherCodeToJa(Some(known)) != WeatherCodeToJa(Some(other))
  {
    KnownCodeLabel(known);
    TableLabels(known);
    UnknownCodeLabel(other);
  }

  lemma DrizzleLabel()
    ensures WeatherCodeToJa(Some(51)) == WeatherCodeToJa(Some(53)) == WeatherCodeToJa(Some(55)) == "霧雨"
  {
  }

  lemma RainLabel()
    ensures WeatherCodeToJa(Some(61)) == WeatherCodeToJa(Some(63)) == WeatherCodeToJa(Some(65)) == "雨"
  {
  }

  lemma SnowLabel()
    ensures WeatherCodeToJa(Some(71)) == WeatherCodeToJa(Some(73)) == WeatherCodeToJa(Some(75)) == "雪"
  {
  }

  lemma ShowerLabel()
    ensures WeatherCodeToJa(Some(80)) == WeatherCodeToJa(Some(81)) == WeatherCodeToJa(Some(82)) == "にわか雨"
  {
  }

  /** Codes of one kind of weather share a label. */
  lemma GroupedCodesShareLabel()
    ensures WeatherCodeToJa(Some(51)) == WeatherCodeToJa(Some(53)) == WeatherCodeToJa(Some(55)) == "霧雨"
    ensures WeatherCodeToJa(Some(61)) == WeatherCodeToJa(Some(63)) == WeatherCodeToJa(Some(65)) == "雨"
    ensures WeatherCodeToJa(Some(71)) == WeatherCodeToJa(Some(73)) == WeatherCodeToJa(Some(75)) == "雪"
    ensures WeatherCodeToJa(Some(80)) == WeatherCodeToJa(Some(81)) == WeatherCodeToJa(Some(82)) == "にわか雨"
  {
    DrizzleLabel();
    RainLabel();
    SnowLabel();
    ShowerLabel();
  }

  lemma UnknownCodeExample()
    ensures WeatherCodeToJa(Some(4)) == "不明（4）"
    ensures WeatherCodeToJa(Some(-12)) == "不明（-12）"
  {
    assert IntToDecimal(-12) == "-12" by {
      assert NatToDecimal(12) == NatToDecimal(1) + [DigitChar(2)];
    }
  }
}
