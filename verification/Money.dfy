/** Amounts in minor units: the parser, the formatter and the unit conversions. */
module Money {
  import opened Wrappers
  import opened Decimals

  /** Currency codes are upper-cased before the lookup. */
  function DecimalsFor(currency: string): Option<nat> {
    if currency == "USDT" then Some(6) else if currency == "USD" then Some(2) else None
  }

  /** An optional sign, digits, and optionally a point and more digits. */
  predicate LooksDecimal(raw: string) {
    AllDigits(WholePart(Unsigned(raw))) && AllDigits(FractionPart(Unsigned(raw)))
  }

  function Unsigned(raw: string): string {
    if raw != "" && raw[0] == '-' then raw[1..] else raw
  }

  /** Whole and fraction digits as one number of minor units; too many fraction digits throw. */
  function Value(whole: string, fraction: string, decimals: nat): Option<nat>
    requires AllDigits(whole) && AllDigits(fraction)
  {
    if |fraction| > decimals then None
    else
      PadEndValue(fraction, decimals);
      Some(Shift(NumberOf(whole), decimals) + NumberOf(PadEnd(fraction, decimals)))
  }

  function Signed(negative: bool, abs: Option<nat>): Option<int> {
    match abs
    case None => None
    case Some(x) => Some(if negative then -(x as int) else x)
  }

  function ParseRaw(raw: string, decimals: nat): Option<int> {
    if !LooksDecimal(raw) || raw == "" || raw == "." || raw == "-" then None
    else Signed(raw[0] == '-', Value(WholePart(Unsigned(raw)), FractionPart(Unsigned(raw)), decimals))
  }

  /** Minor units of a human decimal string, at a given number of decimals; None when it throws. */
  function ParseAt(input: string, decimals: nat): Option<int> {
    ParseRaw(WithoutCommas(Trim(input)), decimals)
  }

  function ParseAmount(input: string, currency: string): Option<int> {
    match DecimalsFor(currency)
    case None => None
    case Some(decimals) => ParseAt(input, decimals)
  }

  /** A comma before every position that has a positive multiple of three digits after it. */
  function Grouped(digits: string, from: nat): string
    requires from <= |digits|
    decreases |digits| - from
  {
    if from == |digits| then ""
    else
      (if from > 0 && (|digits| - from) % 3 == 0 then "," else "") + [digits[from]] + Grouped(digits, from + 1)
  }

  function Slice(s: string, n: nat): string {
    if |s| <= n then s else s[..n]
  }

  /** Display text of an amount: truncated to so many fraction digits, grouped or not. */
  function FormatAt(minor: int, decimals: nat, maxFraction: nat, grouping: bool): string {
    var abs := if minor < 0 then -minor else minor;
    var whole := Unshift(abs, decimals);
    var fraction := Slice(PadStart(DigitsOf(Low(abs, decimals)), decimals), maxFraction);
    var wholeStr := if grouping then Grouped(DigitsOf(whole), 0) else DigitsOf(whole);
    var body := wholeStr + if maxFraction > 0 then "." + fraction else "";
    (if minor < 0 then "-" else "") + body
  }

  /** The default display precision is two digits, or fewer if the currency has fewer. */
  function FormatAmount(minor: int, currency: string, maxFraction: Option<nat>, grouping: bool): Option<string> {
    match DecimalsFor(currency)
    case None => None
    case Some(decimals) =>
      var digits := if maxFraction.Some? then maxFraction.value else if decimals < 2 then decimals else 2;
      Some(FormatAt(minor, decimals, digits, grouping))
  }

  // -------------------------------------------------------------- Round trip

  /** The amount with its last digits set to zero. */
  function Truncated(minor: int, dropped: nat): int {
    var kept := Shift(Unshift(if minor < 0 then -minor else minor, dropped), dropped);
    if minor < 0 then -(kept as int) else kept
  }

  predicate PlainText(s: string) {
    forall i | 0 <= i < |s| :: IsDigit(s[i]) || s[i] == '.' || s[i] == '-' || s[i] == ','
  }

  lemma PlainTrim(s: string)
    requires PlainText(s)
    ensures Trim(s) == s
  {
  }

  lemma {:induction false} GroupedText(digits: string, from: nat)
    requires AllDigits(digits) && from <= |digits|
    ensures PlainText(Grouped(digits, from))
    ensures WithoutCommas(Grouped(digits, from)) == digits[from..]
    decreases |digits| - from
  {
    if from < |digits| {
      var comma := if from > 0 && (|digits| - from) % 3 == 0 then "," else "";
      var rest := Grouped(digits, from + 1);
      GroupedText(digits, from + 1);
      WithoutCommasConcat(comma + [digits[from]], rest);
      WithoutCommasConcat(comma, [digits[from]]);
      NoCommasKept([digits[from]]);
      assert ","[..0] == "";
      assert WithoutCommas(comma) == "";
      assert digits[from..] == [digits[from]] + digits[from + 1..];
    }
  }

  /** Commas stand exactly before every third digit from the end, and never first. */
  lemma {:induction false} GroupedShape(digits: string, from: nat)
    requires AllDigits(digits) && from <= |digits|
    ensures var g, left := Grouped(digits, from), |digits| - from;
            && |g| == left + (if from == 0 && left > 0 then (left - 1) / 3 else left / 3)
            && forall i | 0 <= i < |g| :: g[i] == ',' <==> (|g| - i) % 4 == 0 && (from > 0 || i > 0)
    decreases |digits| - from
  {
    if from < |digits| {
      GroupedShape(digits, from + 1);
      var comma := if from > 0 && (|digits| - from) % 3 == 0 then "," else "";
      var rest := Grouped(digits, from + 1);
      var g := Grouped(digits, from);
      assert g == comma + [digits[from]] + rest;
      var skipped := |comma| + 1;
      forall i | 0 <= i < |g| ensures g[i] == ',' <==> (|g| - i) % 4 == 0 && (from > 0 || i > 0) {
        if i >= skipped { assert g[i] == rest[i - skipped]; }
      }
    }
  }

  /** Sign, whole and fraction text, read back. */
  lemma ReadBack(negative: bool, whole: string, point: bool, fraction: string)
    requires AllDigits(whole) && whole != "" && AllDigits(fraction) && (!point ==> fraction == "")
    ensures var raw := TextOf(negative, whole, point, fraction);
            && LooksDecimal(raw) && raw != "" && raw != "." && raw != "-"
            && (raw[0] == '-' <==> negative)
            && WholePart(Unsigned(raw)) == whole && FractionPart(Unsigned(raw)) == fraction
  {
    SplitAtPoint(whole, fraction);
    var body := whole + if point then "." + fraction else "";
    var raw := TextOf(negative, whole, point, fraction);
    assert point ==> body == whole + "." + fraction;
    assert !point ==> body == whole;
    assert IsDigit(body[0]);
    assert raw == (if negative then "-" else "") + body;
    assert Unsigned(raw) == body;
  }

  /** The value of a text made of those parts. */
  lemma ParseParts(text: string, negative: bool, whole: string, point: bool, fraction: string, decimals: nat)
    requires AllDigits(whole) && whole != "" && AllDigits(fraction) && (!point ==> fraction == "")
    requires Trim(text) == text && WithoutCommas(text) == TextOf(negative, whole, point, fraction)
    ensures ParseAt(text, decimals) == Signed(negative, Value(whole, fraction, decimals))
  {
    ReadBack(negative, whole, point, fraction);
  }

  /** The text FormatAt produces, and what is left of it without commas. */
  lemma FormatText(minor: int, decimals: nat, maxFraction: nat, grouping: bool)
    ensures var abs := if minor < 0 then -minor else minor;
            var fraction := Slice(PadStart(DigitsOf(Low(abs, decimals)), decimals), maxFraction);
            var text := FormatAt(minor, decimals, maxFraction, grouping);
            && AllDigits(fraction)
            && Trim(text) == text
            && WithoutCommas(text) == TextOf(minor < 0, DigitsOf(Unshift(abs, decimals)), maxFraction > 0, fraction)
  {
    var abs := if minor < 0 then -minor else minor;
    var whole := DigitsOf(Unshift(abs, decimals));
    var fraction := Slice(PadStart(DigitsOf(Low(abs, decimals)), decimals), maxFraction);
    PadStartValue(DigitsOf(Low(abs, decimals)), decimals);
    WholeText(whole, grouping);
    TextParts(minor < 0, WholeStr(whole, grouping), whole, maxFraction > 0, fraction);
  }

  function WholeStr(whole: string, grouping: bool): string {
    if grouping then Grouped(whole, 0) else whole
  }

  lemma WholeText(whole: string, grouping: bool)
    requires AllDigits(whole)
    ensures PlainText(WholeStr(whole, grouping)) && WithoutCommas(WholeStr(whole, grouping)) == whole
  {
    GroupedText(whole, 0);
    NoCommasKept(whole);
    assert whole[0..] == whole;
  }

  function TextOf(negative: bool, whole: string, point: bool, fraction: string): string {
    (if negative then "-" else "") + (whole + if point then "." + fraction else "")
  }

  lemma PlainTextOf(negative: bool, whole: string, point: bool, fraction: string)
    requires PlainText(whole) && AllDigits(fraction)
    ensures PlainText(TextOf(negative, whole, point, fraction))
  {
  }

  lemma TextParts(negative: bool, wholeStr: string, whole: string, point: bool, fraction: string)
    requires PlainText(wholeStr) && WithoutCommas(wholeStr) == whole && AllDigits(fraction)
    ensures Trim(TextOf(negative, wholeStr, point, fraction)) == TextOf(negative, wholeStr, point, fraction)
    ensures WithoutCommas(TextOf(negative, wholeStr, point, fraction)) == TextOf(negative, whole, point, fraction)
  {
    PlainTextOf(negative, wholeStr, point, fraction);
    PlainTrim(TextOf(negative, wholeStr, point, fraction));
    var sign, tail := if negative then "-" else "", if point then "." + fraction else "";
    NoCommasKept(tail);
    NoCommasKept(sign);
    WithoutCommasConcat(wholeStr, tail);
    WithoutCommasConcat(sign, wholeStr + tail);
  }

  /** A fraction of `decimals` digits cut to its first few: the rest is a remainder. */
  lemma CutFraction(whole: nat, fraction: string, decimals: nat, shown: nat)
    requires AllDigits(fraction) && |fraction| == decimals && shown <= decimals
    ensures var dropped := decimals - shown;
            var abs := Shift(whole, decimals) + NumberOf(fraction);
            Shift(whole, decimals) + Shift(NumberOf(fraction[..shown]), dropped) ==
            Shift(Unshift(abs, dropped), dropped)
  {
    var dropped := decimals - shown;
    var head, tail := fraction[..shown], fraction[shown..];
    assert fraction == head + tail;
    ConcatValue(head, tail);
    ValueBound(tail);
    ShiftTwice(whole, shown, dropped);
    ShiftSum(Shift(whole, shown), NumberOf(head), dropped);
    UnshiftIs(Shift(whole, decimals) + NumberOf(fraction), dropped,
              Shift(whole, shown) + NumberOf(head), NumberOf(tail));
  }

  /** The fraction digits shown, before any point is put in front of them. */
  function ShownDigits(abs: nat, decimals: nat, maxFraction: nat): (s: string)
    ensures AllDigits(s)
  {
    PadStartValue(DigitsOf(Low(abs, decimals)), decimals);
    if maxFraction > 0 then Slice(PadStart(DigitsOf(Low(abs, decimals)), decimals), maxFraction) else ""
  }

  lemma ParseOfFormat(minor: int, decimals: nat, maxFraction: nat, grouping: bool)
    ensures var abs := if minor < 0 then -minor else minor;
            ParseAt(FormatAt(minor, decimals, maxFraction, grouping), decimals) ==
            Signed(minor < 0,
                   Value(DigitsOf(Unshift(abs, decimals)), ShownDigits(abs, decimals, maxFraction), decimals))
  {
    var abs := if minor < 0 then -minor else minor;
    var whole := DigitsOf(Unshift(abs, decimals));
    FormatText(minor, decimals, maxFraction, grouping);
    SameText(minor < 0, whole, maxFraction > 0, Slice(PadStart(DigitsOf(Low(abs, decimals)), decimals), maxFraction));
    ParseParts(FormatAt(minor, decimals, maxFraction, grouping), minor < 0, whole, maxFraction > 0,
               ShownDigits(abs, decimals, maxFraction), decimals);
  }

  lemma SameText(negative: bool, whole: string, point: bool, fraction: string)
    ensures TextOf(negative, whole, point, fraction) == TextOf(negative, whole, point, if point then fraction else "")
  {
  }

  /** A currency with fraction digits. */
  lemma ShownOfSome(abs: nat, decimals: nat, maxFraction: nat)
    requires decimals > 0
    ensures var shown := if maxFraction < decimals then maxFraction else decimals;
            Value(DigitsOf(Unshift(abs, decimals)), ShownDigits(abs, decimals, maxFraction), decimals) ==
            Some(Shift(Unshift(abs, decimals - shown), decimals - shown))
  {
    var padded := PadStart(DigitsOf(Low(abs, decimals)), decimals);
    var shown := if maxFraction < decimals then maxFraction else decimals;
    FractionDigits(abs, decimals);
    assert ShownDigits(abs, decimals, maxFraction) == padded[..shown];
    ShownPart(abs, padded, decimals, shown);
  }

  /** A currency without. */
  lemma ShownOfNone(abs: nat, maxFraction: nat)
    ensures Value(DigitsOf(abs), ShownDigits(abs, 0, maxFraction), 0) == if maxFraction > 0 then None else Some(abs)
  {
    DigitsValue(abs);
    if maxFraction > 0 {
      PadStartValue(DigitsOf(0), 0);
    }
  }

  /** The digits shown denote the amount with the others set to zero. */
  lemma ShownValue(abs: nat, decimals: nat, maxFraction: nat)
    ensures var shown := if maxFraction < decimals then maxFraction else decimals;
            Value(DigitsOf(Unshift(abs, decimals)), ShownDigits(abs, decimals, maxFraction), decimals) ==
            if decimals == 0 && maxFraction > 0 then None
            else Some(Shift(Unshift(abs, decimals - shown), decimals - shown))
  {
    if decimals > 0 {
      ShownOfSome(abs, decimals, maxFraction);
    } else {
      ShownOfNone(abs, maxFraction);
    }
  }

  lemma ShownPart(abs: nat, padded: string, decimals: nat, shown: nat)
    requires AllDigits(padded) && |padded| == decimals && shown <= decimals
    requires abs == Shift(Unshift(abs, decimals), decimals) + NumberOf(padded)
    ensures Value(DigitsOf(Unshift(abs, decimals)), padded[..shown], decimals) ==
            Some(Shift(Unshift(abs, decimals - shown), decimals - shown))
  {
    DigitsValue(Unshift(abs, decimals));
    PadEndValue(padded[..shown], decimals);
    CutFraction(Unshift(abs, decimals), padded, decimals, shown);
  }

  /**
   * Formatting then parsing truncates toward zero at the last shown digit, for
   * every amount, sign, number of decimals, precision and grouping - unless
   * fraction digits are asked of a currency that has none, which the parser
   * then refuses.
   */
  lemma ParseUndoesFormat(minor: int, decimals: nat, maxFraction: nat, grouping: bool)
    ensures var shown := if maxFraction < decimals then maxFraction else decimals;
            ParseAt(FormatAt(minor, decimals, maxFraction, grouping), decimals) ==
            if decimals == 0 && maxFraction > 0 then None else Some(Truncated(minor, decimals - shown))
  {
    ParseOfFormat(minor, decimals, maxFraction, grouping);
    TruncatedValue(minor, decimals, maxFraction);
  }

  lemma TruncatedValue(minor: int, decimals: nat, maxFraction: nat)
    ensures var abs := if minor < 0 then -minor else minor;
            var shown := if maxFraction < decimals then maxFraction else decimals;
            Signed(minor < 0,
                   Value(DigitsOf(Unshift(abs, decimals)), ShownDigits(abs, decimals, maxFraction), decimals)) ==
            if decimals == 0 && maxFraction > 0 then None else Some(Truncated(minor, decimals - shown))
  {
    ShownValue(if minor < 0 then -minor else minor, decimals, maxFraction);
  }

  /** The padded remainder has exactly `decimals` digits and its own value. */
  lemma FractionDigits(abs: nat, decimals: nat)
    requires decimals >= 1
    ensures var padded := PadStart(DigitsOf(Low(abs, decimals)), decimals);
            && AllDigits(padded) && |padded| == decimals
            && abs == Shift(Unshift(abs, decimals), decimals) + NumberOf(padded)
  {
    UnshiftLow(abs, decimals);
    DigitsLength(Low(abs, decimals), decimals);
    DigitsValue(Low(abs, decimals));
    PadStartValue(DigitsOf(Low(abs, decimals)), decimals);
  }

  /** With every fraction digit shown, nothing is lost. */
  lemma FullRoundTrip(minor: int, currency: string, digits: nat, grouping: bool)
    requires DecimalsFor(currency).Some? && digits >= DecimalsFor(currency).value
    ensures ParseAmount(FormatAmount(minor, currency, Some(digits), grouping).value, currency) == Some(minor)
  {
    ParseUndoesFormat(minor, DecimalsFor(currency).value, digits, grouping);
  }

  /** The amount with its last digits set to zero is its quotient by a power of ten, toward zero, times that power. */
  lemma TruncatedIsQuotient(minor: int, dropped: nat)
    ensures Pow10(dropped) > 0
    ensures Truncated(minor, dropped) ==
            if minor < 0 then -((-minor) / Pow10(dropped) * Pow10(dropped)) else minor / Pow10(dropped) * Pow10(dropped)
  {
    var abs: nat := if minor < 0 then -minor else minor;
    UnshiftIsQuotient(abs, dropped);
    ShiftIsProduct(Unshift(abs, dropped), dropped);
  }

  /** With fewer, the loss is toward zero and less than one unit of the last shown digit. */
  lemma TruncationLoss(minor: int, dropped: nat)
    ensures minor >= 0 ==> 0 <= minor - Truncated(minor, dropped) < Pow10(dropped) && Truncated(minor, dropped) >= 0
    ensures minor <= 0 ==> 0 <= Truncated(minor, dropped) - minor < Pow10(dropped) && Truncated(minor, dropped) <= 0
  {
    UnshiftLow(if minor < 0 then -minor else minor, dropped);
    ShiftZero(dropped);
    ShiftPositive(1, dropped);
    UnshiftIs(0, dropped, 0, 0);
  }

  lemma PlainRaw(s: string)
    requires PlainText(s) && ',' !in s
    ensures WithoutCommas(Trim(s)) == s
  {
    PlainTrim(s);
    NoCommasKept(s);
  }

  /** The guard against a lone sign or a lone point misses the two together: "-." reads as zero. */
  lemma SignAndPointReadAsZero(decimals: nat)
    ensures ParseAt("-.", decimals) == Some(0)
    ensures ParseAt(".", decimals) == None && ParseAt("-", decimals) == None && ParseAt("", decimals) == None
  {
    PlainRaw("-.");
    PlainRaw(".");
    PlainRaw("-");
    PlainRaw("");
    EmptyPartsAreZero(decimals);
  }

  lemma EmptyPartsAreZero(decimals: nat)
    ensures ParseRaw("-.", decimals) == Some(0)
  {
    SplitAtPoint("", "");
    assert Unsigned("-.") == "" + "." + "";
    PadEndValue("", decimals);
    ShiftZero(decimals);
  }

  lemma {:induction false} WithoutCommasSome(s: string)
    ensures forall i | 0 <= i < |WithoutCommas(s)| :: WithoutCommas(s)[i] in s
  {
    if s == "" {
    } else {
      WithoutCommasSome(s[..|s| - 1]);
    }
  }

  lemma {:induction false} TrimSome(s: string)
    ensures forall i | 0 <= i < |Trim(s)| :: Trim(s)[i] in s
  {
    TrimStartSome(s);
    TrimEndSome(TrimStart(s));
    forall i | 0 <= i < |Trim(s)| ensures Trim(s)[i] in s {
      assert Trim(s)[i] in TrimStart(s);
    }
  }

  lemma {:induction false} TrimStartSome(s: string)
    ensures forall i | 0 <= i < |TrimStart(s)| :: TrimStart(s)[i] in s
  {
    if s != "" && IsSpace(s[0]) { TrimStartSome(s[1..]); }
  }

  lemma {:induction false} TrimEndSome(s: string)
    ensures forall i | 0 <= i < |TrimEnd(s)| :: TrimEnd(s)[i] in s
  {
    if s != "" && IsSpace(s[|s| - 1]) { TrimEndSome(s[..|s| - 1]); }
  }

  lemma NoDigits(part: string, raw: string)
    requires forall i | 0 <= i < |part| :: part[i] in raw
    requires forall i | 0 <= i < |raw| :: !IsDigit(raw[i])
    ensures AllDigits(part) <==> part == ""
  {
    if part != "" {
      assert part[0] in raw;
      assert !IsDigit(part[0]);
    }
  }

  lemma NoDigitParts(raw: string)
    requires forall i | 0 <= i < |raw| :: !IsDigit(raw[i])
    ensures LooksDecimal(raw) <==> raw == "" || raw == "." || raw == "-" || raw == "-."
  {
    var u := Unsigned(raw);
    assert forall i | 0 <= i < |u| :: u[i] in raw;
    NoDigits(WholePart(u), raw);
    NoDigits(FractionPart(u), raw);
    assert u == WholePart(u) + u[PointAt(u)..];
    if PointAt(u) < |u| {
      assert u[PointAt(u)..] == "." + FractionPart(u);
    }
  }

  /** A text without a digit is accepted exactly when sign and point are all there is to it, and then reads as zero. */
  lemma DigitlessIff(input: string, decimals: nat)
    requires forall i | 0 <= i < |input| :: !IsDigit(input[i])
    ensures ParseAt(input, decimals) == if WithoutCommas(Trim(input)) == "-." then Some(0) else None
  {
    var raw := WithoutCommas(Trim(input));
    TrimSome(input);
    WithoutCommasSome(Trim(input));
    forall i | 0 <= i < |raw| ensures !IsDigit(raw[i]) {
      assert raw[i] in Trim(input);
      assert raw[i] in input;
    }
    NoDigitParts(raw);
    EmptyPartsAreZero(decimals);
  }

  // ------------------------------------------------------------- Conversions

  /** A raw token value in our own minor units; never rounded up. */
  function FromTokenRawValue(raw: nat, tokenDecimals: nat, decimals: nat): nat {
    if tokenDecimals == decimals then raw
    else if tokenDecimals > decimals then Unshift(raw, tokenDecimals - decimals)
    else Shift(raw, decimals - tokenDecimals)
  }

  function UsdtToUsdCents(usdt: int): int {
    if usdt < 0 then -((-usdt) / 10_000) else usdt / 10_000
  }

  function UsdCentsToUsdt(cents: int): int {
    cents * 10_000
  }

  /** At the finer of the two scales, no more is credited than was received, and less than one unit less. */
  lemma NeverCreditsMore(raw: nat, tokenDecimals: nat, decimals: nat)
    ensures var credited := FromTokenRawValue(raw, tokenDecimals, decimals);
            Shift(credited, tokenDecimals) <= Shift(raw, decimals) < Shift(credited + 1, tokenDecimals)
  {
    var credited := FromTokenRawValue(raw, tokenDecimals, decimals);
    ShiftSum(credited, 1, tokenDecimals);
    ShiftPositive(1, tokenDecimals);
    if tokenDecimals > decimals {
      var extra := tokenDecimals - decimals;
      UnshiftLow(raw, extra);
      ShiftTwice(credited, extra, decimals);
      ShiftMonotone(Shift(credited, extra), raw, decimals);
      ShiftSum(credited, 1, extra);
      ShiftTwice(credited + 1, extra, decimals);
      ShiftMonotone(raw + 1, Shift(credited + 1, extra), decimals);
      ShiftSum(raw, 1, decimals);
      ShiftPositive(1, decimals);
    } else {
      ShiftTwice(raw, decimals - tokenDecimals, tokenDecimals);
    }
  }

  lemma {:induction false} ShiftPositive(x: nat, n: nat)
    requires x > 0
    ensures Shift(x, n) > 0
  {
    if n == 0 {
    } else {
      ShiftPositive(x, n - 1);
    }
  }

  /** Cents survive the trip through USDT units; the other way an amount moves toward zero by less than a cent. */
  lemma CentsRoundTrip(cents: int, usdt: int)
    ensures UsdtToUsdCents(UsdCentsToUsdt(cents)) == cents
    ensures usdt >= 0 ==>
              0 <= UsdCentsToUsdt(UsdtToUsdCents(usdt)) <= usdt < UsdCentsToUsdt(UsdtToUsdCents(usdt)) + 10_000
    ensures usdt <= 0 ==>
              UsdCentsToUsdt(UsdtToUsdCents(usdt)) - 10_000 < usdt <= UsdCentsToUsdt(UsdtToUsdCents(usdt)) <= 0
  {
  }
}
