/**
 * What the parser reads and what the printer writes, in terms of division and
 * powers of ten: which texts are accepted and as what, which digits are shown.
 */
module Amounts {
  import opened Wrappers
  import opened Decimals
  import opened Money

  // ----------------------------------------------------------------- Parsing

  /** A text made of an optional sign, digits, and optionally a point and more digits. */
  predicate MadeOf(raw: string, negative: bool, whole: string, point: bool, fraction: string) {
    && AllDigits(whole) && AllDigits(fraction) && (point || fraction == "")
    && raw == (if negative then "-" else "") + whole + (if point then "." + fraction else "")
  }

  lemma PartsOf(raw: string, negative: bool, whole: string, point: bool, fraction: string)
    requires MadeOf(raw, negative, whole, point, fraction)
    ensures LooksDecimal(raw)
    ensures raw != "" ==> (raw[0] == '-' <==> negative)
    ensures WholePart(Unsigned(raw)) == whole && FractionPart(Unsigned(raw)) == fraction
  {
    SplitAtPoint(whole, fraction);
    var body := whole + if point then "." + fraction else "";
    assert point ==> body == whole + "." + fraction;
    assert !point ==> body == whole;
    assert raw == (if negative then "-" else "") + body;
    assert Unsigned(raw) == body;
  }

  lemma MadeOfParts(raw: string) returns (negative: bool, whole: string, point: bool, fraction: string)
    requires LooksDecimal(raw)
    ensures MadeOf(raw, negative, whole, point, fraction)
  {
    var body := Unsigned(raw);
    negative, whole, point, fraction :=
      raw != "" && raw[0] == '-', WholePart(body), PointAt(body) < |body|, FractionPart(body);
    SplitBody(body);
    assert raw == (if negative then "-" else "") + body;
  }

  lemma SplitAt(s: string, i: nat)
    requires i < |s|
    ensures s == s[..i] + ([s[i]] + s[i + 1..])
  {
  }

  lemma SplitBody(body: string)
    ensures body == WholePart(body) + if PointAt(body) < |body| then "." + FractionPart(body) else ""
  {
    var at := PointAt(body);
    if at < |body| {
      SplitAt(body, at);
      assert [body[at]] == ".";
    } else {
      assert body[..at] == body;
      assert body + "" == body;
    }
  }

  /** The minor units of digits before and after the point. */
  function Units(whole: string, fraction: string, decimals: nat): nat
    requires AllDigits(whole) && AllDigits(fraction) && |fraction| <= decimals
  {
    NumberOf(whole) * Pow10(decimals) + NumberOf(fraction) * Pow10(decimals - |fraction|)
  }

  /** A text reads as a number of minor units: its parts, no more of them than there are decimals, say so. */
  ghost predicate ReadsAs(raw: string, decimals: nat, value: int) {
    exists negative, whole, point, fraction ::
      && MadeOf(raw, negative, whole, point, fraction)
      && |fraction| <= decimals
      && IsSigned(value, negative, Units(whole, fraction, decimals))
  }

  predicate IsSigned(value: int, negative: bool, units: nat) {
    (negative ==> value == -(units as int)) && (!negative ==> value == units)
  }

  lemma ValueIsUnits(whole: string, fraction: string, decimals: nat)
    requires AllDigits(whole) && AllDigits(fraction)
    ensures Value(whole, fraction, decimals) ==
            if |fraction| > decimals then None else Some(Units(whole, fraction, decimals))
  {
    if |fraction| <= decimals {
      PadEndValue(fraction, decimals);
      ShiftIsProduct(NumberOf(whole), decimals);
      ShiftIsProduct(NumberOf(fraction), decimals - |fraction|);
    }
  }

  /**
   * What the parser accepts, and as what: once trimmed and without its commas,
   * a text that is not empty, a lone point or a lone sign, and that reads so.
   */
  lemma ParseMeans(input: string, decimals: nat, value: int)
    ensures var raw := WithoutCommas(Trim(input));
            ParseAt(input, decimals) == Some(value) <==>
              raw != "" && raw != "." && raw != "-" && ReadsAs(raw, decimals, value)
  {
    var raw := WithoutCommas(Trim(input));
    if LooksDecimal(raw) && raw != "" && raw != "." && raw != "-" {
      var negative, whole, point, fraction := MadeOfParts(raw);
      PartsOf(raw, negative, whole, point, fraction);
      ValueIsUnits(whole, fraction, decimals);
      forall n, w, p, f | MadeOf(raw, n, w, p, f) ensures n == negative && w == whole && f == fraction {
        PartsOf(raw, n, w, p, f);
      }
    } else {
      forall n, w, p, f | MadeOf(raw, n, w, p, f) ensures LooksDecimal(raw) {
        PartsOf(raw, n, w, p, f);
      }
    }
  }

  lemma PlainDigits(digits: string)
    requires AllDigits(digits)
    ensures Trim(digits) == digits && WithoutCommas(digits) == TextOf(false, digits, false, "")
  {
    PlainTrim(digits);
    NoCommasKept(digits);
    assert digits == "" + (digits + "");
  }

  lemma UnitsOfWhole(whole: string, decimals: nat)
    requires AllDigits(whole)
    ensures Units(whole, "", decimals) == NumberOf(whole) * Pow10(decimals)
  {
    assert NumberOf("") * Pow10(decimals) == 0;
  }

  lemma WholeReads(digits: string, decimals: nat)
    requires AllDigits(digits) && digits != ""
    ensures ParseAt(digits, decimals) == Some(Units(digits, "", decimals))
  {
    PlainDigits(digits);
    ParseParts(digits, false, digits, false, "", decimals);
    ValueIsUnits(digits, "", decimals);
  }

  lemma WholeAt(digits: string, decimals: nat)
    requires AllDigits(digits) && digits != ""
    ensures ParseAt(digits, decimals) == Some(NumberOf(digits) * Pow10(decimals))
  {
    WholeReads(digits, decimals);
    UnitsOfWhole(digits, decimals);
  }

  /** A plain whole number of USDT is so many millions of units, of USD so many hundreds; nothing else is a currency. */
  lemma WholeAmounts(digits: string, currency: string)
    requires AllDigits(digits) && digits != ""
    ensures ParseAmount(digits, currency) ==
            if currency == "USDT" then Some(NumberOf(digits) * 1_000_000)
            else if currency == "USD" then Some(NumberOf(digits) * 100)
            else None
  {
    PowersOfTen();
    WholeAt(digits, if currency == "USDT" then 6 else 2);
  }

  lemma PowersOfTen()
    ensures Pow10(2) == 100 && Pow10(4) == 10_000 && Pow10(6) == 1_000_000
  {
    assert Pow10(3) == 10 * Pow10(2);
    assert Pow10(5) == 10 * Pow10(4);
  }

  /** Four more decimals: the same money in units ten thousand times smaller. */
  lemma FourMore(raw: string, decimals: nat, value: int)
    requires ReadsAs(raw, decimals, value)
    ensures ReadsAs(raw, decimals + 4, 10_000 * value)
  {
    var negative, whole, point, fraction :|
      && MadeOf(raw, negative, whole, point, fraction)
      && |fraction| <= decimals
      && IsSigned(value, negative, Units(whole, fraction, decimals));
    FourMoreDigits(whole, fraction, decimals);
    assert MadeOf(raw, negative, whole, point, fraction);
  }

  lemma FourMoreDigits(whole: string, fraction: string, decimals: nat)
    requires AllDigits(whole) && AllDigits(fraction) && |fraction| <= decimals
    ensures Units(whole, fraction, decimals + 4) == 10_000 * Units(whole, fraction, decimals)
  {
    TimesTenThousand(NumberOf(whole), decimals);
    TimesTenThousand(NumberOf(fraction), decimals - |fraction|);
  }

  lemma TimesTenThousand(x: nat, n: nat)
    ensures x * Pow10(n + 4) == 10_000 * (x * Pow10(n))
  {
    assert Pow10(n + 2) == 10 * Pow10(n + 1) && Pow10(n + 1) == 10 * Pow10(n);
    assert Pow10(n + 4) == 10 * Pow10(n + 3) && Pow10(n + 3) == 10 * Pow10(n + 2);
  }

  lemma FourMoreRead(input: string, decimals: nat, value: int)
    requires ParseAt(input, decimals) == Some(value)
    ensures ParseAt(input, decimals + 4) == Some(10_000 * value)
  {
    ParseMeans(input, decimals, value);
    FourMore(WithoutCommas(Trim(input)), decimals, value);
    ParseMeans(input, decimals + 4, 10_000 * value);
  }

  /** What reads as USD cents reads as the same money in USDT. */
  lemma SameMoney(input: string, cents: int)
    requires ParseAmount(input, "USD") == Some(cents)
    ensures ParseAmount(input, "USDT") == Some(UsdCentsToUsdt(cents))
  {
    FourMoreRead(input, 2, cents);
  }

  /** Trimming takes spaces off both ends, and leaves none there. */
  lemma TrimMeans(s: string) returns (before: string, after: string)
    ensures s == before + Trim(s) + after
    ensures forall i | 0 <= i < |before| :: IsSpace(before[i])
    ensures forall i | 0 <= i < |after| :: IsSpace(after[i])
    ensures Trim(s) != "" ==> !IsSpace(Trim(s)[0]) && !IsSpace(Trim(s)[|Trim(s)| - 1])
  {
    before := TrimStartMeans(s);
    after := TrimEndMeans(TrimStart(s));
    assert s == before + (Trim(s) + after);
    if Trim(s) != "" {
      assert TrimStart(s)[0] == Trim(s)[0];
    }
  }

  /** The white space and line terminators of ECMAScript (sections 12.2 and 12.3 of ECMA-262), by code point. */
  lemma SpacesAre(c: char)
    ensures var code := c as int;
            IsSpace(c) <==>
              || 9 <= code <= 13 || code == 32 || code == 160 || code == 5760 || 8192 <= code <= 8202
              || code == 8232 || code == 8233 || code == 8239 || code == 8287 || code == 12288 || code == 65279
  {
  }

  lemma {:induction false} TrimStartMeans(s: string) returns (before: string)
    ensures s == before + TrimStart(s)
    ensures forall i | 0 <= i < |before| :: IsSpace(before[i])
    ensures TrimStart(s) != "" ==> !IsSpace(TrimStart(s)[0])
  {
    if s != "" && IsSpace(s[0]) {
      before := TrimStartMeans(s[1..]);
      before := [s[0]] + before;
    } else {
      before := "";
    }
  }

  lemma {:induction false} TrimEndMeans(s: string) returns (after: string)
    ensures s == TrimEnd(s) + after
    ensures forall i | 0 <= i < |after| :: IsSpace(after[i])
    ensures TrimEnd(s) != "" ==> !IsSpace(TrimEnd(s)[|TrimEnd(s)| - 1])
  {
    if s != "" && IsSpace(s[|s| - 1]) {
      after := TrimEndMeans(s[..|s| - 1]);
      after := after + [s[|s| - 1]];
    } else {
      after := "";
    }
  }

  // ---------------------------------------------------------------- Printing

  /** The digits shown after the point: so many, and what they denote of the amount. */
  predicate ShowsFraction(abs: nat, decimals: nat, shown: nat, fraction: string)
    requires shown <= decimals
  {
    && AllDigits(fraction) && |fraction| == shown
    && Pow10(decimals - shown) > 0 && Pow10(shown) > 0
    && NumberOf(fraction) == (abs / Pow10(decimals - shown)) % Pow10(shown)
  }

  /**
   * What the printer writes: the sign of a negative amount; its whole units,
   * grouped by threes or not; and, if any fraction digits are asked for, a
   * point and as many as the currency has, cut off and never rounded.
   */
  lemma FormatMeans(minor: int, decimals: nat, maxFraction: nat, grouping: bool)
    returns (whole: string, fraction: string)
    requires decimals > 0
    ensures var abs := if minor < 0 then -minor else minor;
            var shown := if maxFraction < decimals then maxFraction else decimals;
            && Canonical(whole) && Pow10(decimals) > 0 && NumberOf(whole) == abs / Pow10(decimals)
            && ShowsFraction(abs, decimals, shown, fraction)
            && FormatAt(minor, decimals, maxFraction, grouping) ==
               (if minor < 0 then "-" else "") +
               ((if grouping then Grouped(whole, 0) else whole) + (if maxFraction > 0 then "." + fraction else ""))
  {
    var abs := if minor < 0 then -minor else minor;
    var shown := if maxFraction < decimals then maxFraction else decimals;
    whole := DigitsOf(Unshift(abs, decimals));
    var padded := PadStart(DigitsOf(Low(abs, decimals)), decimals);
    fraction := padded[..shown];
    UnshiftIsQuotient(abs, decimals);
    DigitsValue(Unshift(abs, decimals));
    DigitsCanonical(Unshift(abs, decimals));
    FractionDigits(abs, decimals);
    ShownIs(abs, decimals, shown, padded);
  }

  /** Whole digits and fraction digits, the last of them dropped. */
  lemma CutValue(abs: nat, whole: nat, head: string, tail: string, shown: nat, dropped: nat)
    requires AllDigits(head) && AllDigits(tail) && |head| == shown && |tail| == dropped
    requires abs == Shift(whole, shown + dropped) + (Shift(NumberOf(head), dropped) + NumberOf(tail))
    ensures Unshift(abs, dropped) == Shift(whole, shown) + NumberOf(head)
  {
    ValueBound(tail);
    ShiftTwice(whole, shown, dropped);
    ShiftSum(Shift(whole, shown), NumberOf(head), dropped);
    UnshiftIs(abs, dropped, Shift(whole, shown) + NumberOf(head), NumberOf(tail));
  }

  /** Digits at the end of a number are its remainder. */
  lemma LastDigits(kept: nat, whole: nat, digits: string)
    requires AllDigits(digits) && kept == Shift(whole, |digits|) + NumberOf(digits)
    ensures Pow10(|digits|) > 0 && NumberOf(digits) == kept % Pow10(|digits|)
  {
    ValueBound(digits);
    UnshiftIs(kept, |digits|, whole, NumberOf(digits));
    UnshiftIsQuotient(kept, |digits|);
  }

  lemma ShownIs(abs: nat, decimals: nat, shown: nat, padded: string)
    requires AllDigits(padded) && |padded| == decimals && shown <= decimals
    requires abs == Shift(Unshift(abs, decimals), decimals) + NumberOf(padded)
    ensures ShowsFraction(abs, decimals, shown, padded[..shown])
  {
    var head, tail := padded[..shown], padded[shown..];
    var whole, dropped := Unshift(abs, decimals), decimals - shown;
    assert padded == head + tail;
    ConcatValue(head, tail);
    CutValue(abs, whole, head, tail, shown, dropped);
    LastDigits(Unshift(abs, dropped), whole, head);
    UnshiftIsQuotient(abs, dropped);
  }

  lemma {:induction false} DigitsCanonical(n: nat)
    ensures Canonical(DigitsOf(n)) && (n > 0 ==> DigitsOf(n)[0] != '0')
  {
    if n < 10 {
    } else {
      DigitsCanonical(n / 10);
    }
  }

  lemma DefaultFor(minor: int, currency: string, decimals: nat, grouping: bool)
    requires DecimalsFor(currency) == Some(decimals) && decimals >= 2
    ensures FormatAmount(minor, currency, None, grouping) == FormatAmount(minor, currency, Some(2), grouping)
    ensures FormatAmount(minor, currency, None, grouping).Some?
    ensures ParseAmount(FormatAmount(minor, currency, None, grouping).value, currency) ==
            Some(Truncated(minor, decimals - 2))
  {
    ParseUndoesFormat(minor, decimals, 2, grouping);
  }

  /** With no precision given, two fraction digits are shown: all of a USD amount, all but four of a USDT one. */
  lemma DefaultPrecision(minor: int, currency: string, grouping: bool)
    requires currency == "USDT" || currency == "USD"
    ensures FormatAmount(minor, currency, None, grouping) == FormatAmount(minor, currency, Some(2), grouping)
    ensures FormatAmount(minor, currency, None, grouping).Some?
    ensures ParseAmount(FormatAmount(minor, currency, None, grouping).value, currency) ==
            Some(if currency == "USD" then minor else Truncated(minor, 4))
  {
    DefaultFor(minor, currency, DecimalsFor(currency).value, grouping);
  }
}
