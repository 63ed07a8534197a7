/** The settings editor's own pair: minor-unit digit strings shown and read with six decimals. */
module SettingsAmounts {
  import opened Wrappers
  import opened Decimals
  import opened Money

  function WithoutTrailingZeros(s: string): string {
    if s != "" && s[|s| - 1] == '0' then WithoutTrailingZeros(s[..|s| - 1]) else s
  }

  /** Leading zeros go, as long as a digit follows. */
  function WithoutLeadingZeros(s: string): string {
    if |s| >= 2 && s[0] == '0' && IsDigit(s[1]) then WithoutLeadingZeros(s[1..]) else s
  }

  /** The text of a whole part and a six-digit tail. */
  function EditorTextOf(whole: string, tail: string): string {
    var fraction := WithoutTrailingZeros(tail);
    if fraction != "" then whole + "." + fraction else whole
  }

  function FromMinor(value: string): string {
    var padded := PadStart(value, 7);
    var whole := padded[..|padded| - 6];
    EditorTextOf(whole, padded[|padded| - 6..])
  }

  /** Digits, and optionally a point and at most six more. */
  predicate Accepted(s: string) {
    && WholePart(s) != "" && AllDigits(WholePart(s))
    && AllDigits(FractionPart(s)) && |FractionPart(s)| <= 6
  }

  function ToMinor(input: string): Option<string> {
    var trimmed := Trim(input);
    if !Accepted(trimmed) then None
    else Some(WithoutLeadingZeros(WholePart(trimmed) + PadEnd(FractionPart(trimmed), 6)))
  }

  lemma {:induction false} TrailingZerosPadBack(s: string, width: nat)
    requires |s| <= width && AllDigits(s)
    ensures AllDigits(WithoutTrailingZeros(s)) && |WithoutTrailingZeros(s)| <= |s|
    ensures PadEnd(WithoutTrailingZeros(s), width) == PadEnd(s, width)
  {
    if s != "" && s[|s| - 1] == '0' {
      var init := s[..|s| - 1];
      TrailingZerosPadBack(init, width);
      ZerosFront(width - |s|);
      assert s == init + "0";
      assert PadEnd(init, width) == init + ("0" + Zeros(width - |s|));
    }
  }

  lemma {:induction false} ZerosFront(n: nat)
    ensures Zeros(n + 1) == "0" + Zeros(n)
  {
    if n == 0 {
    } else {
      ZerosFront(n - 1);
      assert "0" + Zeros(n - 1) + "0" == "0" + (Zeros(n - 1) + "0");
    }
  }

  lemma StripOne(rest: string)
    requires rest != "" && AllDigits(rest)
    ensures WithoutLeadingZeros("0" + rest) == WithoutLeadingZeros(rest)
  {
    assert ("0" + rest)[1..] == rest;
  }

  lemma {:induction false} LeadingZerosStripped(n: nat, s: string)
    requires Canonical(s)
    ensures WithoutLeadingZeros(Zeros(n) + s) == s
  {
    if n == 0 {
      assert Zeros(0) + s == s;
    } else {
      ZerosFront(n - 1);
      assert Zeros(n) + s == "0" + (Zeros(n - 1) + s);
      StripOne(Zeros(n - 1) + s);
      LeadingZerosStripped(n - 1, s);
    }
  }

  lemma {:induction false} LeadingZerosKeepValue(s: string)
    requires AllDigits(s) && s != ""
    ensures Canonical(WithoutLeadingZeros(s)) && NumberOf(WithoutLeadingZeros(s)) == NumberOf(s)
  {
    if |s| >= 2 && s[0] == '0' {
      assert s == "0" + s[1..];
      ConcatValue("0", s[1..]);
      assert "0"[..0] == "" && NumberOf("0") == 0;
      ShiftZero(|s[1..]|);
      LeadingZerosKeepValue(s[1..]);
    }
  }

  lemma EditorText(whole: string, fraction: string)
    requires AllDigits(whole) && whole != "" && AllDigits(fraction) && |fraction| <= 6
    ensures var text := if fraction != "" then whole + "." + fraction else whole;
            && Trim(text) == text && Accepted(text)
            && WholePart(text) == whole && FractionPart(text) == fraction
  {
    SplitAtPoint(whole, fraction);
    PlainTrim(if fraction != "" then whole + "." + fraction else whole);
  }

  /** What the editor shows reads back as the digits it was cut from. */
  lemma EditorShows(whole: string, tail: string)
    requires AllDigits(whole) && whole != "" && AllDigits(tail) && |tail| == 6
    ensures ToMinor(EditorTextOf(whole, tail)) == Some(WithoutLeadingZeros(whole + tail))
  {
    TrailingZerosPadBack(tail, 6);
    EditorText(whole, WithoutTrailingZeros(tail));
    assert PadEnd(tail, 6) == tail;
  }

  lemma PaddingStripped(value: string)
    requires Canonical(value)
    ensures WithoutLeadingZeros(PadStart(value, 7)) == value
  {
    LeadingZerosStripped(if |value| < 7 then 7 - |value| else 0, value);
    assert Zeros(0) + value == value;
  }

  /** Showing a canonical amount and saving it back changes nothing, whatever its length. */
  lemma EditorRoundTrip(value: string)
    requires Canonical(value)
    ensures ToMinor(FromMinor(value)) == Some(value)
  {
    PadStartValue(value, 7);
    PaddingStripped(value);
    var padded := PadStart(value, 7);
    assert padded[..|padded| - 6] + padded[|padded| - 6..] == padded;
    EditorShows(padded[..|padded| - 6], padded[|padded| - 6..]);
  }

  lemma {:induction false} AcceptedHasNoCommas(s: string)
    requires Accepted(s)
    ensures WithoutCommas(s) == s && Unsigned(s) == s && LooksDecimal(s) && s != "." && s != "-"
  {
    var i := PointAt(s);
    assert WholePart(s)[0] == s[0];
    forall k | 0 <= k < |s| ensures s[k] != ',' {
      if k < i { assert s[k] == WholePart(s)[k]; }
      else if k > i { assert s[k] == FractionPart(s)[k - i - 1]; }
    }
    NoCommasKept(s);
  }

  /** Whatever the editor accepts, it saves the number parseAmount reads. */
  lemma EditorAgreesWithParser(input: string)
    ensures ToMinor(input).Some? ==>
              && Canonical(ToMinor(input).value)
              && ParseAmount(input, "USDT") == Some(NumberOf(ToMinor(input).value))
  {
    var trimmed := Trim(input);
    if Accepted(trimmed) {
      var whole, fraction := WholePart(trimmed), FractionPart(trimmed);
      AcceptedHasNoCommas(trimmed);
      PadEndValue(fraction, 6);
      ConcatValue(whole, PadEnd(fraction, 6));
      LeadingZerosKeepValue(whole + PadEnd(fraction, 6));
    }
  }

  /** It accepts what the parser accepts that starts with a digit and has no commas, and nothing else. */
  lemma EditorAcceptsIff(input: string)
    ensures ToMinor(input).Some? <==>
              && ParseAmount(input, "USDT").Some?
              && Trim(input) != "" && IsDigit(Trim(input)[0]) && ',' !in Trim(input)
  {
    var trimmed := Trim(input);
    EditorAgreesWithParser(input);
    if Accepted(trimmed) {
      AcceptedHasNoCommas(trimmed);
      CommasGone(trimmed);
      assert trimmed[0] == WholePart(trimmed)[0];
    } else if trimmed != "" && IsDigit(trimmed[0]) && ',' !in trimmed {
      NoCommasKept(trimmed);
    }
  }

  lemma {:induction false} CommasGone(s: string)
    ensures ',' !in WithoutCommas(s)
  {
    if s == "" {
    } else {
      CommasGone(s[..|s| - 1]);
    }
  }

  lemma {:induction false} TrailingZerosGone(s: string)
    ensures WithoutTrailingZeros(s) != "" ==> WithoutTrailingZeros(s)[|WithoutTrailingZeros(s)| - 1] != '0'
  {
    if s != "" && s[|s| - 1] == '0' {
      TrailingZerosGone(s[..|s| - 1]);
    }
  }

  /** What the editor shows of a canonical amount: canonical whole digits, and a point only before a short fraction. */
  lemma EditorWritesShort(value: string)
    requires Canonical(value)
    ensures var text := FromMinor(value);
            var fraction := FractionPart(text);
            && Canonical(WholePart(text)) && AllDigits(fraction) && |fraction| <= 6
            && ('.' in text <==> fraction != "")
            && (fraction != "" ==> fraction[|fraction| - 1] != '0')
  {
    PadStartValue(value, 7);
    var padded := PadStart(value, 7);
    var whole, tail := padded[..|padded| - 6], padded[|padded| - 6..];
    TrailingZerosPadBack(tail, 6);
    TrailingZerosGone(tail);
    EditorText(whole, WithoutTrailingZeros(tail));
    WholeCanonical(value);
  }

  lemma WholeCanonical(value: string)
    requires Canonical(value)
    ensures var padded := PadStart(value, 7); |padded| >= 7 && Canonical(padded[..|padded| - 6])
  {
    PadStartValue(value, 7);
    if |value| > 7 {
      assert PadStart(value, 7)[0] == value[0];
    }
  }
}
