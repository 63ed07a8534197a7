/** Digit strings and the numbers they denote: what both amount parsers rest on. */
module Decimals {

  predicate IsDigit(c: char) {
    '0' <= c <= '9'
  }

  predicate AllDigits(s: string) {
    forall i | 0 <= i < |s| :: IsDigit(s[i])
  }

  /** x * 10^n, one factor at a time. */
  function Shift(x: nat, n: nat): nat {
    if n == 0 then x else 10 * Shift(x, n - 1)
  }

  /** x divided by 10^n, the remainder dropped. */
  function Unshift(x: nat, n: nat): nat {
    if n == 0 then x else Unshift(x / 10, n - 1)
  }

  /** The remainder of that division: the last n digits. */
  function Low(x: nat, n: nat): nat {
    if n == 0 then 0 else 10 * Low(x / 10, n - 1) + x % 10
  }

  function Pow10(n: nat): nat {
    Shift(1, n)
  }

  function DigitValue(c: char): (v: nat)
    requires IsDigit(c)
    ensures v < 10
  {
    c as int - '0' as int
  }

  function DigitChar(v: nat): (c: char)
    requires v < 10
    ensures IsDigit(c) && DigitValue(c) == v
  {
    ('0' as int + v) as char
  }

  /** The number a digit string denotes; the empty string denotes zero. */
  function NumberOf(s: string): nat
    requires AllDigits(s)
  {
    if s == "" then 0 else 10 * NumberOf(s[..|s| - 1]) + DigitValue(s[|s| - 1])
  }

  /** The canonical digits of a number. */
  function DigitsOf(n: nat): (s: string)
    ensures s != "" && AllDigits(s)
  {
    if n < 10 then [DigitChar(n)] else DigitsOf(n / 10) + [DigitChar(n % 10)]
  }

  function Zeros(n: nat): (s: string)
    ensures |s| == n && AllDigits(s)
  {
    if n == 0 then "" else Zeros(n - 1) + "0"
  }

  function PadStart(s: string, width: nat): string {
    if |s| >= width then s else Zeros(width - |s|) + s
  }

  function PadEnd(s: string, width: nat): string {
    if |s| >= width then s else s + Zeros(width - |s|)
  }

  /** No leading zero, unless it is the only digit. */
  predicate Canonical(s: string) {
    s != "" && AllDigits(s) && (|s| > 1 ==> s[0] != '0')
  }

  // ------------------------------------------------------------------ Values

  lemma {:induction false} ShiftSum(x: nat, y: nat, n: nat)
    ensures Shift(x + y, n) == Shift(x, n) + Shift(y, n)
  {
    if n == 0 {
    } else {
      ShiftSum(x, y, n - 1);
    }
  }

  lemma {:induction false} ShiftTwice(x: nat, m: nat, n: nat)
    ensures Shift(Shift(x, m), n) == Shift(x, m + n)
  {
    if n == 0 {
    } else {
      ShiftTwice(x, m, n - 1);
    }
  }

  lemma {:induction false} ShiftMonotone(x: nat, y: nat, n: nat)
    requires x <= y
    ensures Shift(x, n) <= Shift(y, n)
  {
    if n == 0 {
    } else {
      ShiftMonotone(x, y, n - 1);
    }
  }

  /** Dividing splits a number into the two parts it is the sum of. */
  lemma {:induction false} UnshiftLow(x: nat, n: nat)
    ensures x == Shift(Unshift(x, n), n) + Low(x, n)
    ensures Low(x, n) < Pow10(n)
  {
    if n == 0 {
    } else {
      UnshiftLow(x / 10, n - 1);
    }
  }

  /** ... and those parts are unique. */
  lemma {:induction false} UnshiftIs(x: nat, n: nat, k: nat, r: nat)
    requires x == Shift(k, n) + r && r < Pow10(n)
    ensures Unshift(x, n) == k && Low(x, n) == r
  {
    if n == 0 {
    } else {
      UnshiftIs(x / 10, n - 1, k, r / 10);
    }
  }

  lemma {:induction false} ShiftIsProduct(x: nat, n: nat)
    ensures Shift(x, n) == x * Pow10(n)
  {
    if n == 0 {
    } else {
      ShiftIsProduct(x, n - 1);
      assert x * Pow10(n) == 10 * (x * Pow10(n - 1));
    }
  }

  lemma {:induction false} Times(k: int, n: nat)
    ensures k >= 1 ==> k * n >= n
    decreases if k < 0 then 0 else k
  {
    if k > 1 {
      Times(k - 1, n);
      assert k * n == (k - 1) * n + n;
    }
  }

  lemma QuotientIs(x: nat, n: nat, k: nat, r: nat)
    requires n > 0 && x == k * n + r && r < n
    ensures x / n == k && x % n == r
  {
    var q := x / n;
    assert x == q * n + x % n;
    assert (q - k) * n == r - x % n;
    assert (k - q) * n == x % n - r;
    Times(q - k, n);
    Times(k - q, n);
  }

  /** Unshift and Low are the quotient and remainder by a power of ten. */
  lemma UnshiftIsQuotient(x: nat, n: nat)
    ensures Pow10(n) > 0 && Unshift(x, n) == x / Pow10(n) && Low(x, n) == x % Pow10(n)
  {
    UnshiftLow(x, n);
    ShiftIsProduct(Unshift(x, n), n);
    QuotientIs(x, Pow10(n), Unshift(x, n), Low(x, n));
  }

  lemma {:induction false} ConcatValue(s: string, t: string)
    requires AllDigits(s) && AllDigits(t)
    ensures AllDigits(s + t)
    ensures NumberOf(s + t) == Shift(NumberOf(s), |t|) + NumberOf(t)
  {
    if t == "" {
      assert s + t == s;
    } else {
      var init := t[..|t| - 1];
      assert (s + t)[..|s + t| - 1] == s + init;
      ConcatValue(s, init);
    }
  }

  lemma {:induction false} ZerosValue(n: nat)
    ensures NumberOf(Zeros(n)) == 0
  {
    if n == 0 {
    } else {
      ZerosValue(n - 1);
      ConcatValue(Zeros(n - 1), "0");
      assert NumberOf("0") == DigitValue('0') + 10 * NumberOf("0"[..0]);
    }
  }

  lemma {:induction false} ValueBound(s: string)
    requires AllDigits(s)
    ensures NumberOf(s) < Pow10(|s|)
  {
    if s == "" {
    } else {
      ValueBound(s[..|s| - 1]);
    }
  }

  lemma {:induction false} DigitsValue(n: nat)
    ensures NumberOf(DigitsOf(n)) == n
  {
    if n < 10 {
      assert DigitsOf(n)[..0] == "";
    } else {
      DigitsValue(n / 10);
      assert DigitsOf(n)[..|DigitsOf(n)| - 1] == DigitsOf(n / 10);
    }
  }

  lemma {:induction false} DigitsLength(n: nat, width: nat)
    requires width >= 1 && n < Pow10(width)
    ensures |DigitsOf(n)| <= width
  {
    if n >= 10 {
      assert Pow10(1) == 10 * Pow10(0);
      assert n / 10 < Pow10(width - 1);
      DigitsLength(n / 10, width - 1);
    }
  }

  lemma {:induction false} ShiftZero(n: nat)
    ensures Shift(0, n) == 0
  {
    if n == 0 {
    } else {
      ShiftZero(n - 1);
    }
  }

  lemma PadStartValue(s: string, width: nat)
    requires AllDigits(s)
    ensures AllDigits(PadStart(s, width)) && NumberOf(PadStart(s, width)) == NumberOf(s)
    ensures |PadStart(s, width)| == if |s| >= width then |s| else width
  {
    if |s| < width {
      ZerosValue(width - |s|);
      ConcatValue(Zeros(width - |s|), s);
      ShiftZero(|s|);
    }
  }

  lemma PadEndValue(s: string, width: nat)
    requires AllDigits(s) && |s| <= width
    ensures AllDigits(PadEnd(s, width))
    ensures NumberOf(PadEnd(s, width)) == Shift(NumberOf(s), width - |s|)
    ensures |PadEnd(s, width)| == width
  {
    ZerosValue(width - |s|);
    ConcatValue(s, Zeros(width - |s|));
  }

  // -------------------------------------------------------------- Characters

  /** The characters String.prototype.trim removes. */
  predicate IsSpace(c: char) {
    || c == '\t' || c == '\n' || c == '\r' || c == ' '
    || c == 11 as char || c == 12 as char || c == 0xA0 as char || c == 0x1680 as char
    || 0x2000 as char <= c <= 0x200A as char
    || c == 0x2028 as char || c == 0x2029 as char || c == 0x202F as char
    || c == 0x205F as char || c == 0x3000 as char || c == 0xFEFF as char
  }

  function TrimStart(s: string): string {
    if s != "" && IsSpace(s[0]) then TrimStart(s[1..]) else s
  }

  function TrimEnd(s: string): string {
    if s != "" && IsSpace(s[|s| - 1]) then TrimEnd(s[..|s| - 1]) else s
  }

  function Trim(s: string): string {
    TrimEnd(TrimStart(s))
  }

  function WithoutCommas(s: string): string {
    if s == "" then ""
    else WithoutCommas(s[..|s| - 1]) + if s[|s| - 1] == ',' then "" else [s[|s| - 1]]
  }

  lemma {:induction false} WithoutCommasConcat(s: string, t: string)
    ensures WithoutCommas(s + t) == WithoutCommas(s) + WithoutCommas(t)
  {
    if t == "" {
      assert s + t == s;
    } else {
      assert (s + t)[..|s + t| - 1] == s + t[..|t| - 1];
      WithoutCommasConcat(s, t[..|t| - 1]);
    }
  }

  lemma {:induction false} NoCommasKept(s: string)
    requires forall i | 0 <= i < |s| :: s[i] != ','
    ensures WithoutCommas(s) == s
  {
    if s == "" {
    } else {
      NoCommasKept(s[..|s| - 1]);
      assert s == s[..|s| - 1] + [s[|s| - 1]];
    }
  }

  /** Where the first point is, if there is one. */
  function PointAt(s: string): (i: nat)
    ensures i <= |s|
    ensures i < |s| ==> s[i] == '.'
    ensures forall j | 0 <= j < i :: s[j] != '.'
  {
    if s == "" || s[0] == '.' then 0
    else
      var i := PointAt(s[1..]);
      assert forall j | 0 <= j < i + 1 :: j > 0 ==> s[j] == s[1..][j - 1];
      i + 1
  }

  function WholePart(s: string): string {
    s[..PointAt(s)]
  }

  function FractionPart(s: string): string {
    if PointAt(s) == |s| then "" else s[PointAt(s) + 1..]
  }

  lemma SplitAtPoint(whole: string, fraction: string)
    requires AllDigits(whole)
    ensures PointAt(whole + "." + fraction) == |whole|
    ensures WholePart(whole + "." + fraction) == whole && FractionPart(whole + "." + fraction) == fraction
    ensures PointAt(whole) == |whole| && WholePart(whole) == whole && FractionPart(whole) == ""
  {
    var s := whole + "." + fraction;
    assert s[|whole|] == '.';
    assert forall j | 0 <= j < |whole| :: s[j] == whole[j];
  }
}
