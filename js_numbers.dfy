/**
 * JavaScript numbers as the card browser produces them: `parseInt(s, 10)`, `Number(s)`,
 * the decimal text of an index, and `<`/`<=` on numbers. Only integral values and NaN
 * arise from these conversions in the model.
 */
module JsNumbers {
  import JsString

  /** An integral JavaScript number, or NaN (also what `undefined` becomes in a comparison). */
  datatype Number = Int(value: int) | NaN

  /** `a < b`: false whenever either side is NaN. */
  predicate Less(a: Number, b: Number) {
    a.Int? && b.Int? && a.value < b.value
  }

  /** `a <= b`: false whenever either side is NaN. */
  predicate LessEq(a: Number, b: Number) {
    a.Int? && b.Int? && a.value <= b.value
  }

  predicate IsDigit(c: char) {
    '0' <= c <= '9'
  }

  predicate AllDigits(s: string) {
    forall i :: 0 <= i < |s| ==> IsDigit(s[i])
  }

  function DigitValue(c: char): nat
    requires IsDigit(c)
  {
    (c - '0') as nat
  }

  /** The value of a decimal digit string (0 for the empty string). */
  function DigitsValue(s: string): nat
    requires AllDigits(s)
  {
    if s == [] then 0 else DigitsValue(s[..|s| - 1]) * 10 + DigitValue(s[|s| - 1])
  }

  /** `${n}`: the decimal text of a non-negative integer, without leading zeros. */
  function Decimal(n: nat): (s: string)
    ensures |s| >= 1 && AllDigits(s)
    ensures |s| > 1 ==> s[0] != '0'
  {
    if n < 10 then ['0' + n as char] else Decimal(n / 10) + ['0' + (n % 10) as char]
  }

  /** Reading back the decimal text of `n` gives `n`. */
  lemma {:induction false} DecimalRoundTrip(n: nat)
    ensures DigitsValue(Decimal(n)) == n
  {
    if n >= 10 {
      var s := Decimal(n);
      assert s[..|s| - 1] == Decimal(n / 10);
      DecimalRoundTrip(n / 10);
    }
  }

  /** Different indices have different decimal texts. */
  lemma DecimalInjective(m: nat, n: nat)
    requires Decimal(m) == Decimal(n)
    ensures m == n
  {
    DecimalRoundTrip(m);
    DecimalRoundTrip(n);
  }

  /** The longest prefix of `s` made of decimal digits. */
  function LeadingDigits(s: string): (d: string)
    ensures |d| <= |s| && d == s[..|d|] && AllDigits(d)
    ensures |d| < |s| ==> !IsDigit(s[|d|])
  {
    if s != [] && IsDigit(s[0]) then [s[0]] + LeadingDigits(s[1..]) else []
  }

  /** What follows an optional leading sign, and the sign's factor. */
  function Unsigned(s: string): string {
    if s != [] && (s[0] == '-' || s[0] == '+') then s[1..] else s
  }

  function SignOf(s: string): int {
    if s != [] && s[0] == '-' then -1 else 1
  }

  /** The text `parseInt` reads digits from: after leading whitespace and an optional sign. */
  function NumericPart(s: string): string {
    Unsigned(JsString.TrimStart(s))
  }

  /**
   * `parseInt(s, 10)`: skips leading whitespace, takes an optional sign, then the longest
   * run of digits; NaN when there is no digit there. Whatever follows the digits is ignored.
   */
  function ParseInt(s: string): Number {
    var digits := LeadingDigits(NumericPart(s));
    if digits == [] then NaN else Int(SignOf(JsString.TrimStart(s)) * DigitsValue(digits))
  }

  /** A digit string followed by anything that is not a digit parses to the digits' value. */
  lemma {:induction false} ParseIntOfDigits(d: string, rest: string)
    requires d != [] && AllDigits(d)
    requires rest == [] || !IsDigit(rest[0])
    ensures ParseInt(d + rest) == Int(DigitsValue(d))
  {
    var s := d + rest;
    assert !JsString.IsWhitespace(s[0]);
    assert NumericPart(s) == s;
    LeadingDigitsOf(d, rest);
  }

  lemma {:induction false} LeadingDigitsOf(d: string, rest: string)
    requires AllDigits(d)
    requires rest == [] || !IsDigit(rest[0])
    ensures LeadingDigits(d + rest) == d
  {
    if d != [] {
      LeadingDigitsOf(d[1..], rest);
      assert (d + rest)[1..] == d[1..] + rest;
    }
  }

  /** A string that has no digit after its whitespace and sign is NaN, never 0. */
  lemma ParseIntNonNumeric(s: string)
    requires NumericPart(s) == [] || !IsDigit(NumericPart(s)[0])
    ensures ParseInt(s) == NaN
  {
  }

  /** `parseInt` yields 0 only from text whose first digit is '0'. */
  lemma ParseIntZero(s: string)
    requires ParseInt(s) == Int(0)
    ensures NumericPart(s) != [] && NumericPart(s)[0] == '0'
  {
    ZeroDigits(LeadingDigits(NumericPart(s)));
  }

  /** A digit string worth 0 is all zeros. */
  lemma {:induction false} ZeroDigits(d: string)
    requires AllDigits(d) && DigitsValue(d) == 0
    ensures forall i :: 0 <= i < |d| ==> d[i] == '0'
  {
    if d != [] {
      ZeroDigits(d[..|d| - 1]);
      assert forall i :: 0 <= i < |d| - 1 ==> d[i] == d[..|d| - 1][i];
    }
  }

  /**
   * `Number(s)`: the whole text after trimming must be an optionally signed digit string;
   * the empty (or all-whitespace) string is 0; anything else is NaN.
   */
  function ToNumber(s: string): Number {
    var t := JsString.Trim(s);
    var u := Unsigned(t);
    if t == [] then Int(0)
    else if u != [] && AllDigits(u) then Int(SignOf(t) * DigitsValue(u))
    else NaN
  }

  /** `Number` of a plain digit string (the empty one included) is its decimal value. */
  lemma ToNumberOfDigits(d: string)
    requires AllDigits(d)
    ensures ToNumber(d) == Int(DigitsValue(d))
  {
    if d != [] {
      assert IsDigit(d[0]) && IsDigit(d[|d| - 1]);
      JsString.TrimUnchanged(d);
      assert Unsigned(d) == d;
    }
  }
}
