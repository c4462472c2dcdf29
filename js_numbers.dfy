/**
 * ECMAScript's `Number(string)` as far as the `user` endpoint depends on it:
 * whether the string is a StringNumericLiteral (otherwise the result is
 * NaN), and the value of the literals written as an optionally signed run of
 * decimal digits within the safe-integer range, where the value is exact.
 */
module JsNumbers {
  import opened Chars

  /** 2^53 - 1, `Number.MAX_SAFE_INTEGER`. */
  const MaxSafeInteger: int := 0x1F_FFFF_FFFF_FFFF

  function TrimStart(s: string): string {
    if s != [] && IsWhiteSpace(s[0]) then TrimStart(s[1..]) else s
  }

  function TrimEnd(s: string): string {
    if s != [] && IsWhiteSpace(s[|s| - 1]) then TrimEnd(s[..|s| - 1]) else s
  }

  /** Leading and trailing StrWhiteSpace removed. */
  function Trim(s: string): string {
    TrimEnd(TrimStart(s))
  }

  predicate IsDigits(s: string) {
    |s| > 0 && AllDigits(s)
  }

  predicate AllIn(s: string, alphabet: string) {
    forall i :: 0 <= i < |s| ==> s[i] in alphabet
  }

  /** The index of the first `c` in `s`, or `|s|` when there is none. */
  function IndexOf(s: string, c: char): (k: nat)
    ensures k <= |s| && c !in s[..k]
    ensures k < |s| ==> s[k] == c
  {
    if s == [] then 0
    else if s[0] == c then 0
    else assert s[1..][..IndexOf(s[1..], c)] == s[1..IndexOf(s[1..], c) + 1]; 1 + IndexOf(s[1..], c)
  }

  /** The index of the first `e` or `E`, or `|s|`. */
  function IndexOfExponent(s: string): (k: nat)
    ensures k <= |s|
    ensures forall i :: 0 <= i < k ==> s[i] != 'e' && s[i] != 'E'
    ensures k < |s| ==> s[k] == 'e' || s[k] == 'E'
  {
    if s == [] then 0
    else if s[0] == 'e' || s[0] == 'E' then 0
    else 1 + IndexOfExponent(s[1..])
  }

  /** NonDecimalIntegerLiteral: `0b`, `0o` or `0x` and at least one digit of that base. */
  predicate IsNonDecimalIntegerLiteral(t: string) {
    && |t| >= 3 && t[0] == '0'
    && ((t[1] in "bB" && AllIn(t[2..], "01"))
        || (t[1] in "oO" && AllIn(t[2..], "01234567"))
        || (t[1] in "xX" && AllIn(t[2..], "0123456789abcdefABCDEF")))
  }

  /** SignedInteger: optional sign, then digits. */
  predicate IsSignedInteger(s: string) {
    IsDigits(s) || (|s| > 0 && s[0] in "+-" && IsDigits(s[1..]))
  }

  /** ExponentPart: `e` or `E`, then a SignedInteger. */
  predicate IsExponentPart(e: string) {
    |e| > 0 && e[0] in "eE" && IsSignedInteger(e[1..])
  }

  /** `DecimalDigits`, `DecimalDigits . DecimalDigits?` or `. DecimalDigits`. */
  predicate IsMantissa(m: string) {
    var d := IndexOf(m, '.');
    if d == |m| then IsDigits(m)
    else AllDigits(m[..d]) && AllDigits(m[d + 1..]) && |m| >= 2
  }

  /** StrUnsignedDecimalLiteral: `Infinity`, or a mantissa with an optional exponent. */
  predicate IsUnsignedDecimalLiteral(u: string) {
    || u == "Infinity"
    || (var k := IndexOfExponent(u); IsMantissa(u[..k]) && (k == |u| || IsExponentPart(u[k..])))
  }

  /** StrNumericLiteral: a decimal literal with an optional sign, or a non-decimal integer literal. */
  predicate IsNumericLiteral(t: string) {
    || IsUnsignedDecimalLiteral(t)
    || (|t| > 0 && t[0] in "+-" && IsUnsignedDecimalLiteral(t[1..]))
    || IsNonDecimalIntegerLiteral(t)
  }

  /** StringNumericLiteral: surrounding whitespace, around nothing or a StrNumericLiteral. */
  predicate IsStringNumericLiteral(s: string) {
    var t := Trim(s);
    t == [] || IsNumericLiteral(t)
  }

  /** The numbers the model tells apart: NaN, an exact integer, or a number whose value it does not compute. */
  datatype NumberValue = NaN | Integer(n: int) | Uncomputed

  function StringToNumber(s: string): (r: NumberValue)
    ensures r.Integer? ==> -MaxSafeInteger <= r.n <= MaxSafeInteger
  {
    var t := Trim(s);
    if t == [] then Integer(0)
    else if IsDigits(t) && DigitsValue(t) <= MaxSafeInteger then Integer(DigitsValue(t))
    else if |t| > 1 && t[0] in "+-" && IsDigits(t[1..]) && DigitsValue(t[1..]) <= MaxSafeInteger then
      Integer(if t[0] == '-' then -(DigitsValue(t[1..]) as int) else DigitsValue(t[1..]))
    else if IsNumericLiteral(t) then Uncomputed
    else NaN
  }

  lemma DigitsAreLiteral(t: string)
    requires IsDigits(t)
    ensures IsUnsignedDecimalLiteral(t)
  {
    assert forall i :: 0 <= i < |t| ==> t[i] != 'e' && t[i] != 'E';
    assert IndexOfExponent(t) == |t|;
    assert IndexOf(t, '.') == |t|;
    assert t[..|t|] == t;
  }

  /** `Number(s)` is NaN exactly when `s` is not a StringNumericLiteral. */
  lemma NaNExactlyNonLiterals(s: string)
    ensures StringToNumber(s).NaN? <==> !IsStringNumericLiteral(s)
  {
    var t := Trim(s);
    if IsDigits(t) {
      DigitsAreLiteral(t);
    } else if |t| > 1 && t[0] in "+-" && IsDigits(t[1..]) {
      DigitsAreLiteral(t[1..]);
    }
  }

  /** A run of decimal digits within the safe range reads as its value. */
  lemma DigitsToNumber(s: string)
    requires IsDigits(s) && DigitsValue(s) <= MaxSafeInteger
    ensures StringToNumber(s) == Integer(DigitsValue(s))
  {
    assert !IsWhiteSpace(s[0]) && !IsWhiteSpace(s[|s| - 1]);
    assert Trim(s) == s;
  }

  /** A minus sign and decimal digits read as the negative value. */
  lemma NegativeDigitsToNumber(s: string)
    requires IsDigits(s) && DigitsValue(s) <= MaxSafeInteger
    ensures StringToNumber("-" + s) == Integer(-(DigitsValue(s) as int))
  {
    var t := "-" + s;
    assert TrimStart(t) == t;
    assert t[|t| - 1] == s[|s| - 1];
    assert TrimEnd(t) == t;
    assert t[1..] == s;
  }

  /** Every StrNumericLiteral starts with a digit, a dot, a sign or the `I` of `Infinity`. */
  lemma LiteralFirstChar(t: string)
    requires IsNumericLiteral(t)
    ensures |t| > 0 && t[0] in "0123456789.+-I"
  {
    if IsUnsignedDecimalLiteral(t) && t != "Infinity" {
      var k := IndexOfExponent(t);
      var m := t[..k];
      if IndexOf(m, '.') == 0 {
        assert m[0] == '.';
      } else {
        assert m[0] in m[..IndexOf(m, '.')];
      }
    }
  }

  /** `Number("invalid")` is NaN. */
  lemma InvalidIsNaN(s: string)
    requires s == "invalid"
    ensures StringToNumber(s).NaN?
  {
    assert TrimStart(s) == s;
    assert TrimEnd(s) == s;
    if IsNumericLiteral(s) {
      LiteralFirstChar(s);
    }
  }
}
