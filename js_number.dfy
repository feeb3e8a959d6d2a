/**
 * JavaScript numbers and the string-to-number conversion `Number(s)` performs
 * (StringToNumber, section 7.1.4.1.1 of ECMA-262). A finite number is kept as
 * an exact `real`: the rounding of the mathematical value to the nearest IEEE
 * 754 double, and the sign of zero, are not modelled.
 */
module JsNumber {
  import opened Optional
  import opened JsText

  datatype Number = NaN | PosInf | NegInf | Finite(r: real)

  /** Unary minus. */
  function Negate(n: Number): (m: Number)
    ensures m.NaN? <==> n.NaN?
    ensures n.Finite? ==> m == Finite(-n.r)
    ensures n.PosInf? <==> m.NegInf?
    ensures n.NegInf? <==> m.PosInf?
  {
    match n
    case NaN => NaN
    case PosInf => NegInf
    case NegInf => PosInf
    case Finite(x) => Finite(-x)
  }

  /** The value of a digit character in bases up to 16; 16 for any other character. */
  function DigitValue(c: char): (d: nat)
    ensures d <= 16
    ensures d < 10 <==> '0' <= c <= '9'
  {
    if '0' <= c <= '9' then c as int - '0' as int
    else if 'a' <= c <= 'f' then c as int - 'a' as int + 10
    else if 'A' <= c <= 'F' then c as int - 'A' as int + 10
    else 16
  }

  /** Every character of `s` is a digit of the given radix. */
  predicate AllDigits(s: string, radix: nat) {
    forall i :: 0 <= i < |s| ==> DigitValue(s[i]) < radix
  }

  /** The natural number a string of digits denotes, most significant digit first. */
  function DigitsValue(s: string, radix: nat): nat
    requires AllDigits(s, radix)
    decreases |s|
  {
    if s == [] then 0 else DigitsValue(s[..|s| - 1], radix) * radix + DigitValue(s[|s| - 1])
  }

  function Pow10(e: nat): (p: nat)
    ensures p >= 1
  {
    if e == 0 then 1 else 10 * Pow10(e - 1)
  }

  /** m times ten to the power e. */
  function Scale(m: real, e: int): real {
    if e >= 0 then m * Pow10(e) as real else m / Pow10(-e) as real
  }

  /** The index of the first occurrence of `a` or `b` in `s`, or |s| when there is none. */
  function FirstOf(s: string, a: char, b: char): (k: nat)
    ensures k <= |s|
    ensures forall i :: 0 <= i < k ==> s[i] != a && s[i] != b
    ensures k < |s| ==> s[k] == a || s[k] == b
    decreases |s|
  {
    if s == [] then 0 else if s[0] == a || s[0] == b then 0 else 1 + FirstOf(s[1..], a, b)
  }

  /** NonDecimalIntegerLiteral after its prefix: one or more digits of the radix. */
  function ParseRadixDigits(body: string, radix: nat): (r: Option<Number>)
    ensures r.Some? <==> body != [] && AllDigits(body, radix)
  {
    if body != [] && AllDigits(body, radix) then Some(Finite(DigitsValue(body, radix) as real)) else None
  }

  /** SignedInteger of an ExponentPart: an optional sign, then one or more decimal digits. */
  function ParseExponent(x: string): (r: Option<int>)
    ensures r.Some? ==> x != []
  {
    if x != [] && (x[0] == '+' || x[0] == '-') then
      var ds := x[1..];
      if ds != [] && AllDigits(ds, 10) then
        var v: int := DigitsValue(ds, 10);
        Some(if x[0] == '-' then -v else v)
      else None
    else if x != [] && AllDigits(x, 10) then Some(DigitsValue(x, 10))
    else None
  }

  /**
   * The mantissa of a StrUnsignedDecimalLiteral: `DecimalDigits`,
   * `DecimalDigits .`, `DecimalDigits . DecimalDigits` or `. DecimalDigits`.
   */
  function ParseMantissa(m: string): Option<real> {
    var k := FirstOf(m, '.', '.');
    if k == |m| then
      if m != [] && AllDigits(m, 10) then Some(DigitsValue(m, 10) as real) else None
    else
      var whole, frac := m[..k], m[k + 1..];
      if (whole != [] || frac != []) && AllDigits(whole, 10) && AllDigits(frac, 10) then
        assert AllDigits(whole + frac, 10);
        Some(DigitsValue(whole + frac, 10) as real / Pow10(|frac|) as real)
      else None
  }

  /** StrUnsignedDecimalLiteral: `Infinity`, or a mantissa with an optional ExponentPart. */
  function ParseUnsignedDecimal(u: string): Option<Number> {
    if u == "Infinity" then Some(PosInf)
    else
      var k := FirstOf(u, 'e', 'E');
      if k == |u| then
        match ParseMantissa(u)
        case Some(m) => Some(Finite(m))
        case None => None
      else
        match (ParseMantissa(u[..k]), ParseExponent(u[k + 1..]))
        case (Some(m), Some(e)) => Some(Finite(Scale(m, e)))
        case _ => None
  }

  /** StrNumericLiteral: a signed decimal literal, or an unsigned 0x / 0o / 0b integer. */
  function ParseNumericLiteral(t: string): Option<Number> {
    if t == [] then None
    else if |t| >= 2 && t[0] == '0' && (t[1] == 'x' || t[1] == 'X') then ParseRadixDigits(t[2..], 16)
    else if |t| >= 2 && t[0] == '0' && (t[1] == 'o' || t[1] == 'O') then ParseRadixDigits(t[2..], 8)
    else if |t| >= 2 && t[0] == '0' && (t[1] == 'b' || t[1] == 'B') then ParseRadixDigits(t[2..], 2)
    else if t[0] == '+' then ParseUnsignedDecimal(t[1..])
    else if t[0] == '-' then
      match ParseUnsignedDecimal(t[1..])
      case Some(n) => Some(Negate(n))
      case None => None
    else ParseUnsignedDecimal(t)
  }

  /**
   * StringToNumber: surrounding white space is ignored, a blank string is 0,
   * and a string that is not a StrNumericLiteral is NaN.
   */
  function StringToNumber(s: string): Number {
    var t := Trim(s);
    if t == [] then Finite(0.0)
    else
      match ParseNumericLiteral(t)
      case Some(n) => n
      case None => NaN
  }

  /** The decimal numeral of a natural number, without leading zeros. */
  function NatToDecimal(n: nat): (s: string)
    ensures s != [] && AllDigits(s, 10)
    ensures s[0] != '0' || n == 0
    decreases n
  {
    var d := ('0' as int + n % 10) as char;
    if n < 10 then [d] else NatToDecimal(n / 10) + [d]
  }

  /** Reading a natural number's numeral back gives the number. */
  lemma {:induction false} DigitsValueOfNumeral(n: nat)
    ensures DigitsValue(NatToDecimal(n), 10) == n
    decreases n
  {
    var s := NatToDecimal(n);
    if n >= 10 {
      assert s[..|s| - 1] == NatToDecimal(n / 10);
      DigitsValueOfNumeral(n / 10);
    }
  }

  /** A string of digits has neither a dot nor an exponent marker. */
  lemma DigitsHaveNoMarker(s: string, a: char, b: char)
    requires AllDigits(s, 10)
    requires !('0' <= a <= '9') && !('0' <= b <= '9')
    ensures FirstOf(s, a, b) == |s|
  {
  }

  /** A string of digits contains nothing `trim` removes. */
  lemma DigitsAreNotTrimmed(s: string)
    requires s != [] && AllDigits(s, 10)
    ensures Trim(s) == s
  {
    assert DigitValue(s[0]) < 10 && DigitValue(s[|s| - 1]) < 10;
    SolidBordersNotTrimmed(s);
  }

  /** The numeral of n, read as a StrUnsignedDecimalLiteral, denotes n. */
  lemma UnsignedNumeral(n: nat)
    ensures ParseUnsignedDecimal(NatToDecimal(n)) == Some(Finite(n as real))
  {
    var s := NatToDecimal(n);
    DigitsValueOfNumeral(n);
    DigitsHaveNoMarker(s, 'e', 'E');
    DigitsHaveNoMarker(s, '.', '.');
    assert s != "Infinity" by { assert DigitValue(s[0]) < 10; }
  }

  /** A numeral is not mistaken for a 0x / 0o / 0b literal or a signed one. */
  lemma NumeralLiteral(n: nat)
    ensures ParseNumericLiteral(NatToDecimal(n)) == Some(Finite(n as real))
  {
    var s := NatToDecimal(n);
    UnsignedNumeral(n);
    assert DigitValue(s[0]) < 10;
    if |s| >= 2 {
      assert DigitValue(s[1]) < 10;
    }
  }

  /** A minus sign in front of a numeral negates what it denotes. */
  lemma NegativeNumeral(n: nat)
    ensures StringToNumber("-" + NatToDecimal(n)) == Finite(-(n as real))
  {
    var s := NatToDecimal(n);
    var m := "-" + s;
    assert m[|m| - 1] == s[|s| - 1] && DigitValue(s[|s| - 1]) < 10;
    SolidBordersNotTrimmed(m);
    assert m[1..] == s;
    UnsignedNumeral(n);
    assert ParseNumericLiteral(m) == Some(Negate(Finite(n as real)));
  }

  /**
   * `Number` reads back the numeral of every integer: the decimal string of n
   * gives n, and with a leading minus sign gives -n.
   */
  lemma NumeralRoundTrip(n: nat)
    ensures StringToNumber(NatToDecimal(n)) == Finite(n as real)
    ensures StringToNumber("-" + NatToDecimal(n)) == Finite(-(n as real))
  {
    DigitsAreNotTrimmed(NatToDecimal(n));
    NumeralLiteral(n);
    NegativeNumeral(n);
  }

  /** A string made only of white space (the empty string included) converts to 0. */
  lemma BlankIsZero(s: string)
    requires AllTrimmable(s)
    ensures StringToNumber(s) == Finite(0.0)
  {
    TrimIgnoresPadding(s, [], []);
    assert s + [] + [] == s;
  }

  /** Surrounding white space never changes what `Number` returns. */
  lemma PaddingIgnored(w1: string, s: string, w2: string)
    requires AllTrimmable(w1) && AllTrimmable(w2)
    ensures StringToNumber(w1 + s + w2) == StringToNumber(s)
  {
    TrimIgnoresPadding(w1, s, w2);
  }
}
