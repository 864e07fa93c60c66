/**
 * The JavaScript values the dashboard handles: numbers that may be NaN, and the two
 * global parsers `parseInt` (radix left undefined) and `parseFloat` that turn message
 * fields into numbers. Numbers are exact: an integer run number is an `int`, a time is
 * a `real`, and NaN is a value of its own.
 */
module JsValues {

  datatype Option<T> = None | Some(value: T)

  /** A JavaScript number as the dashboard sees it: NaN, or a finite value. */
  datatype Number<T> = NaN | Num(value: T)

  /** `Math.min(a, b)`: NaN as soon as either argument is NaN, otherwise the smaller one. */
  function Min(a: Number<real>, b: Number<real>): (m: Number<real>)
    ensures m.NaN? <==> a.NaN? || b.NaN?
    ensures m.Num? ==> m.value <= a.value && m.value <= b.value
    ensures m.Num? ==> m == a || m == b
  {
    if a.NaN? || b.NaN? then NaN else if b.value < a.value then b else a
  }

  /** `a === b` on numbers: NaN equals nothing, not even NaN. */
  predicate StrictEquals(a: Number<real>, b: Number<real>): (eq: bool)
    ensures eq ==> a.Num? && a == b
    ensures a == b && a.Num? ==> eq
  {
    a.Num? && b.Num? && a.value == b.value
  }

  /** The characters `parseInt` and `parseFloat` skip at the front: WhiteSpace
      (TAB, VT, FF, ZWNBSP and the category Zs) and LineTerminator (LF, CR, LS, PS). */
  predicate IsSpace(c: char) {
    || c == '\t' || c == '\U{000B}' || c == '\U{000C}' || c == '\U{FEFF}'
    || c == ' ' || c == '\U{00A0}' || c == '\U{1680}' || ('\U{2000}' <= c <= '\U{200A}')
    || c == '\U{202F}' || c == '\U{205F}' || c == '\U{3000}'
    || c == '\n' || c == '\r' || c == '\U{2028}' || c == '\U{2029}'
  }

  /** The string with its leading white space removed. */
  function TrimStart(s: string): (t: string)
    ensures |t| <= |s| && t == s[|s| - |t|..]
    ensures forall i :: 0 <= i < |s| - |t| ==> IsSpace(s[i])
    ensures t == [] || !IsSpace(t[0])
  {
    if |s| > 0 && IsSpace(s[0]) then TrimStart(s[1..]) else s
  }

  predicate IsDigit(c: char) {
    '0' <= c <= '9'
  }

  /** A digit of radix 16 when `radix` is 16, of radix 10 otherwise. */
  predicate IsRadixDigit(c: char, radix: nat) {
    if radix == 16 then IsDigit(c) || 'a' <= c <= 'f' || 'A' <= c <= 'F' else IsDigit(c)
  }

  function DigitValue(c: char): (d: nat)
    requires IsRadixDigit(c, 16)
    ensures d < 16
    ensures IsDigit(c) ==> d < 10
  {
    if IsDigit(c) then c as int - '0' as int
    else if 'a' <= c <= 'f' then c as int - 'a' as int + 10
    else c as int - 'A' as int + 10
  }

  predicate AllDigits(s: string, radix: nat) {
    forall i :: 0 <= i < |s| ==> IsRadixDigit(s[i], radix)
  }

  /** The length of the longest prefix of `s` made of digits of the radix. */
  function DigitRun(s: string, radix: nat): (n: nat)
    ensures n <= |s|
    ensures AllDigits(s[..n], radix)
    ensures n == |s| || !IsRadixDigit(s[n], radix)
  {
    if |s| > 0 && IsRadixDigit(s[0], radix) then
      var n := 1 + DigitRun(s[1..], radix);
      assert s[..n] == [s[0]] + s[1..][..n - 1];
      n
    else 0
  }

  /** The value of a string of digits, most significant first. */
  function DigitsValue(ds: string, radix: nat): nat
    requires radix == 10 || radix == 16
    requires AllDigits(ds, radix)
  {
    if ds == [] then 0
    else DigitsValue(ds[..|ds| - 1], radix) * radix + DigitValue(ds[|ds| - 1])
  }

  /** An optional leading sign taken off: whether it was '-', and the rest. */
  function StripSign(t: string): (r: (bool, string))
    ensures r.0 ==> |t| > 0 && t[0] == '-'
    ensures |t| > 0 && (t[0] == '-' || t[0] == '+') ==> [t[0]] + r.1 == t
  {
    if |t| > 0 && (t[0] == '-' || t[0] == '+') then (t[0] == '-', t[1..]) else (false, t)
  }

  /**
   * `parseInt(s)` with the radix left undefined: leading white space and one sign are
   * skipped, then the integer at the front of the rest is read.
   */
  function ParseInt(s: string): Number<int> {
    var (negative, u) := StripSign(TrimStart(s));
    match IntegerPrefix(u)
    case NaN => NaN
    case Num(magnitude) => var m: int := magnitude; Num(if negative then -m else m)
  }

  /** The integer at the front of an unsigned text: a "0x" or "0X" prefix selects radix
      16, and the longest run of digits that follows is read; NaN when that run is empty.
      Whatever follows the run is ignored. */
  function IntegerPrefix(u: string): Number<nat> {
    var hex := |u| >= 2 && u[0] == '0' && (u[1] == 'x' || u[1] == 'X');
    var radix := if hex then 16 else 10;
    var v := if hex then u[2..] else u;
    var n := DigitRun(v, radix);
    if n == 0 then NaN else Num(DigitsValue(v[..n], radix))
  }

  /** The value of the digits after a decimal point: "25" is 0.25. */
  function FractionValue(ds: string): (v: real)
    requires AllDigits(ds, 10)
    ensures 0.0 <= v <= 1.0
  {
    if ds == [] then 0.0 else (DigitValue(ds[0]) as real + FractionValue(ds[1..])) / 10.0
  }

  /** m times 10 to the power e, by steps of one decimal place. */
  function ScaleBy(m: real, e: int): real
    decreases if e < 0 then -e else e
  {
    if e == 0 then m else if e > 0 then ScaleBy(m * 10.0, e - 1) else ScaleBy(m / 10.0, e + 1)
  }

  /** The exponent part at the front of `rest` ("e" or "E", an optional sign, digits),
      or 0 when `rest` does not start with a complete one. */
  function Exponent(rest: string): int {
    if |rest| > 0 && (rest[0] == 'e' || rest[0] == 'E') then
      var (negative, w) := StripSign(rest[1..]);
      var k := DigitRun(w, 10);
      var magnitude: int := DigitsValue(w[..k], 10);
      if negative then -magnitude else magnitude
    else 0
  }

  /** The longest prefix of `u` of the form digits [ "." digits ] with at least one
      digit: its value and its length; None when `u` has no such prefix. */
  function Mantissa(u: string): (r: Option<(real, nat)>)
    ensures r.Some? ==> 0 < r.value.1 <= |u|
  {
    var i := DigitRun(u, 10);
    var point := i < |u| && u[i] == '.';
    var afterPoint := if point then u[i + 1..] else [];
    var f := DigitRun(afterPoint, 10);
    if i == 0 && f == 0 then None
    else
      var whole := DigitsValue(u[..i], 10) as real;
      var fraction := FractionValue(afterPoint[..f]);
      Some((whole + fraction, if point then i + 1 + f else i))
  }

  /**
   * `parseFloat(s)`: leading white space and one sign are skipped, then the decimal
   * number at the front of the rest is read.
   */
  function ParseFloat(s: string): Number<real> {
    var (negative, u) := StripSign(TrimStart(s));
    match DecimalPrefix(u)
    case NaN => NaN
    case Num(magnitude) => Num(if negative then -magnitude else magnitude)
  }

  /** The decimal number at the front of an unsigned text: the longest prefix of the
      form digits [ "." digits ] [ exponent ], where either digit run may be empty but not
      both; NaN when there is no such prefix. Whatever follows is ignored. */
  function DecimalPrefix(u: string): Number<real> {
    match Mantissa(u)
    case None => NaN
    case Some((m, len)) => Num(ScaleBy(m, Exponent(u[len..])))
  }

  /* How a timing device writes its numbers, as the other side of the parsers. */

  function DigitChar(d: nat): (c: char)
    requires d < 10
    ensures IsDigit(c) && DigitValue(c) == d
  {
    ('0' as int + d) as char
  }

  /** The decimal numeral of `n`, without leading zeros. */
  function NatText(n: nat): (s: string)
    ensures |s| >= 1 && AllDigits(s, 10)
  {
    if n < 10 then [DigitChar(n)] else NatText(n / 10) + [DigitChar(n % 10)]
  }

  /** The decimal numeral of `n`, with a '-' in front when it is negative. */
  function IntText(n: int): string {
    if n < 0 then "-" + NatText(-n) else NatText(n)
  }

  lemma {:induction false} NatTextValue(n: nat)
    ensures DigitsValue(NatText(n), 10) == n
  {
    if n >= 10 {
      var s := NatText(n);
      assert s[..|s| - 1] == NatText(n / 10);
      NatTextValue(n / 10);
    }
  }

  /** After "0x" or "0X" the unsigned reader takes the longest run of hexadecimal digits
      and reads it in radix 16. */
  lemma {:induction false} IntegerPrefixOfHex(x: char, ds: string, rest: string)
    requires x == 'x' || x == 'X'
    requires |ds| > 0 && AllDigits(ds, 16)
    requires rest == [] || !IsRadixDigit(rest[0], 16)
    ensures IntegerPrefix(['0', x] + ds + rest) == Num(DigitsValue(ds, 16))
  {
    var u := ['0', x] + ds + rest;
    assert u[2..] == ds + rest;
    DigitRunOfNumeral(ds, rest, 16);
    assert (ds + rest)[..|ds|] == ds;
  }

  /** Without "0x" the unsigned reader takes the longest run of decimal digits, leading
      zeros included, and ignores whatever follows it. */
  lemma {:induction false} IntegerPrefixOfDecimal(ds: string, rest: string)
    requires |ds| > 0 && AllDigits(ds, 10)
    requires rest == [] || !IsDigit(rest[0])
    requires !(ds == "0" && |rest| > 0 && (rest[0] == 'x' || rest[0] == 'X'))
    ensures IntegerPrefix(ds + rest) == Num(DigitsValue(ds, 10))
  {
    var u := ds + rest;
    DigitRunOfNumeral(ds, rest, 10);
    assert u[..|ds|] == ds;
  }

  /** parseInt of digits followed by other text: the digits, leading zeros included, are
      read and the rest is ignored ("12abc" is 12, "007" is 7). */
  lemma {:induction false} ParseIntDigitsThen(ds: string, rest: string)
    requires |ds| > 0 && AllDigits(ds, 10)
    requires rest == [] || !IsDigit(rest[0])
    requires !(ds == "0" && |rest| > 0 && (rest[0] == 'x' || rest[0] == 'X'))
    ensures ParseInt(ds + rest).Num? && ParseInt(ds + rest).value == DigitsValue(ds, 10)
  {
    var u := ds + rest;
    IntegerPrefixOfDecimal(ds, rest);
    assert !IsSpace(u[0]) && u[0] != '-' && u[0] != '+' by {
      assert u[0] == ds[0];
    }
    SignedText(u);
    ParseIntOfSign(u, false, u);
  }

  /** The digit run of a numeral followed by something that is not a digit is the numeral. */
  lemma {:induction false} DigitRunOfNumeral(ds: string, rest: string, radix: nat)
    requires AllDigits(ds, radix)
    requires rest == [] || !IsRadixDigit(rest[0], radix)
    ensures DigitRun(ds + rest, radix) == |ds|
  {
    if ds != [] {
      assert (ds + rest)[1..] == ds[1..] + rest;
      DigitRunOfNumeral(ds[1..], rest, radix);
    }
  }

  /** A string without a decimal digit parses to NaN with either parser; in particular
      `parseInt(undefined)` and `parseFloat(undefined)`, which read the text "undefined". */
  lemma NoDigitsNaN(s: string)
    requires forall i :: 0 <= i < |s| ==> !IsDigit(s[i])
    ensures ParseInt(s) == NaN && ParseFloat(s) == NaN
  {
    var (negative, u) := StripSign(TrimStart(s));
    assert !StartsNumber(u) by {
      var t := TrimStart(s);
      assert forall i :: 0 <= i < |t| ==> t[i] == s[|s| - |t| + i];
    }
    NoLeadingDigit(u);
    ParseIntOfSign(s, negative, u);
    ParseFloatOfSign(s, negative, u);
  }

  /** An unsigned text that starts with neither a digit nor a point followed by a digit
      has neither an integer nor a decimal number at its front. */
  lemma {:induction false} NoLeadingDigit(u: string)
    requires !StartsNumber(u)
    ensures IntegerPrefix(u).NaN? && DecimalPrefix(u).NaN?
  {
    MantissaNone(u);
  }

  /** parseInt reads back every integer the device writes. */
  lemma {:induction false} ParseIntText(n: int)
    ensures ParseInt(IntText(n)) == Num(n)
  {
    var m := if n < 0 then -n else n;
    var u := NatText(m);
    var s := IntText(n);
    assert TrimStart(s) == s by {
      assert s[0] == '-' || IsDigit(s[0]);
    }
    assert StripSign(s).0 == (n < 0) && StripSign(s).1 == u;
    IntegerPrefixOfNumeral(m);
  }

  lemma {:induction false} IntegerPrefixOfNumeral(m: nat)
    ensures IntegerPrefix(NatText(m)) == Num(m)
  {
    var u := NatText(m);
    assert !(|u| >= 2 && (u[1] == 'x' || u[1] == 'X'));
    DigitRunOfNumeral(u, [], 10);
    assert u + [] == u;
    assert u[..|u|] == u;
    NatTextValue(m);
  }

  lemma {:induction false} MantissaAtPoint(s: string, i: nat, frac: string)
    requires 0 < i < |s| && DigitRun(s, 10) == i && s[i] == '.'
    requires s[i + 1..] == frac && DigitRun(frac, 10) == |frac|
    ensures Mantissa(s).Some?
    ensures Mantissa(s).value.0 == DigitsValue(s[..i], 10) as real + FractionValue(frac)
    ensures Mantissa(s).value.1 == i + 1 + |frac|
  {
    assert frac[..|frac|] == frac;
  }

  lemma {:induction false} MantissaOfDecimal(whole: string, frac: string)
    requires |whole| > 0 && AllDigits(whole, 10) && AllDigits(frac, 10)
    ensures Mantissa(whole + "." + frac).Some?
    ensures Mantissa(whole + "." + frac).value.0
         == DigitsValue(whole, 10) as real + FractionValue(frac)
    ensures Mantissa(whole + "." + frac).value.1 == |whole| + 1 + |frac|
  {
    var s := whole + "." + frac;
    assert s == whole + ("." + frac);
    DigitRunOfNumeral(whole, "." + frac, 10);
    DigitRunOfNumeral(frac, [], 10);
    assert frac + [] == frac;
    assert s[..|whole|] == whole;
    MantissaAtPoint(s, |whole|, frac);
  }

  /** A numeral with a fractional part and nothing after it parses to its exact value. */
  lemma {:induction false} ParseFloatDecimal(whole: string, frac: string)
    requires |whole| > 0 && AllDigits(whole, 10) && AllDigits(frac, 10)
    ensures ParseFloat(whole + "." + frac)
         == Num(DigitsValue(whole, 10) as real + FractionValue(frac))
  {
    var s := whole + "." + frac;
    assert s[0] == whole[0];
    assert TrimStart(s) == s;
    assert StripSign(s) == (false, s);
    DecimalPrefixOfDecimal(whole, frac);
  }

  lemma {:induction false} DecimalPrefixOfDecimal(whole: string, frac: string)
    requires |whole| > 0 && AllDigits(whole, 10) && AllDigits(frac, 10)
    ensures DecimalPrefix(whole + "." + frac)
         == Num(DigitsValue(whole, 10) as real + FractionValue(frac))
  {
    var s := whole + "." + frac;
    MantissaOfDecimal(whole, frac);
    assert s[|whole| + 1 + |frac|..] == [];
  }

  /** Three decimals are read as thousandths: "345" after the point is 0.345. */
  lemma ThreeDecimals(c0: char, c1: char, c2: char)
    requires IsDigit(c0) && IsDigit(c1) && IsDigit(c2)
    ensures FractionValue([c0, c1, c2])
         == (DigitValue(c0) * 100 + DigitValue(c1) * 10 + DigitValue(c2)) as real / 1000.0
  {
    var ds := [c0, c1, c2];
    assert ds[1..][1..][1..] == [];
    assert FractionValue(ds[1..][1..]) == DigitValue(c2) as real / 10.0;
  }

  /* A sign in front of a number. */

  /** A text that starts with neither white space nor a sign. */
  predicate Unsigned(u: string) {
    u == [] || (!IsSpace(u[0]) && u[0] != '-' && u[0] != '+')
  }

  lemma {:induction false} SignedText(u: string)
    requires Unsigned(u)
    ensures !StripSign(TrimStart(u)).0 && StripSign(TrimStart(u)).1 == u
    ensures StripSign(TrimStart("-" + u)).0 && StripSign(TrimStart("-" + u)).1 == u
    ensures !StripSign(TrimStart("+" + u)).0 && StripSign(TrimStart("+" + u)).1 == u
  {
    Untrimmed(u);
    SignFirst('-', u);
    SignFirst('+', u);
  }

  /** A sign in front of any text is where `StripSign` finds it. */
  lemma {:induction false} SignFirst(c: char, u: string)
    requires c == '-' || c == '+'
    ensures StripSign(TrimStart([c] + u)) == (c == '-', u)
  {
    var s := [c] + u;
    assert s[0] == c && s[1..] == u;
    Untrimmed(s);
  }

  /** Nothing is trimmed from a text that does not start with white space. */
  lemma {:induction false} Untrimmed(s: string)
    requires s == [] || !IsSpace(s[0])
    ensures TrimStart(s) == s
  {}

  /** parseInt with a '-' in front of an unsigned text: NaN exactly when the text alone
      gives NaN, and otherwise the negation of what the text gives; a '+' changes nothing. */
  lemma {:induction false} ParseIntSign(u: string)
    requires Unsigned(u)
    ensures ParseInt("-" + u).NaN? <==> ParseInt(u).NaN?
    ensures ParseInt(u).Num? ==> ParseInt("-" + u).value == -ParseInt(u).value
    ensures ParseInt("+" + u).NaN? <==> ParseInt(u).NaN?
    ensures ParseInt(u).Num? ==> ParseInt("+" + u).value == ParseInt(u).value
  {
    SignedText(u);
    ParseIntOfSign(u, false, u);
    ParseIntOfSign("-" + u, true, u);
    ParseIntOfSign("+" + u, false, u);
  }

  /** parseInt once the white space and the sign are taken off. */
  lemma ParseIntOfSign(s: string, negative: bool, u: string)
    requires StripSign(TrimStart(s)).0 == negative && StripSign(TrimStart(s)).1 == u
    ensures ParseInt(s).NaN? <==> IntegerPrefix(u).NaN?
    ensures IntegerPrefix(u).Num? ==>
      ParseInt(s).value == if negative then -(IntegerPrefix(u).value as int) else IntegerPrefix(u).value
  {}

  /** parseFloat with a '-' in front of an unsigned text: NaN exactly when the text alone
      gives NaN, and otherwise the negation of what the text gives; a '+' changes nothing. */
  lemma {:induction false} ParseFloatSign(u: string)
    requires Unsigned(u)
    ensures ParseFloat("-" + u).NaN? <==> ParseFloat(u).NaN?
    ensures ParseFloat(u).Num? ==> ParseFloat("-" + u).value == -ParseFloat(u).value
    ensures ParseFloat("+" + u).NaN? <==> ParseFloat(u).NaN?
    ensures ParseFloat(u).Num? ==> ParseFloat("+" + u).value == ParseFloat(u).value
  {
    SignedText(u);
    ParseFloatOfSign(u, false, u);
    ParseFloatOfSign("-" + u, true, u);
    ParseFloatOfSign("+" + u, false, u);
  }

  /** parseFloat once the white space and the sign are taken off. */
  lemma ParseFloatOfSign(s: string, negative: bool, u: string)
    requires StripSign(TrimStart(s)).0 == negative && StripSign(TrimStart(s)).1 == u
    ensures ParseFloat(s).NaN? <==> DecimalPrefix(u).NaN?
    ensures DecimalPrefix(u).Num? ==>
      ParseFloat(s).value == if negative then -DecimalPrefix(u).value else DecimalPrefix(u).value
  {}

  /* The values of digit strings, fractions and exponents in closed form. */

  function Pow10(n: nat): (p: nat)
    ensures p >= 1
  {
    if n == 0 then 1 else 10 * Pow10(n - 1)
  }

  /** Digits written after other digits shift those by one decimal place each. */
  lemma {:induction false} DigitsValueAppend(a: string, b: string)
    requires AllDigits(a, 10) && AllDigits(b, 10)
    ensures DigitsValue(a + b, 10) == DigitsValue(a, 10) * Pow10(|b|) + DigitsValue(b, 10)
  {
    if b == [] {
      assert a + b == a;
    } else {
      var b', last := b[..|b| - 1], DigitValue(b[|b| - 1]);
      assert (a + b)[..|a + b| - 1] == a + b';
      assert (a + b)[|a + b| - 1] == b[|b| - 1];
      DigitsValueAppend(a, b');
      var x, y, z := DigitsValue(a, 10), Pow10(|b'|), DigitsValue(b', 10);
      calc {
        DigitsValue(a + b, 10);
        DigitsValue(a + b', 10) * 10 + last;
        (x * y + z) * 10 + last;
        { ShiftByTen(x, y, z); }
        x * (10 * y) + (z * 10 + last);
        x * Pow10(|b|) + DigitsValue(b, 10);
      }
    }
  }

  lemma {:induction false} ShiftByTen(x: int, y: int, z: int)
    ensures (x * y + z) * 10 == x * (10 * y) + z * 10
  {}

  /** x divided by 10, n times: x / 10^n. */
  function Shifted(x: real, n: nat): real {
    if n == 0 then x else Shifted(x, n - 1) / 10.0
  }

  lemma {:induction false} ShiftedSum(x: real, y: real, n: nat)
    ensures Shifted(x + y, n) == Shifted(x, n) + Shifted(y, n)
  {
    if n > 0 {
      ShiftedSum(x, y, n - 1);
    }
  }

  lemma {:induction false} ShiftedTimesTen(x: real, n: nat)
    ensures Shifted(10.0 * x, n) == 10.0 * Shifted(x, n)
  {
    if n > 0 {
      ShiftedTimesTen(x, n - 1);
    }
  }

  lemma {:induction false} ShiftedTenth(x: real, n: nat)
    ensures Shifted(x / 10.0, n) == Shifted(x, n) / 10.0
  {
    if n > 0 {
      ShiftedTenth(x, n - 1);
    }
  }

  /** Shifting d * 10^n back by n places gives d. */
  lemma {:induction false} ShiftedPower(d: nat, n: nat)
    ensures Shifted((d * Pow10(n)) as real, n) == d as real
  {
    if n > 0 {
      var x := (d * Pow10(n - 1)) as real;
      assert d * Pow10(n) == 10 * (d * Pow10(n - 1)) by {
        ShiftByTen(d, Pow10(n - 1), 0);
      }
      ShiftedTimesTen(x, n);
      ShiftedPower(d, n - 1);
    }
  }

  /** The digits after a decimal point are read as a numeral shifted right by their
      number: "025" is 25 / 1000. */
  lemma {:induction false} FractionOfDigits(ds: string)
    requires AllDigits(ds, 10)
    ensures FractionValue(ds) == Shifted(DigitsValue(ds, 10) as real, |ds|)
  {
    if ds != [] {
      var rest := ds[1..];
      var d, p, v := DigitValue(ds[0]), Pow10(|rest|), DigitsValue(rest, 10);
      assert DigitsValue(ds, 10) == d * p + v by {
        assert ds == [ds[0]] + rest;
        assert [ds[0]][..0] == [];
        assert DigitsValue([ds[0]], 10) == d;
        DigitsValueAppend([ds[0]], rest);
      }
      FractionOfDigits(rest);
      ShiftedSum((d * p) as real, v as real, |ds|);
      ShiftedPower(d, |rest|);
    }
  }

  /** ScaleBy moves the decimal point: for a negative exponent it divides by 10^-e,
      and for any other exponent shifting its result back by e places gives m. */
  lemma {:induction false} ScaleByPower(m: real, e: int)
    ensures e < 0 ==> ScaleBy(m, e) == Shifted(m, -e)
    ensures e >= 0 ==> Shifted(ScaleBy(m, e), e) == m
    decreases if e < 0 then -e else e
  {
    if e > 0 {
      ScaleByPower(m * 10.0, e - 1);
      ShiftedTimesTen(m, e - 1);
      assert m * 10.0 == 10.0 * m;
    } else if e < 0 {
      ScaleByPower(m / 10.0, e + 1);
      ShiftedTenth(m, -e - 1);
    }
  }

  /** An exponent part: "e" or "E", no sign, '+' or '-', then digits followed by a
      non-digit, is worth its digits, negated after '-'. */
  lemma {:induction false} ExponentOfDigits(e: char, sign: string, ds: string, rest: string)
    requires e == 'e' || e == 'E'
    requires sign == [] || sign == "+" || sign == "-"
    requires |ds| > 0 && AllDigits(ds, 10)
    requires rest == [] || !IsDigit(rest[0])
    ensures Exponent([e] + sign + ds + rest)
         == if sign == "-" then -(DigitsValue(ds, 10) as int) else DigitsValue(ds, 10)
  {
    var s, t, w := [e] + sign + ds + rest, sign + ds + rest, ds + rest;
    assert s[0] == e && s[1..] == t by {
      assert s == [e] + t;
    }
    assert StripSign(t).0 == (sign == "-") && StripSign(t).1 == w by {
      if sign != [] {
        assert t == sign + w && t[0] == sign[0] && t[1..] == w;
      }
    }
    assert DigitRun(w, 10) == |ds| && w[..|ds|] == ds by {
      DigitRunOfNumeral(ds, rest, 10);
    }
  }

  /** Text that does not start with a complete exponent part ("e" or "E", an optional
      sign and at least one digit) adds no exponent: "x", "e", "e+" and "E-" count as 0. */
  lemma {:induction false} ExponentAbsent(rest: string)
    requires !(|rest| > 0 && (rest[0] == 'e' || rest[0] == 'E')
               && DigitRun(StripSign(rest[1..]).1, 10) > 0)
    ensures Exponent(rest) == 0
  {}

  /** With no complete exponent part after it, the decimal number at the front of a text
      is the value of its mantissa, and the text after the mantissa is ignored. */
  lemma {:induction false} DecimalPrefixWithoutExponent(u: string)
    requires Mantissa(u).Some?
    requires Exponent(u[Mantissa(u).value.1..]) == 0
    ensures DecimalPrefix(u).Num? && DecimalPrefix(u).value == Mantissa(u).value.0
  {}

  /** "whole.frac" followed by anything that is not a digit is read as the mantissa
      whole + fraction, ending at the last digit of the fraction. */
  lemma {:induction false} MantissaOfDecimalThen(whole: string, frac: string, rest: string)
    requires |whole| > 0 && AllDigits(whole, 10) && AllDigits(frac, 10)
    requires rest == [] || !IsDigit(rest[0])
    ensures Mantissa(whole + "." + frac + rest).Some?
    ensures Mantissa(whole + "." + frac + rest).value.0
         == DigitsValue(whole, 10) as real + FractionValue(frac)
    ensures Mantissa(whole + "." + frac + rest).value.1 == |whole| + 1 + |frac|
  {
    var s := whole + "." + frac + rest;
    assert DigitRun(s, 10) == |whole| && s[..|whole|] == whole by {
      assert s == whole + ("." + frac + rest);
      DigitRunOfNumeral(whole, "." + frac + rest, 10);
    }
    assert s[|whole|] == '.';
    assert DigitRun(s[|whole| + 1..], 10) == |frac| && s[|whole| + 1..][..|frac|] == frac by {
      assert s[|whole| + 1..] == frac + rest;
      DigitRunOfNumeral(frac, rest, 10);
    }
  }

  /** parseFloat reads "whole.frac" at the front of a line and ignores what follows, as
      long as that does not begin with a digit or a complete exponent part: a trailing
      carriage return, for instance, changes nothing. */
  lemma {:induction false} ParseFloatDecimalThen(whole: string, frac: string, rest: string)
    requires |whole| > 0 && AllDigits(whole, 10) && AllDigits(frac, 10)
    requires rest == [] || !IsDigit(rest[0])
    requires !(|rest| > 0 && (rest[0] == 'e' || rest[0] == 'E')
               && DigitRun(StripSign(rest[1..]).1, 10) > 0)
    ensures ParseFloat(whole + "." + frac + rest).Num?
    ensures ParseFloat(whole + "." + frac + rest).value
         == DigitsValue(whole, 10) as real + FractionValue(frac)
  {
    var s := whole + "." + frac + rest;
    MantissaOfDecimalThen(whole, frac, rest);
    assert s[|whole| + 1 + |frac|..] == rest;
    ExponentAbsent(rest);
    DecimalPrefixWithoutExponent(s);
    assert !IsSpace(s[0]) && s[0] != '-' && s[0] != '+' by {
      assert s[0] == whole[0];
    }
    SignedText(s);
    ParseFloatOfSign(s, false, s);
  }

  /** Whether `u` starts with a decimal number: a digit, or a point and a digit. */
  predicate StartsNumber(u: string) {
    (|u| > 0 && IsDigit(u[0])) || (|u| > 1 && u[0] == '.' && IsDigit(u[1]))
  }

  /** Mantissa finds no number exactly when `u` starts with neither a digit nor a
      point followed by a digit. */
  lemma MantissaNone(u: string)
    ensures Mantissa(u).None? <==> !StartsNumber(u)
  {
    if |u| > 0 && u[0] == '.' {
      assert u[1..][..0] == [];
    }
  }

  /** The prefix Mantissa takes is made of digits and at most one point, holds a digit,
      and cannot be made longer: no digit follows it, and a point follows only when it
      already holds one. */
  lemma MantissaLongest(u: string)
    requires Mantissa(u).Some?
    ensures forall k :: 0 <= k < Mantissa(u).value.1 ==> IsDigit(u[k]) || u[k] == '.'
    ensures forall j, k :: 0 <= j < k < Mantissa(u).value.1 ==> u[j] != '.' || u[k] != '.'
    ensures IsDigit(u[0]) || IsDigit(u[1])
    ensures Mantissa(u).value.1 == |u| || !IsDigit(u[Mantissa(u).value.1])
    ensures Mantissa(u).value.1 < |u| && u[Mantissa(u).value.1] == '.' ==>
      '.' in u[..Mantissa(u).value.1]
  {
    var i := DigitRun(u, 10);
    LeadingDigits(u, i);
    if i < |u| && u[i] == '.' {
      var f := DigitRun(u[i + 1..], 10);
      DigitsAfterPoint(u, i, f);
      assert u[..i + 1 + f][i] == '.';
    }
  }

  /** The leading run of digits, and what stops it. */
  lemma {:induction false} LeadingDigits(u: string, i: nat)
    requires i == DigitRun(u, 10)
    ensures forall k :: 0 <= k < i ==> IsDigit(u[k])
    ensures i == |u| || !IsDigit(u[i])
  {
    assert forall k :: 0 <= k < i ==> u[k] == u[..i][k];
  }

  /** The digits that follow a point after the leading digits, and what stops them: in
      the whole prefix the point is the only character that is not a digit. */
  lemma {:induction false} DigitsAfterPoint(u: string, i: nat, f: nat)
    requires i == DigitRun(u, 10) && i < |u| && u[i] == '.'
    requires f == DigitRun(u[i + 1..], 10)
    ensures forall k :: 0 <= k < i + 1 + f ==> (IsDigit(u[k]) <==> k != i)
    ensures i + 1 + f == |u| || !IsDigit(u[i + 1 + f])
  {
    LeadingDigits(u, i);
    assert forall k :: i < k < i + 1 + f ==> u[k] == u[i + 1..][..f][k - i - 1];
    assert i + 1 + f < |u| ==> u[i + 1 + f] == u[i + 1..][f];
  }

  /** The value Mantissa reads from a prefix without a point is that of its digits. */
  lemma MantissaWhole(u: string)
    requires Mantissa(u).Some? && '.' !in u[..Mantissa(u).value.1]
    ensures AllDigits(u[..Mantissa(u).value.1], 10)
    ensures Mantissa(u).value.0 == DigitsValue(u[..Mantissa(u).value.1], 10) as real
  {}

  /** The value Mantissa reads from a prefix with its point at `i` is that of the digits
      with the point left out, over 10 to the number of digits after the point. */
  lemma {:induction false} MantissaWithPoint(u: string, i: nat)
    requires Mantissa(u).Some? && i < Mantissa(u).value.1 && u[i] == '.'
    ensures AllDigits(u[..i] + u[i + 1..Mantissa(u).value.1], 10)
    ensures Mantissa(u).value.0
         == Shifted(DigitsValue(u[..i] + u[i + 1..Mantissa(u).value.1], 10) as real,
                    Mantissa(u).value.1 - i - 1)
  {
    var len := Mantissa(u).value.1;
    PointEndsDigitRun(u, i);
    var whole, frac := u[..i], u[i + 1..len];
    assert frac == u[i + 1..][..DigitRun(u[i + 1..], 10)];
    assert Mantissa(u).value.0 == DigitsValue(whole, 10) as real + FractionValue(frac);
    var w, v := DigitsValue(whole, 10), DigitsValue(frac, 10);
    assert DigitsValue(whole + frac, 10) == w * Pow10(|frac|) + v by {
      DigitsValueAppend(whole, frac);
    }
    FractionOfDigits(frac);
    ShiftedSum((w * Pow10(|frac|)) as real, v as real, |frac|);
    ShiftedPower(w, |frac|);
  }

  /** A point inside the prefix Mantissa takes is the one right after the leading digits. */
  lemma {:induction false} PointEndsDigitRun(u: string, i: nat)
    requires Mantissa(u).Some? && i < Mantissa(u).value.1 && u[i] == '.'
    ensures i == DigitRun(u, 10)
    ensures i < |u| && Mantissa(u).value.1 == i + 1 + DigitRun(u[i + 1..], 10)
  {
    var d := DigitRun(u, 10);
    LeadingDigits(u, d);
    if d < |u| && u[d] == '.' {
      DigitsAfterPoint(u, d, DigitRun(u[d + 1..], 10));
    }
  }
}
