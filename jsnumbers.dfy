/**
 * The JavaScript values the calculator script moves between its display
 * string and its operands: `parseFloat` of the display, `String(x)` of a
 * result, `Math.round` to a number of decimals, and the arithmetic operators
 * as JavaScript applies them to numbers, NaN, `null` and strings.
 *
 * Numbers are exact reals: there is no floating-point rounding, no infinity
 * and no negative zero (JavaScript's -0 behaves as 0 in everything the
 * calculator does with it).
 */
module JsNumbers {
  import opened Strings

  /** A JavaScript value as the calculator meets it. */
  datatype Value = Null | Num(x: real) | NaN | Text(s: string)

  /** What `parseFloat` and the numeric operators produce: a finite number or NaN. */
  type Number = v: Value | v.Num? || v.NaN? witness NaN

  /** x * 10^k, one factor of ten at a time. */
  function Shift(x: real, k: nat): (r: real)
    ensures x >= 0.0 ==> r >= 0.0
  {
    if k == 0 then x else Shift(x, k - 1) * 10.0
  }

  /** x / 10^k, one factor of ten at a time. */
  function Unshift(x: real, k: nat): (r: real)
    ensures x >= 0.0 ==> r >= 0.0
  {
    if k == 0 then x else Unshift(x, k - 1) / 10.0
  }

  predicate IsIntegral(r: real) { r.Floor as real == r }

  /** `x` has at most `k` digits after the decimal point. */
  predicate HasFractionDigits(x: real, k: nat) { IsIntegral(Shift(x, k)) }

  lemma FloorUnique(y: real, m: int)
    requires m as real <= y < m as real + 1.0
    ensures y.Floor == m
  {
  }

  lemma {:induction false} ShiftLinear(a: real, b: real, k: nat)
    ensures Shift(a + b, k) == Shift(a, k) + Shift(b, k)
    ensures Shift(-a, k) == -Shift(a, k)
    decreases k
  {
    if k > 0 { ShiftLinear(a, b, k - 1); }
  }

  lemma {:induction false} UnshiftLinear(a: real, b: real, k: nat)
    ensures Unshift(a + b, k) == Unshift(a, k) + Unshift(b, k)
    ensures Unshift(a - b, k) == Unshift(a, k) - Unshift(b, k)
    decreases k
  {
    if k > 0 { UnshiftLinear(a, b, k - 1); }
  }

  lemma {:induction false} UnshiftMonotone(a: real, b: real, k: nat)
    ensures a <= b ==> Unshift(a, k) <= Unshift(b, k)
    ensures a < b ==> Unshift(a, k) < Unshift(b, k)
    decreases k
  {
    if k > 0 { UnshiftMonotone(a, b, k - 1); }
  }

  lemma {:induction false} ShiftTimes10(x: real, k: nat)
    ensures Shift(x * 10.0, k) == Shift(x, k) * 10.0
    ensures Unshift(x / 10.0, k) == Unshift(x, k) / 10.0
    decreases k
  {
    if k > 0 { ShiftTimes10(x, k - 1); }
  }

  /** Shifting and unshifting by the same number of places cancel out. */
  lemma {:induction false} ShiftUnshift(x: real, k: nat)
    ensures Shift(Unshift(x, k), k) == x
    ensures Unshift(Shift(x, k), k) == x
    decreases k
  {
    if k > 0 {
      // Shift(Unshift(x, k), k) == Shift(Unshift(x, k - 1) / 10, k - 1) * 10
      ShiftTimes10(Unshift(x, k), k - 1);
      assert Unshift(x, k) * 10.0 == Unshift(x, k - 1);
      ShiftUnshift(x, k - 1);
      ShiftTimes10(Shift(x, k), k - 1);
      assert Shift(x, k) / 10.0 == Shift(x, k - 1);
    }
  }

  /** Shifting a whole number multiplies it by 10^k. */
  lemma {:induction false} ShiftWhole(n: int, k: nat)
    ensures Shift(n as real, k) == (n * Pow10(k)) as real
    decreases k
  {
    if k > 0 {
      ShiftWhole(n, k - 1);
      assert n * Pow10(k) == (n * Pow10(k - 1)) * 10;
    }
  }

  lemma {:induction false} FractionDigitsMonotone(x: real, k: nat, j: nat)
    requires k <= j && HasFractionDigits(x, k)
    ensures HasFractionDigits(x, j)
    decreases j - k
  {
    if k < j {
      var m := Shift(x, k).Floor;
      assert Shift(x, k + 1) == (m * 10) as real;
      FractionDigitsMonotone(x, k + 1, j);
    }
  }

  lemma WholeHasFractionDigits(n: int, k: nat)
    ensures HasFractionDigits(n as real, k)
  {
    FractionDigitsMonotone(n as real, 0, k);
  }

  lemma {:induction false} ShiftMul(x: real, c: real, k: nat)
    ensures Shift(x * c, k) == Shift(x, k) * c
    decreases k
  {
    if k > 0 { ShiftMul(x, c, k - 1); }
  }

  lemma {:induction false} ShiftTenth(x: real, k: nat)
    ensures Shift(x / 10.0, k + 1) == Shift(x, k)
    decreases k
  {
    if k > 0 { ShiftTenth(x, k - 1); }
  }

  /** Sums and differences of numbers with `k` fraction digits have `k` fraction digits. */
  lemma FractionDigitsAdd(x: real, y: real, k: nat)
    requires HasFractionDigits(x, k) && HasFractionDigits(y, k)
    ensures HasFractionDigits(x + y, k) && HasFractionDigits(x - y, k)
  {
    ShiftLinear(x, y, k);
    ShiftLinear(x, -y, k);
    ShiftLinear(y, 0.0, k);
    var m, n := Shift(x, k).Floor, Shift(y, k).Floor;
    assert Shift(x + y, k) == (m + n) as real;
    assert Shift(x - y, k) == (m - n) as real;
  }

  lemma FractionDigitsNegate(x: real, k: nat)
    ensures HasFractionDigits(-x, k) <==> HasFractionDigits(x, k)
  {
    ShiftLinear(x, 0.0, k);
    var y := Shift(x, k);
    if IsIntegral(y) {
      FloorUnique(-y, -y.Floor);
    }
    if IsIntegral(-y) {
      FloorUnique(y, -((-y).Floor));
    }
  }

  // ---------------------------------------------------------------------
  // parseFloat
  // ---------------------------------------------------------------------

  /** Length of the run of decimal digits at the start of `s`. */
  function DigitRun(s: string): (n: nat)
    ensures n <= |s| && AllDigits(s[..n])
    ensures n < |s| ==> !IsDigit(s[n])
  {
    if s != [] && IsDigit(s[0]) then
      var n := DigitRun(s[1..]);
      assert s[..n + 1] == [s[0]] + s[1..][..n];
      n + 1
    else 0
  }

  lemma {:induction false} DigitRunOfDigits(d: string, tail: string)
    requires AllDigits(d)
    requires tail == [] || !IsDigit(tail[0])
    ensures DigitRun(d + tail) == |d|
    decreases |d|
  {
    if d != [] {
      assert (d + tail)[1..] == d[1..] + tail;
      DigitRunOfDigits(d[1..], tail);
    }
  }

  /** The decimal numeral `whole.frac` as an exact real. */
  function DecimalValue(whole: string, frac: string): real
    requires AllDigits(whole) && AllDigits(frac)
  {
    DigitsValue(whole) as real + Unshift(DigitsValue(frac) as real, |frac|)
  }

  /** The digits of a '.' followed by digits at the start of `rest`; empty when `rest` does not start with '.'. */
  function FractionPart(rest: string): (f: string)
    ensures AllDigits(f)
  {
    if rest != [] && rest[0] == '.' then rest[1..][..DigitRun(rest[1..])] else ""
  }

  /** An unsigned numeral: digits, then an optional point and more digits; NaN without any digit. */
  function ParseUnsigned(body: string): (v: Number)
    ensures v.Num? ==> v.x >= 0.0
  {
    var i := DigitRun(body);
    var frac := FractionPart(body[i..]);
    if i == 0 && frac == [] then NaN else Num(DecimalValue(body[..i], frac))
  }

  /**
   * `parseFloat(s)`: an optional sign, then the longest numeral made of
   * digits, an optional point and more digits; NaN when no digit is found
   * there. Whatever follows the numeral is ignored.
   */
  function ParseFloat(s: string): (v: Number)
  {
    if s != [] && s[0] == '-' then
      var v := ParseUnsigned(s[1..]);
      if v.Num? then Num(-v.x) else NaN
    else if s != [] && s[0] == '+' then ParseUnsigned(s[1..])
    else ParseUnsigned(s)
  }

  // ---------------------------------------------------------------------
  // String(x)
  // ---------------------------------------------------------------------

  /** Longest fraction `String` writes out in this model. */
  const MaxFractionDigits: nat := 20

  /** The fewest fraction digits, from `k` on, that represent `x` exactly (at most 20). */
  function FractionDigitsFrom(x: real, k: nat): (n: nat)
    requires k <= MaxFractionDigits
    ensures k <= n <= MaxFractionDigits
    ensures n < MaxFractionDigits ==> HasFractionDigits(x, n)
    decreases MaxFractionDigits - k
  {
    if k == MaxFractionDigits || HasFractionDigits(x, k) then k else FractionDigitsFrom(x, k + 1)
  }

  /**
   * The numeral of the number (-1)^neg * n / 10^k: a '-' when `neg`, the
   * digits of the whole part and, when `k` > 0, a '.' and exactly `k`
   * fraction digits.
   */
  function Numeral(neg: bool, n: nat, k: nat): string
  {
    var d := PaddedDigits(n, k + 1);
    var w := |d| - k;
    (if neg then "-" else "") + d[..w] + (if k == 0 then "" else "." + d[w..])
  }

  /** The decimal digits of `n`, with zeros in front to make at least `k` of them. */
  function PaddedDigits(n: nat, k: nat): (d: string)
    ensures |d| >= k && |d| >= 1 && AllDigits(d) && DigitsValue(d) == n
  {
    PadZerosValue(NatToDecimal(n), k);
    PadZeros(NatToDecimal(n), k)
  }

  /** floor(a * 10^k) for a non-negative `a`. */
  function ScaledFloor(a: real, k: nat): nat
    requires a >= 0.0
  {
    Shift(a, k).Floor
  }

  /**
   * `String(x)` for a finite number: a '-' for a negative number, the digits
   * of the whole part, and, unless `x` is whole, a '.' and the shortest run
   * of fraction digits that represents it.
   */
  function RenderReal(x: real): string
  {
    var a := if x < 0.0 then -x else x;
    var k := FractionDigitsFrom(a, 0);
    Numeral(x < 0.0, ScaledFloor(a, k), k)
  }

  /** `String(v)`. */
  function Render(v: Value): string
  {
    match v
    case Null => "null"
    case Num(x) => RenderReal(x)
    case NaN => "NaN"
    case Text(t) => t
  }

  /** `String` writes a whole number as its decimal digits, with a '-' when negative. */
  lemma RenderWhole(i: int)
    ensures RenderReal(i as real) == IntToDecimal(i)
  {
    var a := if i < 0 then -i else i;
    assert (if (i as real) < 0.0 then -(i as real) else i as real) == a as real;
    assert HasFractionDigits(a as real, 0);
    assert FractionDigitsFrom(a as real, 0) == 0;
    assert ScaledFloor(a as real, 0) == a;
    var d := PaddedDigits(a, 1);
    assert d == NatToDecimal(a);
    assert d[..|d| - 0] == d;
  }

  /** A rendered number never contains more than one '.'. */
  lemma RenderRealOneDot(x: real)
    ensures Count(RenderReal(x), '.') <= 1
  {
    var a := if x < 0.0 then -x else x;
    var k := FractionDigitsFrom(a, 0);
    NumeralOneDot(x < 0.0, ScaledFloor(a, k), k);
  }

  /** A rendered number starts with a digit or '-'. */
  lemma RenderRealStart(x: real)
    ensures RenderReal(x) != [] && (IsDigit(RenderReal(x)[0]) || RenderReal(x)[0] == '-')
  {
    var a := if x < 0.0 then -x else x;
    var k := FractionDigitsFrom(a, 0);
    var d := PaddedDigits(ScaledFloor(a, k), k + 1);
  }

  /** A character `String` writes for a finite number. */
  predicate IsNumeralChar(c: char) { IsDigit(c) || c == '-' || c == '.' }

  /** A numeral is made of digits, '-' and '.' only. */
  lemma NumeralChars(neg: bool, n: nat, k: nat)
    ensures forall i :: 0 <= i < |Numeral(neg, n, k)| ==> IsNumeralChar(Numeral(neg, n, k)[i])
  {
    var d := PaddedDigits(n, k + 1);
    var w := |d| - k;
    var sign := if neg then "-" else "";
    var tail := if k == 0 then "" else "." + d[w..];
    assert Numeral(neg, n, k) == sign + d[..w] + tail;
    assert AllNumeralChars(tail) by {
      if k > 0 {
        DigitsAreNumeralChars(d[w..]);
        NumeralCharsAppend(".", d[w..]);
      }
    }
    DigitsAreNumeralChars(d[..w]);
    NumeralCharsAppend(sign, d[..w]);
    NumeralCharsAppend(sign + d[..w], tail);
  }

  lemma DigitsAreNumeralChars(s: string)
    requires AllDigits(s)
    ensures AllNumeralChars(s)
  {
  }

  predicate AllNumeralChars(s: string)
  {
    forall i :: 0 <= i < |s| ==> IsNumeralChar(s[i])
  }

  lemma NumeralCharsAppend(a: string, b: string)
    requires AllNumeralChars(a) && AllNumeralChars(b)
    ensures AllNumeralChars(a + b)
  {
    forall i | 0 <= i < |a + b| ensures IsNumeralChar((a + b)[i]) {
      if i < |a| {
        assert (a + b)[i] == a[i];
      } else {
        assert (a + b)[i] == b[i - |a|];
      }
    }
  }

  /** A rendered number is made of digits, '-' and '.' only. */
  lemma RenderRealChars(x: real)
    ensures forall i :: 0 <= i < |RenderReal(x)| ==> IsNumeralChar(RenderReal(x)[i])
  {
    var a := if x < 0.0 then -x else x;
    var k := FractionDigitsFrom(a, 0);
    NumeralChars(x < 0.0, ScaledFloor(a, k), k);
  }

  /** (w * 10^k + f) / 10^k is w plus f / 10^k. */
  lemma UnshiftSplit(w: nat, f: nat, k: nat)
    ensures Unshift((w * Pow10(k) + f) as real, k) == w as real + Unshift(f as real, k)
  {
    ShiftWhole(w, k);
    ShiftUnshift(w as real, k);
    UnshiftLinear((w * Pow10(k)) as real, f as real, k);
  }

  /** Digits and an optional '.' with more digits read as their exact value. */
  lemma ParseUnsignedDecimal(whole: string, f: string)
    requires |whole| >= 1 && AllDigits(whole) && AllDigits(f)
    ensures ParseUnsigned(whole + (if f == [] then "" else "." + f)) == Num(DecimalValue(whole, f))
  {
    var tail := if f == [] then "" else "." + f;
    var body := whole + tail;
    DigitRunOfDigits(whole, tail);
    assert body[..|whole|] == whole && body[|whole|..] == tail;
    if f != [] {
      DigitRunOfDigits(f, "");
      assert f + "" == f;
      assert tail[1..] == f;
    }
  }

  /** A '-' in front of a numeral that starts with a digit negates it; nothing in front leaves it as it is. */
  lemma ParseSigned(neg: bool, body: string)
    requires body != [] && IsDigit(body[0])
    ensures var v := ParseUnsigned(body);
            ParseFloat((if neg then "-" else "") + body) == (if !neg then v else if v.Num? then Num(-v.x) else NaN)
  {
    var s := (if neg then "-" else "") + body;
    if neg {
      assert s[0] == '-' && s[1..] == body;
    } else {
      assert s == body && s[0] != '-' && s[0] != '+';
    }
  }

  /** `parseFloat` reads an optional '-', digits and an optional '.' with more digits as their exact value. */
  lemma ParseDecimal(neg: bool, whole: string, f: string)
    requires |whole| >= 1 && AllDigits(whole) && AllDigits(f)
    ensures var v := DecimalValue(whole, f);
            ParseFloat((if neg then "-" else "") + whole + (if f == [] then "" else "." + f))
              == Num(if neg then -v else v)
  {
    var sign := if neg then "-" else "";
    var tail := if f == [] then "" else "." + f;
    var body := whole + tail;
    ParseUnsignedDecimal(whole, f);
    assert sign + whole + tail == sign + body;
    ParseSigned(neg, body);
  }

  /** The digits of a numeral: the whole part, then exactly `k` fraction digits, worth `n` together. */
  lemma NumeralDigits(n: nat, k: nat) returns (whole: string, f: string)
    ensures |whole| >= 1 && AllDigits(whole) && AllDigits(f) && |f| == k
    ensures n == DigitsValue(whole) * Pow10(k) + DigitsValue(f)
    ensures forall neg: bool {:trigger Numeral(neg, n, k)} ::
      Numeral(neg, n, k) == (if neg then "-" else "") + whole + (if f == [] then "" else "." + f)
  {
    var d := PaddedDigits(n, k + 1);
    var w := |d| - k;
    whole, f := d[..w], d[w..];
    DigitsSplit(d, w);
    forall neg: bool
      ensures Numeral(neg, n, k) == (if neg then "-" else "") + whole + (if f == [] then "" else "." + f)
    {
      assert (f == []) == (k == 0);
    }
  }

  /** Cutting a digit string in two: both halves are digits, and the value splits accordingly. */
  lemma DigitsSplit(d: string, w: nat)
    requires AllDigits(d) && w <= |d|
    ensures AllDigits(d[..w]) && AllDigits(d[w..])
    ensures DigitsValue(d) == DigitsValue(d[..w]) * Pow10(|d| - w) + DigitsValue(d[w..])
  {
    assert d == d[..w] + d[w..];
    DigitsValueAppend(d[..w], d[w..]);
  }

  /** A numeral holds at most one '.'. */
  lemma NumeralOneDot(neg: bool, n: nat, k: nat)
    ensures Count(Numeral(neg, n, k), '.') <= 1
  {
    var whole, f := NumeralDigits(n, k);
    var sign := if neg then "-" else "";
    var tail := if f == [] then "" else "." + f;
    assert Numeral(neg, n, k) == sign + whole + tail;
    assert '.' !in whole && '.' !in f;
    CountAppend(sign, whole, '.');
    CountAppend(sign + whole, tail, '.');
    if f != [] {
      CountAppend(".", f, '.');
    }
  }

  /** w.f read as a decimal is (w * 10^k + f) / 10^k. */
  lemma DecimalValueOfDigits(n: nat, k: nat, whole: string, f: string)
    requires AllDigits(whole) && AllDigits(f) && |f| == k
    requires n == DigitsValue(whole) * Pow10(k) + DigitsValue(f)
    ensures DecimalValue(whole, f) == Unshift(n as real, k)
  {
    UnshiftSplit(DigitsValue(whole), DigitsValue(f), k);
  }

  /** `parseFloat` reads a run of digits as the whole number it denotes. */
  lemma ParseDigits(w: string)
    requires |w| >= 1 && AllDigits(w)
    ensures ParseFloat(w) == Num(DigitsValue(w) as real)
  {
    ParseUnsignedDecimal(w, "");
    assert w + "" == w;
    assert ParseFloat(w) == ParseUnsigned(w);
    assert DecimalValue(w, "") == DigitsValue(w) as real;
  }

  /** `parseFloat` reads a numeral back as the number it stands for. */
  lemma ParseNumeral(neg: bool, n: nat, k: nat)
    ensures var v := Unshift(n as real, k);
            ParseFloat(Numeral(neg, n, k)) == Num(if neg then -v else v)
  {
    var whole, f := NumeralDigits(n, k);
    DecimalValueOfDigits(n, k, whole, f);
    ParseDecimal(neg, whole, f);
  }

  /** Reading back what `String` wrote gives the same number, for every number of at most 20 fraction digits. */
  lemma RenderThenParse(x: real)
    requires HasFractionDigits(x, MaxFractionDigits)
    ensures ParseFloat(RenderReal(x)) == Num(x)
  {
    var a := if x < 0.0 then -x else x;
    FractionDigitsNegate(x, MaxFractionDigits);
    var k := FractionDigitsFrom(a, 0);
    var n := ScaledFloor(a, k);
    assert n as real == Shift(a, k);
    ShiftUnshift(a, k);
    ParseNumeral(x < 0.0, n, k);
  }

  // ---------------------------------------------------------------------
  // Math.round to k decimals
  // ---------------------------------------------------------------------

  /**
   * `Math.round(x * 10^k) / 10^k`: the nearest number with `k` fraction
   * digits, halves rounded up.
   */
  function RoundTo(x: real, k: nat): (r: real)
    ensures HasFractionDigits(r, k)
  {
    var m := (Shift(x, k) + 0.5).Floor;
    ShiftUnshift(m as real, k);
    Unshift(m as real, k)
  }

  /** Rounding moves a number by at most half a unit in the k-th decimal place. */
  lemma RoundToError(x: real, k: nat)
    ensures Unshift(-0.5, k) < RoundTo(x, k) - x <= Unshift(0.5, k)
  {
    var y := Shift(x, k);
    var m := (y + 0.5).Floor;
    assert y - 0.5 < m as real <= y + 0.5;
    ShiftUnshift(x, k);
    UnshiftLinear(m as real, y, k);
    assert RoundTo(x, k) - x == Unshift(m as real - y, k);
    UnshiftMonotone(-0.5, m as real - y, k);
    UnshiftMonotone(m as real - y, 0.5, k);
  }

  /** A number that already has at most k fraction digits is left as it is. */
  lemma RoundToExact(x: real, k: nat)
    requires HasFractionDigits(x, k)
    ensures RoundTo(x, k) == x
  {
    var y := Shift(x, k);
    FloorUnique(y + 0.5, y.Floor);
    ShiftUnshift(x, k);
  }

  // ---------------------------------------------------------------------
  // The operators
  // ---------------------------------------------------------------------

  /**
   * `Number(v)`, the conversion the numeric operators apply to an operand:
   * `null` is 0, and a string is NaN because every string the calculator
   * builds begins with "Error".
   */
  function ToNumber(v: Value): Number
  {
    match v
    case Null => Num(0.0)
    case Num(_) => v
    case NaN => NaN
    case Text(_) => NaN
  }

  /** `a + b`: concatenation when `a` is a string, addition otherwise. */
  function Plus(a: Value, b: Number): Value
  {
    match a
    case Text(t) => Text(t + Render(b))
    case _ =>
      var x := ToNumber(a);
      if x.Num? && b.Num? then Num(x.x + b.x) else NaN
  }

  function Minus(a: Value, b: Number): Number
  {
    var x := ToNumber(a);
    if x.Num? && b.Num? then Num(x.x - b.x) else NaN
  }

  function Times(a: Value, b: Number): Number
  {
    var x := ToNumber(a);
    if x.Num? && b.Num? then Num(x.x * b.x) else NaN
  }

  /** `a / b` for a non-zero `b` (the calculator never divides by zero). */
  function Quotient(a: Value, b: Number): Number
    requires b != Num(0.0)
  {
    var x := ToNumber(a);
    if x.Num? && b.Num? then Num(x.x / b.x) else NaN
  }

  /** Truncation toward zero. */
  function Trunc(q: real): int
  {
    if q >= 0.0 then q.Floor else -((-q).Floor)
  }

  /** `a % b` for a non-zero `b`: the remainder of the division truncated toward zero. */
  function Remainder(a: Value, b: Number): Number
    requires b != Num(0.0)
  {
    var x := ToNumber(a);
    if x.Num? && b.Num? then Num(x.x - b.x * Trunc(x.x / b.x) as real) else NaN
  }

  function IntPow(x: real, n: nat): (r: real)
    ensures x != 0.0 ==> r != 0.0
  {
    if n == 0 then 1.0 else x * IntPow(x, n - 1)
  }

  /**
   * `Math.pow(a, b)`: 1 for a zero exponent whatever the base (NaN
   * included), NaN when either side is NaN, exact powers for whole
   * exponents, 0 for a zero base under a positive fractional exponent.
   * The cases JavaScript answers with Infinity or an irrational root are
   * NaN here.
   */
  function Power(a: Value, b: Number): Number
  {
    var x := ToNumber(a);
    if b == Num(0.0) then Num(1.0)
    else if b.NaN? || x.NaN? then NaN
    else if IsIntegral(b.x) then
      var n := b.x.Floor;
      if n > 0 then Num(IntPow(x.x, n))
      else if x.x != 0.0 then Num(1.0 / IntPow(x.x, -n))
      else NaN
    else if x.x == 0.0 && b.x > 0.0 then Num(0.0)
    else NaN
  }
}
