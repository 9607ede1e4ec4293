/**
 * The formulas of FUNCIONES-DIA-3/Areas.js: areas and a volume, and the
 * power rule for the derivative and the integral of a term c·x^n, computed
 * on (coefficient, exponent) pairs and written as text. Arithmetic is exact;
 * π is a parameter.
 */
module Areas {
  import opened Wrappers
  import opened Strings
  import opened JsNumbers

  // ---------------------------------------------------------------------
  // Areas and volume
  // ---------------------------------------------------------------------

  /** `areaCirculo(radio)`, with `pi` the value of `Math.PI`. */
  function AreaCirculo(pi: real, radio: real): real
  {
    pi * (radio * radio)
  }

  /** `areaRectangulo(base, altura)`. */
  function AreaRectangulo(base: real, altura: real): real
  {
    base * altura
  }

  /** `volumenCilindro(radio, altura)`: the area of the base times the height. */
  function VolumenCilindro(pi: real, radio: real, altura: real): real
  {
    AreaCirculo(pi, radio) * altura
  }

  /** A circle's area depends only on the size of the radius, and grows with its square. */
  lemma AreaCirculoScales(pi: real, radio: real, k: real)
    ensures AreaCirculo(pi, -radio) == AreaCirculo(pi, radio)
    ensures AreaCirculo(pi, k * radio) == k * k * AreaCirculo(pi, radio)
    ensures pi >= 0.0 ==> AreaCirculo(pi, radio) >= 0.0
  {
    assert (k * radio) * (k * radio) == k * k * (radio * radio);
  }

  /** A rectangle's area does not depend on which side is the base, and adds up along either side. */
  lemma AreaRectanguloProperties(b: real, h: real, h2: real)
    ensures AreaRectangulo(b, h) == AreaRectangulo(h, b)
    ensures AreaRectangulo(b, h + h2) == AreaRectangulo(b, h) + AreaRectangulo(b, h2)
  {
  }

  /** A cylinder is as big as a rectangle with the base's area for its base: stacking two adds their volumes. */
  lemma VolumenCilindroStacks(pi: real, radio: real, h1: real, h2: real)
    ensures VolumenCilindro(pi, radio, h1) == AreaRectangulo(AreaCirculo(pi, radio), h1)
    ensures VolumenCilindro(pi, radio, h1 + h2) == VolumenCilindro(pi, radio, h1) + VolumenCilindro(pi, radio, h2)
  {
  }

  // ---------------------------------------------------------------------
  // The power rule
  // ---------------------------------------------------------------------

  /** The term coeficiente · x^exponente. */
  datatype Term = Term(coeficiente: real, exponente: real)

  /** The derivative of c·x^n is (c·n)·x^(n-1). */
  function Derivada(t: Term): Term
  {
    Term(t.coeficiente * t.exponente, t.exponente - 1.0)
  }

  /** The integral of c·x^n is (c/(n+1))·x^(n+1); the script has no guard for n = -1. */
  function Integral(t: Term): Term
    requires t.exponente + 1.0 != 0.0
  {
    Term(t.coeficiente / (t.exponente + 1.0), t.exponente + 1.0)
  }

  /** Differentiating the integral of a term gives the term back. */
  lemma DerivadaOfIntegral(t: Term)
    requires t.exponente + 1.0 != 0.0
    ensures Derivada(Integral(t)) == t
  {
  }

  /** Integrating the derivative gives the term back, unless the term is a constant. */
  lemma IntegralOfDerivada(t: Term)
    requires t.exponente != 0.0
    ensures Derivada(t).exponente + 1.0 != 0.0
    ensures Integral(Derivada(t)) == t
  {
    var c, n := t.coeficiente, t.exponente;
    var d := Derivada(t);
    assert d.coeficiente == c * n && d.exponente + 1.0 == n;
    CancelFactor(c, n);
    assert Integral(d) == Term(d.coeficiente / n, n);
  }

  lemma CancelFactor(c: real, n: real)
    requires n != 0.0
    ensures c * n / n == c
  {
    var q := c * n / n;
    assert q * n == c * n;
    assert (q - c) * n == 0.0;
  }

  /** "<c>x^<n>": how the script writes a term. */
  function TermTexto(t: Term): string
  {
    RenderReal(t.coeficiente) + "x^" + RenderReal(t.exponente)
  }

  /** `derivadaPolinomio(coeficiente, exponente)`. */
  function DerivadaPolinomio(coeficiente: real, exponente: real): string
  {
    TermTexto(Derivada(Term(coeficiente, exponente)))
  }

  /** `integralPolinomio(coeficiente, exponente)`, for an exponent other than -1. */
  function IntegralPolinomio(coeficiente: real, exponente: real): string
    requires exponente + 1.0 != 0.0
  {
    TermTexto(Integral(Term(coeficiente, exponente))) + " + C"
  }

  /** The two examples the script documents. */
  lemma DocumentedExamples()
    ensures DerivadaPolinomio(3.0, 2.0) == "6x^1"
    ensures DerivadaPolinomio(5.0, 3.0) == "15x^2"
  {
    FirstExample();
    SecondExample();
  }

  lemma FirstExample()
    ensures DerivadaPolinomio(3.0, 2.0) == "6x^1"
  {
    WholeDerivada(3, 2);
    assert IntToDecimal(6) == "6" by { OneDigit(6); }
    assert IntToDecimal(1) == "1" by { OneDigit(1); }
    assert "6" + "x^" + "1" == "6x^1";
  }

  lemma SecondExample()
    ensures DerivadaPolinomio(5.0, 3.0) == "15x^2"
  {
    WholeDerivada(5, 3);
    assert IntToDecimal(15) == "15" by { TwoDigits(1, 5); }
    assert IntToDecimal(2) == "2" by { OneDigit(2); }
    assert "15" + "x^" + "2" == "15x^2";
  }

  lemma OneDigit(d: nat)
    requires d < 10
    ensures IntToDecimal(d) == [DigitChar(d)]
  {
  }

  lemma TwoDigits(t: nat, u: nat)
    requires 1 <= t < 10 && u < 10
    ensures IntToDecimal(10 * t + u) == [DigitChar(t), DigitChar(u)]
  {
    var n := 10 * t + u;
    assert n / 10 == t && n % 10 == u;
  }

  /** For whole numbers the derivative is written with the decimal digits of c·n and n-1. */
  lemma WholeDerivada(c: int, n: int)
    ensures DerivadaPolinomio(c as real, n as real) == IntToDecimal(c * n) + "x^" + IntToDecimal(n - 1)
  {
    var p := c * n;
    assert (p as real) == (c as real) * (n as real);
    assert Derivada(Term(c as real, n as real)) == Term(p as real, (n - 1) as real);
    WholeTermTexto(p, n - 1);
  }

  /** A term with whole numbers is written with their decimal digits. */
  lemma WholeTermTexto(c: int, n: int)
    ensures TermTexto(Term(c as real, n as real)) == IntToDecimal(c) + "x^" + IntToDecimal(n)
  {
    RenderWhole(c);
    RenderWhole(n);
  }

  // ---------------------------------------------------------------------
  // Reading a term back
  // ---------------------------------------------------------------------

  /** The coefficient and exponent a text "<c>x^<n>" names, when both parse. */
  function LeerTermino(s: string): Option<Term>
  {
    match IndexOf(s, "x^")
    case None => None
    case Some(i) =>
      var c, n := ParseFloat(s[..i]), ParseFloat(s[i + 2..]);
      if c.Num? && n.Num? then Some(Term(c.x, n.x)) else None
  }

  /** After a numeral, the first "x^" is the one right behind it. */
  lemma MarkerAfterNumeral(c: string, n: string)
    requires forall i :: 0 <= i < |c| ==> IsNumeralChar(c[i])
    ensures IndexOf(c + "x^" + n, "x^") == Some(|c|)
  {
    var s := c + "x^" + n;
    assert s[|c|..|c| + 2] == "x^";
    assert OccursAt(s, "x^", |c|);
    forall j: nat | j < |c| ensures !OccursAt(s, "x^", j) {
      assert s[j] == c[j] && IsNumeralChar(c[j]);
    }
  }

  /** The "x^" of a written term is the one after the coefficient. */
  lemma MarkerAfterCoefficient(t: Term)
    ensures IndexOf(TermTexto(t), "x^") == Some(|RenderReal(t.coeficiente)|)
  {
    RenderRealChars(t.coeficiente);
    MarkerAfterNumeral(RenderReal(t.coeficiente), RenderReal(t.exponente));
  }

  /** A term whose numbers have at most 20 decimals reads back from its text. */
  lemma TermTextoReadsBack(t: Term)
    requires HasFractionDigits(t.coeficiente, MaxFractionDigits)
    requires HasFractionDigits(t.exponente, MaxFractionDigits)
    ensures LeerTermino(TermTexto(t)) == Some(t)
  {
    var c, n := RenderReal(t.coeficiente), RenderReal(t.exponente);
    var s := TermTexto(t);
    MarkerAfterCoefficient(t);
    assert s[..|c|] == c && s[|c| + 2..] == n;
    RenderThenParse(t.coeficiente);
    RenderThenParse(t.exponente);
  }

  /** The text of the derivative names the coefficient c·n and the exponent n-1. */
  lemma DerivadaPolinomioReadsBack(c: real, n: real)
    requires HasFractionDigits(c * n, MaxFractionDigits)
    requires HasFractionDigits(n - 1.0, MaxFractionDigits)
    ensures LeerTermino(DerivadaPolinomio(c, n)) == Some(Term(c * n, n - 1.0))
  {
    var t := Derivada(Term(c, n));
    assert t == Term(c * n, n - 1.0);
    assert DerivadaPolinomio(c, n) == TermTexto(t);
    TermTextoReadsBack(t);
  }

  /** The text of the integral is a term followed by " + C", and the term is (c/(n+1))·x^(n+1). */
  lemma IntegralPolinomioReadsBack(c: real, n: real)
    requires n + 1.0 != 0.0
    requires HasFractionDigits(c / (n + 1.0), MaxFractionDigits)
    requires HasFractionDigits(n + 1.0, MaxFractionDigits)
    ensures var s := IntegralPolinomio(c, n);
            |s| >= 4 && s[|s| - 4..] == " + C" &&
            LeerTermino(s[..|s| - 4]) == Some(Term(c / (n + 1.0), n + 1.0))
  {
    var t := Integral(Term(c, n));
    var s := IntegralPolinomio(c, n);
    assert s[..|s| - 4] == TermTexto(t);
    TermTextoReadsBack(t);
  }
}
