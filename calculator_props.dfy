/**
 * What the calculator's transitions guarantee: the editing keys keep a
 * well-formed numeral, '=' leaves nothing pending, the operator keys keep
 * the first operand and the display consistent, and the arithmetic is exact
 * where the operands allow it.
 */
module CalculatorProperties {
  import opened Wrappers
  import opened Strings
  import opened JsNumbers
  import opened CalculatorSteps

  // ---------------------------------------------------------------------
  // Typing a number
  // ---------------------------------------------------------------------

  /** The state after typing the digits of `w`, one key at a time. */
  function TypeDigits(st: State, w: string): State
    requires AllDigits(w)
    decreases |w|
  {
    if w == [] then st else TypeDigits(InputDigit(st, w[0]), w[1..])
  }

  /** Typing digits onto a number being entered appends them. */
  lemma {:induction false} TypingAppends(st: State, w: string)
    requires AllDigits(w) && !st.waiting && st.display !in {"", "0"}
    ensures TypeDigits(st, w) == st.(display := st.display + w)
    decreases |w|
  {
    if w != [] {
      var st' := InputDigit(st, w[0]);
      assert st'.display == st.display + [w[0]];
      TypingAppends(st', w[1..]);
      assert st.display + [w[0]] + w[1..] == st.display + w;
    }
  }

  /**
   * On a fresh display ("0", or one waiting for a second operand), typing a
   * number without leading zeros shows exactly that number; the display then
   * reads back as its value, and `String` of that value is the typed text.
   */
  lemma TypingNumber(st: State, w: string)
    requires |w| >= 1 && AllDigits(w) && (w[0] != '0' || |w| == 1)
    requires st.waiting || st.display == "0"
    requires |w| > 1 ==> w[0] != '0'
    ensures TypeDigits(st, w) == st.(display := w, waiting := false)
    ensures ParseFloat(w) == Num(DigitsValue(w) as real)
    ensures RenderReal(DigitsValue(w) as real) == w
  {
    var st' := InputDigit(st, w[0]);
    assert st'.display == [w[0]] && !st'.waiting;
    if |w| > 1 {
      TypingAppends(st', w[1..]);
      assert [w[0]] + w[1..] == w;
    }
    ParseDigits(w);
    RenderWhole(DigitsValue(w));
    DecimalOfDigits(w);
  }

  /** A second '.' in a row changes nothing. */
  lemma DotIdempotent(st: State)
    ensures InputDot(InputDot(st)) == InputDot(st)
  {
  }

  lemma CountSplit(s: string, i: nat, c: char)
    requires i <= |s|
    ensures Count(s[..i], c) <= Count(s, c) && Count(s[i..], c) <= Count(s, c)
  {
    assert s == s[..i] + s[i..];
    CountAppend(s[..i], s[i..], c);
  }

  /** Typing a digit never adds a '.'. */
  lemma DigitKeepsOneDot(st: State, d: char)
    requires IsDigit(d) && Count(st.display, '.') <= 1
    ensures Count(InputDigit(st, d).display, '.') <= 1
  {
    CountAppend(st.display, [d], '.');
  }

  /** The '.' key adds a '.' only to a display without one. */
  lemma DotKeepsOneDot(st: State)
    requires Count(st.display, '.') <= 1
    ensures Count(InputDot(st).display, '.') <= 1
  {
    CountAppend(st.display, ".", '.');
    assert Count("0.", '.') == Count("0", '.') + Count(".", '.') by {
      CountAppend("0", ".", '.');
    }
  }

  /** Changing the sign never adds a '.'. */
  lemma SignKeepsOneDot(st: State)
    requires Count(st.display, '.') <= 1
    ensures Count(ToggleSign(st).display, '.') <= 1
  {
    CountAppend("-", st.display, '.');
    if st.display != [] {
      CountSplit(st.display, 1, '.');
    }
  }

  /** Backspace never adds a '.'. */
  lemma DeleteKeepsOneDot(st: State)
    requires Count(st.display, '.') <= 1
    ensures Count(DeleteDigit(st).display, '.') <= 1
  {
    if st.display != [] {
      CountSplit(st.display, |st.display| - 1, '.');
    }
  }

  /**
   * Changing the sign twice gives back the display, except for "-0", which
   * becomes "0", and a display starting with "--", which loses both signs.
   */
  lemma ToggleTwice(d: string)
    ensures Toggled(Toggled(d)) == d <==> !(|d| >= 2 && d[0] == '-' && (d == "-0" || d[1] == '-'))
  {
    if d != "0" && d != [] && d[0] == '-' {
      var t := d[1..];
      if t == "0" {
        assert d == "-0";
      } else if t != [] && t[0] == '-' {
        assert |Toggled(t)| < |d|;
      } else {
        assert Toggled(t) == "-" + t == d;
      }
    } else if d != "0" {
      var t := "-" + d;
      assert Toggled(d) == t;
      assert t != "0" && t[0] == '-' && t[1..] == d;
      assert Toggled(t) == d;
    }
  }

  /** Backspace takes back the digit just typed, unless the display was "0", "-" or empty. */
  lemma DeleteUndoesDigit(st: State, d: char)
    requires IsDigit(d) && !st.waiting
    requires st.display !in {"", "0", "-"}
    ensures DeleteDigit(InputDigit(st, d)) == st
  {
    var s := st.display + [d];
    assert s[..|s| - 1] == st.display;
    assert |st.display| == 1 ==> st.display == [st.display[0]];
  }

  /** Backspace never empties a display that has something in it. */
  lemma DeleteKeepsDisplay(st: State)
    requires st.display != []
    ensures DeleteDigit(st).display != []
  {
  }

  // ---------------------------------------------------------------------
  // calculate
  // ---------------------------------------------------------------------

  /** A string starting with "Error". */
  predicate ErrorText(t: string)
  {
    |t| >= 5 && t[..5] == "Error"
  }

  /**
   * `calculate` answers with a string exactly when it divides or takes a
   * remainder by zero, or adds to an error string, which it extends.
   */
  lemma CalculateTextIff(a: Value, b: Number, op: Option<Op>)
    requires a.Text? ==> ErrorText(a.s)
    ensures var r := Calculate(a, b, op);
            r.Text? <==> (op in {Some(Mod), Some(Div)} && b == Num(0.0)) || (a.Text? && op == Some(Add))
    ensures Calculate(a, b, op).Text? ==> ErrorText(Calculate(a, b, op).s)
  {
    if a.Text? && op == Some(Add) && b != Num(0.0) {
      assert (a.s + Render(b))[..5] == a.s[..5];
    }
  }

  /** Sums and differences of operands with at most 9 decimals are exact. */
  lemma CalculateExactSum(x: real, y: real)
    requires HasFractionDigits(x, 9) && HasFractionDigits(y, 9)
    ensures Calculate(Num(x), Num(y), Some(Add)) == Num(x + y)
    ensures Calculate(Num(x), Num(y), Some(Sub)) == Num(x - y)
  {
    FractionDigitsAdd(x, y, 9);
    RoundToExact(x + y, 9);
    RoundToExact(x - y, 9);
  }

  /** Products of whole operands are exact. */
  lemma CalculateExactProduct(m: int, n: int)
    ensures Calculate(Num(m as real), Num(n as real), Some(Mul)) == Num((m * n) as real)
  {
    var p := m * n;
    assert (p as real) == (m as real) * (n as real);
    WholeHasFractionDigits(p, 9);
    CalculateExactTimes(m as real, n as real, p as real);
  }

  lemma CalculateExactTimes(x: real, y: real, z: real)
    requires z == x * y && HasFractionDigits(z, 9)
    ensures Calculate(Num(x), Num(y), Some(Mul)) == Num(z)
  {
    assert Times(Num(x), Num(y)) == Num(z);
    RoundToExact(z, 9);
    assert Tidy(Num(z)) == Num(z);
  }

  /** Without an operator, `calculate` returns the second operand. */
  lemma CalculateWithoutOperator(a: Value, b: Number)
    ensures Calculate(a, b, None) == b
  {
  }

  // ---------------------------------------------------------------------
  // handleOperator and '='
  // ---------------------------------------------------------------------

  /** Two operator keys in a row: the second replaces the first and nothing else changes. */
  lemma OperatorTwiceKeepsLast(st: State, o: Op, next: Option<Op>)
    ensures HandleOperator(HandleOperator(st, Some(o)), next) == HandleOperator(st, next)
  {
  }

  /** With no first operand, an operator key captures a display that parses, and waits. */
  lemma OperatorCaptures(st: State, next: Option<Op>)
    requires !(st.operator.Some? && st.waiting) && st.first.Null? && ParseFloat(st.display).Num?
    ensures HandleOperator(st, next) == st.(first := ParseFloat(st.display), waiting := true, operator := next)
  {
  }

  /** '=' leaves no operator, no first operand, and the display open to typing. */
  lemma EvaluateResets(st: State)
    ensures var st' := Evaluate(st);
            st'.operator.None? && !st'.waiting && st'.first.Null?
  {
  }

  /**
   * What holds of every state the calculator reaches: waiting for a second
   * operand means an operator is pending, without an operator there is no
   * first operand, and a string first operand is an error message (so
   * JavaScript reads it as NaN).
   */
  predicate Invariant(st: State)
  {
    (st.waiting ==> st.operator.Some?) &&
    (st.operator.None? ==> st.first.Null?) &&
    (st.first.Text? ==> ErrorText(st.first.s))
  }

  lemma HandleOperatorKeepsInvariant(st: State, next: Option<Op>)
    requires Invariant(st) && next.Some?
    ensures Invariant(HandleOperator(st, next))
  {
    if !(st.operator.Some? && st.waiting) && !(st.first.Null? && !ParseFloat(st.display).NaN?) && st.operator.Some? {
      CalculateTextIff(st.first, ParseFloat(st.display), st.operator);
    }
  }

  /** Every key keeps the invariant. */
  lemma KeyDownKeepsInvariant(st: State, key: string)
    requires Invariant(st)
    ensures Invariant(KeyDown(st, key))
  {
    if key in {"+", "*", "/", "^", "%"} {
      HandleOperatorKeepsInvariant(st, Some(KeyOperator(key)));
    } else if key == "-" {
      HandleOperatorKeepsInvariant(st, Some(Sub));
    }
  }

  /** Every button keeps the invariant. */
  lemma ClickKeepsInvariant(st: State, b: Button, lib: real)
    requires Invariant(st) && (b.DigitButton? ==> IsDigit(b.digit))
    ensures Invariant(Click(st, b, lib))
  {
    match b
    case PowButton => HandleOperatorKeepsInvariant(st, Some(Pow));
    case ModButton => HandleOperatorKeepsInvariant(st, Some(Mod));
    case PlusButton => HandleOperatorKeepsInvariant(st, Some(Add));
    case MinusButton => HandleOperatorKeepsInvariant(st, Some(Sub));
    case TimesButton => HandleOperatorKeepsInvariant(st, Some(Mul));
    case DivideButton => HandleOperatorKeepsInvariant(st, Some(Div));
    case _ =>
  }

  /** Any sequence of keys from the start keeps the invariant. */
  lemma {:induction false} RunKeepsInvariant(st: State, keys: seq<string>)
    requires Invariant(st)
    ensures Invariant(Run(st, keys))
    decreases keys
  {
    if keys != [] {
      KeyDownKeepsInvariant(st, keys[0]);
      RunKeepsInvariant(KeyDown(st, keys[0]), keys[1..]);
    }
  }

  /**
   * After an operator key that captures or computes, a numeric first
   * operand is exactly what the display reads back as.
   */
  lemma OperandShown(st: State, next: Option<Op>)
    requires Invariant(st) && !(st.operator.Some? && st.waiting)
    ensures var st' := HandleOperator(st, next);
            st'.first.Num? ==> ParseFloat(st'.display) == st'.first
  {
    var input := ParseFloat(st.display);
    if !(st.first.Null? && !input.NaN?) && st.operator.Some? {
      var r := Calculate(st.first, input, st.operator);
      if r.Num? {
        assert HasFractionDigits(r.x, 9);
        FractionDigitsMonotone(r.x, 9, MaxFractionDigits);
        RenderThenParse(r.x);
      }
    }
  }

  // ---------------------------------------------------------------------
  // The one-operand keys, percent and the temperature keys
  // ---------------------------------------------------------------------

  /** A number on the display turns into "Error" under a function exactly outside its domain. */
  lemma ApplyUnaryErrorIff(st: State, u: Unary, lib: real)
    requires ParseFloat(st.display).Num?
    ensures ApplyUnary(st, u, lib).display == "Error" <==> OutOfDomain(u, ParseFloat(st.display).x)
  {
    var x := ParseFloat(st.display).x;
    if !OutOfDomain(u, x) {
      RenderRealStart(RoundTo(UnaryValue(u, x, lib), 9));
    }
  }

  /** Percent writes a hundredth of a number that parses, and leaves anything else alone. */
  lemma PercentShows(st: State)
    ensures var v := ParseFloat(st.display);
            (v.Num? ==> Percent(st).display == RenderReal(Percentage(v.x))) &&
            (v.NaN? ==> Percent(st) == st)
  {
  }

  /** A hundredth of a number has two more fraction digits. */
  lemma HundredthDigits(x: real, k: nat)
    requires HasFractionDigits(x, k)
    ensures HasFractionDigits(Percentage(x), k + 2)
  {
    assert Percentage(x) == (x / 10.0) / 10.0;
    ShiftTenth(x / 10.0, k + 1);
    ShiftTenth(x, k);
  }

  /** What percent writes for a number of at most 18 decimals reads back as its hundredth. */
  lemma HundredthReadsBack(x: real)
    requires HasFractionDigits(x, 18)
    ensures ParseFloat(RenderReal(Percentage(x))) == Num(Percentage(x))
  {
    HundredthDigits(x, 18);
    RenderThenParse(Percentage(x));
  }

  /** Nine fifths of a number has one more fraction digit. */
  lemma NineFifthsDigits(x: real, k: nat)
    requires HasFractionDigits(x, k)
    ensures HasFractionDigits(x * 9.0 / 5.0, k + 1)
  {
    assert x * 9.0 / 5.0 == (x * 18.0) / 10.0;
    ShiftTenth(x * 18.0, k);
    ShiftMul(x, 18.0, k);
    var m := Shift(x, k).Floor;
    assert Shift(x, k) * 18.0 == (m * 18) as real;
  }

  /** Converting to Fahrenheit and back gives the Celsius value again, for up to 5 decimals. */
  lemma TemperatureRoundTrip(x: real)
    requires HasFractionDigits(x, 5)
    ensures FahrenheitToCelsius(CelsiusToFahrenheit(x)) == x
  {
    var y := x * 9.0 / 5.0 + 32.0;
    NineFifthsDigits(x, 5);
    WholeHasFractionDigits(32, 6);
    FractionDigitsAdd(x * 9.0 / 5.0, 32.0, 6);
    RoundToExact(y, 6);
    assert (y - 32.0) * 5.0 / 9.0 == x;
    FractionDigitsMonotone(x, 5, 6);
    RoundToExact(x, 6);
  }

  // ---------------------------------------------------------------------
  // The keyboard
  // ---------------------------------------------------------------------

  /** The '%' key is caught by the operator branch, so it takes a remainder and never a percentage. */
  lemma PercentKeyIsRemainder(st: State)
    ensures KeyDown(st, "%") == HandleOperator(st, Some(Mod))
  {
  }

  /** Each operator key goes to `handleOperator` with the operator it names. */
  lemma OperatorKeyDown(st: State, key: string)
    requires key in {"+", "*", "/", "^", "%"}
    ensures KeyDown(st, key) == HandleOperator(st, Some(KeyOperator(key)))
  {
    assert !(|key| == 1 && IsDigit(key[0]));
  }

  /** Enter and '=' both evaluate, as the '=' button does. */
  lemma EnterEvaluates(st: State, lib: real)
    ensures KeyDown(st, "Enter") == KeyDown(st, "=") == Click(st, EqualsButton, lib) == Evaluate(st)
  {
  }

  // ---------------------------------------------------------------------
  // Key sequences
  // ---------------------------------------------------------------------

  /** The keys that type the digits of `w`. */
  function Keys(w: string): (keys: seq<string>)
    ensures |keys| == |w|
  {
    if w == [] then [] else [[w[0]]] + Keys(w[1..])
  }

  lemma {:induction false} RunAppend(st: State, xs: seq<string>, ys: seq<string>)
    ensures Run(st, xs + ys) == Run(Run(st, xs), ys)
    decreases xs
  {
    if xs != [] {
      assert (xs + ys)[0] == xs[0];
      assert (xs + ys)[1..] == xs[1..] + ys;
      RunAppend(KeyDown(st, xs[0]), xs[1..], ys);
    } else {
      assert xs + ys == ys;
    }
  }

  lemma RunOne(st: State, key: string)
    ensures Run(st, [key]) == KeyDown(st, key)
  {
    assert [key][1..] == [];
  }

  /** Pressing the digit keys of `w` types `w`. */
  lemma {:induction false} RunDigits(st: State, w: string)
    requires AllDigits(w)
    ensures Run(st, Keys(w)) == TypeDigits(st, w)
    decreases |w|
  {
    if w != [] {
      assert Keys(w)[0] == [w[0]] && Keys(w)[1..] == Keys(w[1..]);
      RunDigits(InputDigit(st, w[0]), w[1..]);
    }
  }

  /** A number typed without leading zeros. */
  predicate Typed(w: string)
  {
    |w| >= 1 && AllDigits(w) && (|w| > 1 ==> w[0] != '0')
  }

  /** A typed number reads back as its value, and `String` of that value is the typed text. */
  lemma TypedNumber(w: string)
    requires Typed(w)
    ensures ParseFloat(w) == Num(DigitsValue(w) as real)
    ensures RenderReal(DigitsValue(w) as real) == w
  {
    ParseDigits(w);
    RenderWhole(DigitsValue(w));
    DecimalOfDigits(w);
  }

  /** Typing `w` on a fresh display, then an operator key. */
  lemma TypeOperator(st: State, w: string, key: string, o: Op)
    requires Typed(w) && (st.waiting || st.display == "0")
    requires key in {"+", "*", "/", "^", "%"} && KeyOperator(key) == o
    ensures Run(st, Keys(w) + [key]) == HandleOperator(st.(display := w, waiting := false), Some(o))
  {
    var typed := st.(display := w, waiting := false);
    RunAppend(st, Keys(w), [key]);
    RunDigits(st, w);
    TypingNumber(st, w);
    RunOne(typed, key);
    OperatorKeyDown(typed, key);
  }

  /** Typing `w` on a fresh display, then '='. */
  lemma TypeEquals(st: State, w: string)
    requires Typed(w) && (st.waiting || st.display == "0")
    ensures Run(st, Keys(w) + ["="]) == Evaluate(st.(display := w, waiting := false))
  {
    var typed := st.(display := w, waiting := false);
    RunAppend(st, Keys(w), ["="]);
    RunDigits(st, w);
    TypingNumber(st, w);
    RunOne(typed, "=");
    EnterEvaluates(typed, 0.0);
  }

  /**
   * A state with nothing pending whose display is ready for a new number:
   * the initial state, or any state right after '='.
   */
  predicate Fresh(st: State)
  {
    st.first.Null? && st.operator.None? && (st.waiting || st.display == "0")
  }

  lemma InitialIsFresh()
    ensures Fresh(Initial)
  {
  }

  /** The first operator captures a number typed on a fresh state. */
  lemma FirstOperatorCaptures(st: State, w: string, o: Op)
    requires Fresh(st) && Typed(w) && o != Sub
    ensures Run(st, Keys(w) + [OperatorKey(o)]) == State(w, Num(DigitsValue(w) as real), true, Some(o))
  {
    TypeOperator(st, w, OperatorKey(o), o);
    TypedNumber(w);
  }

  /** The key that names a binary operator other than '-'. */
  function OperatorKey(o: Op): (key: string)
    requires o != Sub
    ensures key in {"+", "*", "/", "^", "%"} && KeyOperator(key) == o
  {
    match o
    case Add => "+"
    case Mul => "*"
    case Div => "/"
    case Pow => "^"
    case Mod => "%"
  }

  /** With a first operand and an operator pending, the next operator shows and keeps the result. */
  lemma OperatorComputes(st: State, next: Option<Op>)
    requires !st.first.Null? && st.operator.Some? && !st.waiting
    ensures var r := Calculate(st.first, ParseFloat(st.display), st.operator);
            HandleOperator(st, next) == State(Render(r), r, true, next)
  {
  }

  /** '=' with a first operand and an operator pending shows the result and forgets it. */
  lemma EqualsComputes(st: State)
    requires !st.first.Null? && st.operator.Some? && !st.waiting
    ensures var r := Calculate(st.first, ParseFloat(st.display), st.operator);
            Evaluate(st) == State(Render(r), Null, false, None)
  {
    OperatorComputes(st, None);
  }

  /** The sum of two whole numbers is exact, and shows as whole numbers do. */
  lemma WholeSum(m: nat, n: nat)
    ensures Calculate(Num(m as real), Num(n as real), Some(Add)) == Num((m + n) as real)
  {
    WholeHasFractionDigits(m, 9);
    WholeHasFractionDigits(n, 9);
    FractionDigitsAdd(m as real, n as real, 9);
    assert m as real + n as real == (m + n) as real;
    RoundToExact((m + n) as real, 9);
  }

  lemma WholeSumShown(m: nat, n: nat)
    ensures Render(Calculate(Num(m as real), Num(n as real), Some(Add))) == IntToDecimal(m + n)
  {
    var sum := Calculate(Num(m as real), Num(n as real), Some(Add));
    WholeSum(m, n);
    ShownWhole(sum, m + n);
  }

  /** The first operand and operator of "a + b =", then the second operand and '='. */
  lemma SumSteps(st: State, a: string, b: string)
    requires Fresh(st) && Typed(a) && Typed(b)
    ensures Run(st, Keys(a) + ["+"] + Keys(b) + ["="])
            == State(Render(Calculate(Num(DigitsValue(a) as real), Num(DigitsValue(b) as real), Some(Add))), Null, false, None)
  {
    assert Keys(a) + ["+"] + Keys(b) + ["="] == (Keys(a) + ["+"]) + (Keys(b) + ["="]);
    RunAppend(st, Keys(a) + ["+"], Keys(b) + ["="]);
    FirstOperatorCaptures(st, a, Add);
    SecondOperandEquals(State(a, Num(DigitsValue(a) as real), true, Some(Add)), b);
  }

  /** A second operand typed after an operator, then '=', shows the result and leaves nothing pending. */
  lemma SecondOperandEquals(st: State, b: string)
    requires Typed(b) && st.waiting && !st.first.Null? && st.operator.Some?
    ensures Run(st, Keys(b) + ["="]) == State(Render(Calculate(st.first, Num(DigitsValue(b) as real), st.operator)), Null, false, None)
  {
    TypeEquals(st, b);
    TypedNumber(b);
    EqualsComputes(st.(display := b, waiting := false));
  }

  /** A second operand typed after an operator, then another operator, shows and keeps the result. */
  lemma SecondOperandOperator(st: State, b: string, key: string, o: Op)
    requires Typed(b) && st.waiting && !st.first.Null? && st.operator.Some?
    requires key in {"+", "*", "/", "^", "%"} && KeyOperator(key) == o
    ensures var r := Calculate(st.first, Num(DigitsValue(b) as real), st.operator);
            Run(st, Keys(b) + [key]) == State(Render(r), r, true, Some(o))
  {
    TypeOperator(st, b, key, o);
    TypedNumber(b);
    OperatorComputes(st.(display := b, waiting := false), Some(o));
  }

  /** "a + b =" shows the sum with nothing pending. */
  lemma SumShows(st: State, a: string, b: string)
    requires Fresh(st) && Typed(a) && Typed(b)
    ensures Run(st, Keys(a) + ["+"] + Keys(b) + ["="]) == State(IntToDecimal(DigitsValue(a) + DigitsValue(b)), Null, false, None)
  {
    SumSteps(st, a, b);
    WholeSumShown(DigitsValue(a), DigitsValue(b));
  }

  /** After '=' the display is open to typing: a digit is appended to the result, not typed over it. */
  lemma DigitAfterEqualsAppends(st: State, d: char)
    requires IsDigit(d)
    ensures var st' := Evaluate(st);
            st'.display != "0" ==> KeyDown(st', [d]).display == st'.display + [d]
  {
    EvaluateResets(st);
  }

  /** "a + b *" computes the sum and keeps it as the first operand of the product. */
  lemma SumThenTimes(st: State, a: string, b: string)
    requires Fresh(st) && Typed(a) && Typed(b)
    ensures var r := Calculate(Num(DigitsValue(a) as real), Num(DigitsValue(b) as real), Some(Add));
            Run(st, Keys(a) + ["+"] + Keys(b) + ["*"]) == State(Render(r), r, true, Some(Mul))
  {
    assert Keys(a) + ["+"] + Keys(b) + ["*"] == (Keys(a) + ["+"]) + (Keys(b) + ["*"]);
    RunAppend(st, Keys(a) + ["+"], Keys(b) + ["*"]);
    FirstOperatorCaptures(st, a, Add);
    SecondOperandOperator(State(a, Num(DigitsValue(a) as real), true, Some(Add)), b, "*", Mul);
  }

  /**
   * "a + b * c =" works left to right, without operator precedence: the sum
   * a + b is the first operand of the product with c.
   */
  lemma ChainsLeftToRight(st: State, a: string, b: string, c: string)
    requires Fresh(st) && Typed(a) && Typed(b) && Typed(c)
    ensures var sum := Calculate(Num(DigitsValue(a) as real), Num(DigitsValue(b) as real), Some(Add));
            Run(st, Keys(a) + ["+"] + Keys(b) + ["*"] + Keys(c) + ["="])
            == State(Render(Calculate(sum, Num(DigitsValue(c) as real), Some(Mul))), Null, false, None)
  {
    var sum := Calculate(Num(DigitsValue(a) as real), Num(DigitsValue(b) as real), Some(Add));
    assert Keys(a) + ["+"] + Keys(b) + ["*"] + Keys(c) + ["="] == (Keys(a) + ["+"] + Keys(b) + ["*"]) + (Keys(c) + ["="]);
    RunAppend(st, Keys(a) + ["+"] + Keys(b) + ["*"], Keys(c) + ["="]);
    SumThenTimes(st, a, b);
    SecondOperandEquals(State(Render(sum), sum, true, Some(Mul)), c);
  }

  /** For whole numbers, the chain "m + n * p =" shows (m + n) * p. */
  lemma WholeChainShown(m: nat, n: nat, p: nat)
    ensures Render(Calculate(Calculate(Num(m as real), Num(n as real), Some(Add)), Num(p as real), Some(Mul)))
            == IntToDecimal((m + n) * p)
  {
    var sum := Calculate(Num(m as real), Num(n as real), Some(Add));
    WholeSum(m, n);
    var product := Calculate(sum, Num(p as real), Some(Mul));
    CalculateExactProduct(m + n, p);
    ShownWhole(product, (m + n) * p);
  }

  /** A whole result shows as its decimal digits. */
  lemma ShownWhole(v: Value, q: int)
    requires v == Num(q as real)
    ensures Render(v) == IntToDecimal(q)
  {
    assert Render(v) == RenderReal(q as real);
    RenderWhole(q);
  }

  /** "a / z =" with z a typed zero shows "Error". */
  lemma DivisionByZeroShowsError(st: State, a: string, z: string)
    requires Fresh(st) && Typed(a) && Typed(z) && DigitsValue(z) == 0
    ensures Run(st, Keys(a) + ["/"] + Keys(z) + ["="]).display == "Error"
  {
    var s2 := State(a, Num(DigitsValue(a) as real), true, Some(Div));
    var s3 := s2.(display := z, waiting := false);
    assert Keys(a) + ["/"] + Keys(z) + ["="] == (Keys(a) + ["/"]) + (Keys(z) + ["="]);
    RunAppend(st, Keys(a) + ["/"], Keys(z) + ["="]);
    FirstOperatorCaptures(st, a, Div);
    TypeEquals(s2, z);
    TypedNumber(z);
    assert ParseFloat(s3.display) == Num(0.0);
    EqualsComputes(s3);
  }

  /** "a + - =": the '-' starts a negative number, "-" reads as NaN, and a + NaN shows "NaN". */
  lemma LoneMinusGivesNaN(st: State, a: string)
    requires Fresh(st) && Typed(a)
    ensures Run(st, Keys(a) + ["+", "-", "="]).display == "NaN"
  {
    var s2 := State(a, Num(DigitsValue(a) as real), true, Some(Add));
    var s3 := State("-", Num(DigitsValue(a) as real), false, Some(Add));
    assert Keys(a) + ["+", "-", "="] == (Keys(a) + ["+"]) + ["-", "="];
    RunAppend(st, Keys(a) + ["+"], ["-", "="]);
    FirstOperatorCaptures(st, a, Add);
    assert ["-", "="][0] == "-" && ["-", "="][1..] == ["="];
    assert KeyDown(s2, "-") == s3;
    assert Run(s2, ["-", "="]) == Run(s3, ["="]);
    RunOne(s3, "=");
    assert ParseFloat("-") == NaN by {
      assert "-"[1..] == "";
    }
    EqualsComputes(s3);
  }

  /** A division by zero, then '+': the first operand becomes the string "Error". */
  lemma ZeroDivisorThenPlus(st: State, a: string, z: string)
    requires Fresh(st) && Typed(a) && Typed(z) && DigitsValue(z) == 0
    ensures Run(st, Keys(a) + ["/"] + Keys(z) + ["+"]) == State("Error", Text("Error"), true, Some(Add))
  {
    var s2 := State(a, Num(DigitsValue(a) as real), true, Some(Div));
    assert Keys(a) + ["/"] + Keys(z) + ["+"] == (Keys(a) + ["/"]) + (Keys(z) + ["+"]);
    RunAppend(st, Keys(a) + ["/"], Keys(z) + ["+"]);
    FirstOperatorCaptures(st, a, Div);
    SecondOperandOperator(s2, z, "+", Add);
  }

  /** With a string first operand, a number typed then '+' is concatenated onto it. */
  lemma TextThenPlus(t: string, b: string)
    requires Typed(b)
    ensures Run(State(t, Text(t), true, Some(Add)), Keys(b) + ["+"]) == State(t + b, Text(t + b), true, Some(Add))
  {
    SecondOperandOperator(State(t, Text(t), true, Some(Add)), b, "+", Add);
    TypedNumber(b);
  }

  /**
   * After a division by zero the first operand is the string "Error", and
   * '+' concatenates the next operands onto it: "a / z + b + c +", with z a
   * typed zero, shows "Error" followed by b and c.
   */
  lemma ErrorConcatenates(st: State, a: string, z: string, b: string, c: string)
    requires Fresh(st) && Typed(a) && Typed(z) && DigitsValue(z) == 0 && Typed(b) && Typed(c)
    ensures Run(st, Keys(a) + ["/"] + Keys(z) + ["+"] + Keys(b) + ["+"] + Keys(c) + ["+"]).display
            == "Error" + b + c
  {
    var k1 := Keys(a) + ["/"] + Keys(z) + ["+"];
    var k2 := Keys(b) + ["+"];
    var k3 := Keys(c) + ["+"];
    assert Keys(a) + ["/"] + Keys(z) + ["+"] + Keys(b) + ["+"] + Keys(c) + ["+"] == (k1 + k2) + k3;
    assert k1 + k2 == Keys(a) + ["/"] + Keys(z) + ["+"] + Keys(b) + ["+"];
    RunAppend(st, k1 + k2, k3);
    RunAppend(st, k1, k2);
    ZeroDivisorThenPlus(st, a, z);
    TextThenPlus("Error", b);
    TextThenPlus("Error" + b, c);
  }
}
