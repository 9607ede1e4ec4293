/**
 * The calculator's input and operator state machine, one pure transition
 * per handler of calculadora/script.js. A `State` is the four module
 * variables the handlers share; the `Engine` class in `Calculator` keeps
 * them as fields and is proved to follow these transitions.
 */
module CalculatorSteps {
  import opened Wrappers
  import opened Strings
  import opened JsNumbers

  /** The binary operators `handleOperator` accepts ('+', '-', '*', '^', '%', '/'). */
  datatype Op = Add | Sub | Mul | Pow | Mod | Div

  /** `displayValue`, `firstOperand`, `waitingForSecondOperand` and `operator`. */
  datatype State = State(display: string, first: Value, waiting: bool, operator: Option<Op>)

  /** The state the script starts in, and the one `clearAll` returns to. */
  const Initial: State := State("0", Null, false, None)

  // ---------------------------------------------------------------------
  // calculate
  // ---------------------------------------------------------------------

  /** Rounds a numeric result to 9 decimals; strings and NaN pass through. */
  function Tidy(v: Value): Value
  {
    if v.Num? then Num(RoundTo(v.x, 9)) else v
  }

  /**
   * `calculate(a, b, op)`: "Error" for a '%' or '/' by zero, `b` itself
   * without an operator, otherwise the JavaScript result rounded to 9
   * decimals.
   */
  function Calculate(a: Value, b: Number, op: Option<Op>): Value
  {
    match op
    case None => b
    case Some(o) =>
      if (o == Mod || o == Div) && b == Num(0.0) then Text("Error")
      else
        Tidy(match o
             case Add => Plus(a, b)
             case Sub => Minus(a, b)
             case Mul => Times(a, b)
             case Pow => Power(a, b)
             case Mod => Remainder(a, b)
             case Div => Quotient(a, b))
  }

  // ---------------------------------------------------------------------
  // Editing the display
  // ---------------------------------------------------------------------

  /** `inputDigit(d)`. */
  function InputDigit(st: State, d: char): State
    requires IsDigit(d)
  {
    if st.waiting then st.(display := [d], waiting := false)
    else st.(display := if st.display == "0" then [d] else st.display + [d])
  }

  /** `inputDot()`. */
  function InputDot(st: State): State
  {
    if st.waiting then st.(display := "0.", waiting := false)
    else if '.' !in st.display then st.(display := st.display + ".")
    else st
  }

  /** `clearAll()`. */
  function ClearAll(st: State): State
  {
    Initial
  }

  /** The display after `toggleSign()`. */
  function Toggled(d: string): string
  {
    if d == "0" then d
    else if d != [] && d[0] == '-' then d[1..]
    else "-" + d
  }

  /** `toggleSign()`. */
  function ToggleSign(st: State): State
  {
    st.(display := Toggled(st.display))
  }

  /** `deleteDigit()`. */
  function DeleteDigit(st: State): State
  {
    var d := st.display;
    if st.waiting then st
    else if |d| == 1 || (|d| == 2 && d[0] == '-') then st.(display := "0")
    else if d == [] then st
    else st.(display := d[..|d| - 1])
  }

  /** x per cent. */
  function Percentage(x: real): real
  {
    x / 100.0
  }

  /** `percent()`: the display divided by 100, unless it does not parse. */
  function Percent(st: State): State
  {
    var v := ParseFloat(st.display);
    if v.NaN? then st else st.(display := RenderReal(Percentage(v.x)))
  }

  // ---------------------------------------------------------------------
  // Unary functions and factorial
  // ---------------------------------------------------------------------

  /** The one-operand buttons of `applyUnary`. */
  datatype Unary = Sqrt | Ln | Log | Sin | Cos | Tan | Sq | Cube | Inv | Exp | Pi | E | Fact

  /** n!, with 0! = 1! = 1. */
  function FactorialOf(n: nat): (r: nat)
    ensures r >= 1
  {
    if n <= 1 then 1 else n * FactorialOf(n - 1)
  }

  /** The operands `applyUnary` answers with "Error". */
  predicate OutOfDomain(u: Unary, x: real)
  {
    match u
    case Sqrt => x < 0.0
    case Ln => x <= 0.0
    case Log => x <= 0.0
    case Inv => x == 0.0
    case Fact => x < 0.0 || !IsIntegral(x)
    case _ => false
  }

  /**
   * The value `applyUnary` computes for an operand in its domain. Square,
   * cube, reciprocal and factorial are exact; `lib` is what the
   * transcendental function (or the constant) of the Math library returned.
   */
  function UnaryValue(u: Unary, x: real, lib: real): real
    requires !OutOfDomain(u, x)
  {
    match u
    case Sq => x * x
    case Cube => x * x * x
    case Inv => 1.0 / x
    case Fact => FactorialOf(x.Floor) as real
    case _ => lib
  }

  /** `applyUnary(u)`: a no-op on a display that does not parse, "Error" outside the domain. */
  function ApplyUnary(st: State, u: Unary, lib: real): State
  {
    var v := ParseFloat(st.display);
    if v.NaN? then st
    else if OutOfDomain(u, v.x) then st.(display := "Error")
    else st.(display := RenderReal(RoundTo(UnaryValue(u, v.x, lib), 9)))
  }

  // ---------------------------------------------------------------------
  // Operators and '='
  // ---------------------------------------------------------------------

  /**
   * `handleOperator(next)`: with an operator pending and no second operand
   * typed yet, only the operator changes; otherwise the display becomes the
   * first operand (when there is none and it parses) or is combined with
   * it; then the machine waits for a second operand of `next`.
   */
  function HandleOperator(st: State, next: Option<Op>): State
  {
    var input := ParseFloat(st.display);
    if st.operator.Some? && st.waiting then st.(operator := next)
    else
      var st' :=
        if st.first.Null? && !input.NaN? then st.(first := input)
        else if st.operator.Some? then
          var r := Calculate(st.first, input, st.operator);
          st.(display := Render(r), first := r)
        else st;
      st'.(waiting := true, operator := next)
  }

  /** '=' and Enter: `handleOperator(null)`, then nothing is pending. */
  function Evaluate(st: State): State
  {
    HandleOperator(st, None).(operator := None, waiting := false, first := Null)
  }

  /** The '-' button and key: a lone "0" or a wait starts a negative number, anything else subtracts. */
  function MinusKey(st: State): State
  {
    if st.display == "0" || st.waiting then st.(display := "-", waiting := false)
    else HandleOperator(st, Some(Sub))
  }

  // ---------------------------------------------------------------------
  // Temperature conversion
  // ---------------------------------------------------------------------

  /** Celsius to Fahrenheit, rounded to 6 decimals as `formatNumber` does. */
  function CelsiusToFahrenheit(x: real): real
  {
    RoundTo(x * 9.0 / 5.0 + 32.0, 6)
  }

  /** Fahrenheit to Celsius, rounded to 6 decimals as `formatNumber` does. */
  function FahrenheitToCelsius(x: real): real
  {
    RoundTo((x - 32.0) * 5.0 / 9.0, 6)
  }

  /** `convertTemp('c2f')` when `toFahrenheit`, `convertTemp('f2c')` otherwise. */
  function ConvertTemp(st: State, toFahrenheit: bool): State
  {
    var v := ParseFloat(st.display);
    if v.NaN? then st
    else st.(display := RenderReal(if toFahrenheit then CelsiusToFahrenheit(v.x) else FahrenheitToCelsius(v.x)))
  }

  // ---------------------------------------------------------------------
  // The keyboard and the buttons
  // ---------------------------------------------------------------------

  /** The operator a key names, for the keys '+', '*', '/', '^' and '%'. */
  function KeyOperator(key: string): Op
    requires key in {"+", "*", "/", "^", "%"}
  {
    if key == "+" then Add
    else if key == "*" then Mul
    else if key == "/" then Div
    else if key == "^" then Pow
    else Mod
  }

  /** `handleKeyDown` for the key named `key`; other keys leave the state alone. */
  function KeyDown(st: State, key: string): State
  {
    if |key| == 1 && IsDigit(key[0]) then InputDigit(st, key[0])
    else if key == "." then InputDot(st)
    else if key == "-" then MinusKey(st)
    else if key in {"+", "*", "/", "^", "%"} then HandleOperator(st, Some(KeyOperator(key)))
    else if key == "Enter" || key == "=" then Evaluate(st)
    else if key == "Backspace" then DeleteDigit(st)
    else if key == "Escape" || Lower(key) == "c" then ClearAll(st)
    else if key == "%" then Percent(st)
    else if key == "n" || key == "N" then ToggleSign(st)
    else st
  }

  /** The buttons of the keypad, by their `data-digit` or `data-action`. */
  datatype Button =
    | DigitButton(digit: char) | DotButton
    | ClearButton | SignButton | PercentButton | CelsiusButton | FahrenheitButton | BackspaceButton
    | UnaryButton(u: Unary)
    | EqualsButton | PowButton | ModButton | PlusButton | MinusButton | TimesButton | DivideButton

  /** The click handler on the keypad; `lib` is what a Math library function returned. */
  function Click(st: State, b: Button, lib: real): State
    requires b.DigitButton? ==> IsDigit(b.digit)
  {
    match b
    case DigitButton(d) => InputDigit(st, d)
    case DotButton => InputDot(st)
    case ClearButton => ClearAll(st)
    case SignButton => ToggleSign(st)
    case PercentButton => Percent(st)
    case CelsiusButton => ConvertTemp(st, true)
    case FahrenheitButton => ConvertTemp(st, false)
    case BackspaceButton => DeleteDigit(st)
    case UnaryButton(u) => ApplyUnary(st, u, lib)
    case EqualsButton => Evaluate(st)
    case PowButton => HandleOperator(st, Some(Pow))
    case ModButton => HandleOperator(st, Some(Mod))
    case PlusButton => HandleOperator(st, Some(Add))
    case MinusButton => MinusKey(st)
    case TimesButton => HandleOperator(st, Some(Mul))
    case DivideButton => HandleOperator(st, Some(Div))
  }

  /** The state after the keys `keys`, pressed in order. */
  function Run(st: State, keys: seq<string>): State
    decreases keys
  {
    if keys == [] then st else Run(KeyDown(st, keys[0]), keys[1..])
  }
}
