/**
 * The calculator page of calculadora/script.js as the script runs it: the
 * module variables become the fields of an `Engine`, and every handler is a
 * method that updates them in place. Each method is proved to perform the
 * transition of the same name in `CalculatorSteps`, so everything proved
 * there about the transitions holds of the engine.
 */
module Calculator {
  import opened Wrappers
  import opened Strings
  import opened JsNumbers
  import opened CalculatorSteps

  /** `factorial(n)`: a running product over 2..n. */
  method Factorial(n: nat) returns (r: nat)
    ensures r == FactorialOf(n)
  {
    if n == 0 || n == 1 {
      return 1;
    }
    r := 1;
    var i := 2;
    while i <= n
      invariant 2 <= i <= n + 1
      invariant r == FactorialOf(i - 1)
    {
      r := r * i;
      i := i + 1;
    }
  }

  class Engine {
    var displayValue: string
    var firstOperand: Value
    var waitingForSecondOperand: bool
    var operator: Option<Op>
    /** Declared by the script and never read or written by any handler. */
    var memoryValue: real

    /** The four variables the handlers share, as a transition state. */
    function Current(): State
      reads this
    {
      State(displayValue, firstOperand, waitingForSecondOperand, operator)
    }

    /** The values the script starts with. */
    constructor ()
      ensures Current() == Initial && memoryValue == 0.0
    {
      displayValue := "0";
      firstOperand := Null;
      waitingForSecondOperand := false;
      operator := None;
      memoryValue := 0.0;
    }

    method InputDigit(d: char)
      requires IsDigit(d)
      modifies this
      ensures Current() == CalculatorSteps.InputDigit(old(Current()), d)
      ensures memoryValue == old(memoryValue)
    {
      if waitingForSecondOperand {
        displayValue := [d];
        waitingForSecondOperand := false;
      } else {
        displayValue := if displayValue == "0" then [d] else displayValue + [d];
      }
    }

    method InputDot()
      modifies this
      ensures Current() == CalculatorSteps.InputDot(old(Current()))
      ensures memoryValue == old(memoryValue)
    {
      if waitingForSecondOperand {
        displayValue := "0.";
        waitingForSecondOperand := false;
        return;
      }
      if '.' !in displayValue {
        displayValue := displayValue + ".";
      }
    }

    method ClearAll()
      modifies this
      ensures Current() == CalculatorSteps.ClearAll(old(Current()))
      ensures memoryValue == old(memoryValue)
    {
      displayValue := "0";
      firstOperand := Null;
      waitingForSecondOperand := false;
      operator := None;
    }

    method ToggleSign()
      modifies this
      ensures Current() == CalculatorSteps.ToggleSign(old(Current()))
      ensures memoryValue == old(memoryValue)
    {
      if displayValue == "0" {
        return;
      }
      displayValue := if |displayValue| > 0 && displayValue[0] == '-' then displayValue[1..] else "-" + displayValue;
    }

    method Percent()
      modifies this
      ensures Current() == CalculatorSteps.Percent(old(Current()))
      ensures memoryValue == old(memoryValue)
    {
      var value := ParseFloat(displayValue);
      if value.NaN? {
        return;
      }
      displayValue := RenderReal(Percentage(value.x));
    }

    /** `applyUnary`; `lib` is what the Math library returned for a transcendental function or constant. */
    method ApplyUnary(u: Unary, lib: real)
      modifies this
      ensures Current() == CalculatorSteps.ApplyUnary(old(Current()), u, lib)
      ensures memoryValue == old(memoryValue)
    {
      var v := ParseFloat(displayValue);
      if v.NaN? {
        return;
      }
      var x := v.x;
      if OutOfDomain(u, x) {
        displayValue := "Error";
        return;
      }
      var res: real;
      if u == Fact {
        var f := Factorial(x.Floor);
        res := f as real;
      } else {
        res := UnaryValue(u, x, lib);
      }
      ghost var st := Current();
      assert CalculatorSteps.ApplyUnary(st, u, lib) == st.(display := RenderReal(RoundTo(res, 9)));
      displayValue := RenderReal(RoundTo(res, 9));
    }

    method HandleOperator(nextOperator: Option<Op>)
      modifies this
      ensures Current() == CalculatorSteps.HandleOperator(old(Current()), nextOperator)
      ensures memoryValue == old(memoryValue)
    {
      var inputValue := ParseFloat(displayValue);
      if operator.Some? && waitingForSecondOperand {
        operator := nextOperator;
        return;
      }
      if firstOperand.Null? && !inputValue.NaN? {
        firstOperand := inputValue;
      } else if operator.Some? {
        var result := Calculate(firstOperand, inputValue, operator);
        displayValue := Render(result);
        firstOperand := result;
      }
      waitingForSecondOperand := true;
      operator := nextOperator;
    }

    /** The '=' button and the Enter and '=' keys. */
    method Equals()
      modifies this
      ensures Current() == CalculatorSteps.Evaluate(old(Current()))
      ensures memoryValue == old(memoryValue)
    {
      HandleOperator(None);
      operator := None;
      waitingForSecondOperand := false;
      firstOperand := Null;
    }

    /** The '-' button and key. */
    method Minus()
      modifies this
      ensures Current() == CalculatorSteps.MinusKey(old(Current()))
      ensures memoryValue == old(memoryValue)
    {
      if displayValue == "0" || waitingForSecondOperand {
        displayValue := "-";
        waitingForSecondOperand := false;
      } else {
        HandleOperator(Some(Sub));
      }
    }

    method DeleteDigit()
      modifies this
      ensures Current() == CalculatorSteps.DeleteDigit(old(Current()))
      ensures memoryValue == old(memoryValue)
    {
      if waitingForSecondOperand {
        return;
      }
      if |displayValue| == 1 || (|displayValue| == 2 && displayValue[0] == '-') {
        displayValue := "0";
      } else if |displayValue| > 0 {
        displayValue := displayValue[..|displayValue| - 1];
      }
    }

    /** `convertTemp('c2f')` when `toFahrenheit`, `convertTemp('f2c')` otherwise. */
    method ConvertTemp(toFahrenheit: bool)
      modifies this
      ensures Current() == CalculatorSteps.ConvertTemp(old(Current()), toFahrenheit)
      ensures memoryValue == old(memoryValue)
    {
      var x := ParseFloat(displayValue);
      if x.NaN? {
        return;
      }
      var res := if toFahrenheit then CelsiusToFahrenheit(x.x) else FahrenheitToCelsius(x.x);
      displayValue := RenderReal(res);
    }

    /** `handleKeyDown` for the key named `key`. */
    method KeyDown(key: string)
      modifies this
      ensures Current() == CalculatorSteps.KeyDown(old(Current()), key)
      ensures memoryValue == old(memoryValue)
    {
      if |key| == 1 && IsDigit(key[0]) {
        InputDigit(key[0]);
      } else if key == "." {
        InputDot();
      } else if key == "-" {
        Minus();
      } else if key in {"+", "*", "/", "^", "%"} {
        HandleOperator(Some(KeyOperator(key)));
      } else if key == "Enter" || key == "=" {
        Equals();
      } else if key == "Backspace" {
        DeleteDigit();
      } else if key == "Escape" || Lower(key) == "c" {
        ClearAll();
      } else if key == "%" {
        // The percent branch of the script: '%' was taken as an operator above.
        assert false;
      } else if key == "n" || key == "N" {
        ToggleSign();
      }
    }

    /** The click handler on the keypad. */
    method Click(b: Button, lib: real)
      requires b.DigitButton? ==> IsDigit(b.digit)
      modifies this
      ensures Current() == CalculatorSteps.Click(old(Current()), b, lib)
      ensures memoryValue == old(memoryValue)
    {
      match b
      case DigitButton(d) => InputDigit(d);
      case DotButton => InputDot();
      case ClearButton => ClearAll();
      case SignButton => ToggleSign();
      case PercentButton => Percent();
      case CelsiusButton => ConvertTemp(true);
      case FahrenheitButton => ConvertTemp(false);
      case BackspaceButton => DeleteDigit();
      case UnaryButton(u) => ApplyUnary(u, lib);
      case EqualsButton => Equals();
      case PowButton => HandleOperator(Some(Pow));
      case ModButton => HandleOperator(Some(Mod));
      case PlusButton => HandleOperator(Some(Add));
      case MinusButton => Minus();
      case TimesButton => HandleOperator(Some(Mul));
      case DivideButton => HandleOperator(Some(Div));
    }
  }
}
