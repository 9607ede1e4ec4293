# Teaching scripts: calculator, alarm clock, palindromes, formulas, colours, two API browsers

This project models the logic of seven small browser scripts. Every fact is proved:

- **Scientific calculator** (`calculadora/script.js`). The display string, the pending operator and the first operand change step by step as buttons and keys arrive. The model has pure transition functions (module `CalculatorSteps`) and a `Calculator.Engine` class whose fields are the script's globals; each method is proved to follow its transition. Module `JsNumbers` gives the JavaScript side: `parseFloat`, `String(x)`, `Math.round` to 9 or 6 decimals, and `+ - * /`, `%` and `Math.pow` with whole exponents on numbers, NaN, `null` and the `'Error'` string. The properties are in `CalculatorProperties`. They cover:
  - whole key sequences ("a + b =", "a + b * c =");
  - the error paths (division by zero, the "Error" text concatenating under `+`, a lone minus giving NaN);
  - the invariants every key keeps.
- **Alarm clock** (`reloj-alarma/script.js`). Formatting with a leading zero, the greeting by hour, and the 12-hour conversion with its inverse. It also covers the "is the alarm in the future" string comparison, proved equivalent to comparing minutes since midnight, and the firing rule. Class `Alarm.AlarmClock` holds `alarmaConfig` and `modo24h`.
- **Palindromes** (`FUNCIONES-DIA-3/Palindromo.js`). The cleaning pipeline (lower case, accent stripping, keeping `[a-z0-9]`) and the comparison with the reverse. The form's blank-input guard is modelled too.
- **Areas and the power rule** (`FUNCIONES-DIA-3/Areas.js`). Areas, the cylinder volume, the derivative and integral of `c·x^n`, and the text the script builds. The text is proved to read back to the computed term whenever its coefficient and exponent have at most 20 decimals.
- **Colour generator** (`generador-colores/script.js`). `#RRGGBB` formatting of three components and the contrast choice. The choice is proved to parse the formatted colour back and to pick black exactly when the weighted sum of the components passes the luminance threshold.
- **Rick and Morty browser** (`API-RICK-MORTY/api.js`). The translation tables, the character id taken from a URL, the request URL, the five-page pagination window and the page, search and filter state. Class `RickMorty.Browser` holds that state.
- **Book search** (`MINIPROYECTO/app.js`). Text truncation, the cover-image selection with its HTTPS upgrade and Google Books edits, the theme chosen from the query, and the blank-query guard.

Shared JavaScript string operations are modelled once, in module `Strings`: `trim`, `toLowerCase`, `indexOf`/`includes`, `replace` of the first occurrence, `split`/`join`, `padStart`, `String(n)`, and `<` on strings. The `Option` datatype lives in module `Wrappers`.

Numbers are exact reals and integers, not IEEE doubles. Wherever the scripts round, the model rounds too, with the same number of decimals.

## Model

| member | source | states |
|---|---|---|
| Strings.NatToDecimal | reloj-alarma/script.js:62-64 | `String(n)` of a natural number is a non-empty digit string denoting n, without a leading zero unless n = 0, and one character long exactly when n < 10 |
| Strings.NatToDecimalLength | reloj-alarma/script.js:62-64 | a number below 10^k is written with at most k digits |
| Strings.PadZeros | generador-colores/script.js:17 | `padStart` reaches the requested width, and leaves a text at least that wide as it is |
| Strings.PadZerosValue | generador-colores/script.js:17 | padding digits with zeros keeps the value they denote |
| Strings.DigitsValueAppend | reloj-alarma/script.js:62-64 | the value of concatenated digit strings is the first's value shifted by the second's length plus the second's value |
| Strings.CountAppend | calculadora/script.js:22-31 | counting a character (the decimal point) over a concatenation adds the two counts |
| Strings.LowerCharIdempotent | FUNCIONES-DIA-3/Palindromo.js:5 | `toLowerCase` of a lower-case character changes nothing |
| Strings.Reverse | FUNCIONES-DIA-3/Palindromo.js:11 | `split("").reverse().join("")` has the same length and puts character i at position n-1-i |
| Strings.TrimEmptyIffBlank | FUNCIONES-DIA-3/Palindromo.js:21-27 | `trim()` yields "" exactly when the text is all whitespace, counting the Unicode space separators `trim` removes |
| Strings.IndexOf | MINIPROYECTO/app.js:77-83 | the position found is an occurrence and no earlier position is one; `None` only when there is no occurrence |
| Strings.IncludesIffIndexOf | MINIPROYECTO/app.js:80 | `includes` holds exactly when `indexOf` finds a position |
| Strings.ReplaceFirst | MINIPROYECTO/app.js:77-83 | `replace` with a string pattern rewrites the first occurrence only, and changes nothing without one |
| Strings.Split | API-RICK-MORTY/api.js:85 | `split('/')` yields at least one piece and no piece contains the separator |
| Strings.JoinSplit | API-RICK-MORTY/api.js:85 | joining the pieces of `split` with the separator gives back the original text |
| Strings.StrLessIrreflexive | reloj-alarma/script.js:162-171 | no time string is later than itself |
| JsNumbers.RenderWhole | calculadora/script.js:104 | `String(x)` of a whole number is its decimal integer text |
| JsNumbers.RenderRealOneDot | calculadora/script.js:104 | `String(x)` contains at most one decimal point |
| JsNumbers.RenderRealStart | calculadora/script.js:104 | `String(x)` is never empty and starts with a digit or a minus sign |
| JsNumbers.RenderRealChars | calculadora/script.js:104 | `String(x)` is made only of digits, '-' and '.' |
| JsNumbers.ParseSigned | calculadora/script.js:93 | `parseFloat` of a signed digit text is the negation of the unsigned reading |
| JsNumbers.ParseDecimal | calculadora/script.js:93 | `parseFloat` of "[-]whole.fraction" is the decimal value the digits denote |
| JsNumbers.ParseDigits | calculadora/script.js:93 | `parseFloat` of a digit string is the natural number the digits denote |
| JsNumbers.ParseNumeral | calculadora/script.js:93 | `parseFloat` reads back every numeral `String(x)` can write |
| JsNumbers.RenderThenParse | calculadora/script.js:93-104 | `parseFloat(String(x)) == x` for every x with at most 20 decimals: the display round-trips the stored result |
| JsNumbers.RoundToError | calculadora/script.js:127-130 | rounding to k decimals moves the value by more than -½·10^-k and at most ½·10^-k |
| JsNumbers.RoundToExact | calculadora/script.js:127-130 | rounding to k decimals leaves a value that already has at most k decimals unchanged |
| JsNumbers.FractionDigitsAdd | calculadora/script.js:115-116 | sums and differences of values with at most k decimals have at most k decimals |
| JsNumbers.ParseUnsigned | calculadora/script.js:93 | `parseFloat` of text without a sign is never negative |
| JsNumbers.IntPow | calculadora/script.js:118 | a whole power of a non-zero base is non-zero |
| CalculatorSteps.FactorialOf | calculadora/script.js:85-90 | n! is at least 1 |
| Calculator.Factorial | calculadora/script.js:85-90 | the loop multiplying 2..n returns n! |
| Calculator.Engine.constructor | calculadora/script.js:3-7 | the start state: display "0", no operand, no operator, not waiting, memory 0 |
| Calculator.Engine.InputDigit | calculadora/script.js:13-20 | the digit replaces the display when waiting or when it shows "0", and is appended otherwise |
| Calculator.Engine.InputDot | calculadora/script.js:22-31 | "0." when waiting; a dot is appended only when the display has none |
| Calculator.Engine.ClearAll | calculadora/script.js:33-38 | display "0", operand, operator and waiting flag reset; memory kept |
| Calculator.Engine.ToggleSign | calculadora/script.js:40-43 | a leading '-' is removed, otherwise added; "0" stays "0" |
| Calculator.Engine.Percent | calculadora/script.js:45-49 | a numeric display is divided by 100; a NaN display is left alone |
| Calculator.Engine.ApplyUnary | calculadora/script.js:51-83 | a display that does not parse is left alone; "Error" for the domain errors (negative square root, non-positive logarithm, 1/0, negative or non-integer factorial); otherwise the result rounded to 9 decimals |
| Calculator.Engine.HandleOperator | calculadora/script.js:92-110 | a repeated operator replaces the pending one; the first operand is captured; otherwise the pending operation is computed and shown |
| Calculator.Engine.Equals | calculadora/script.js:193-199 | computes the pending operation, then clears operand and operator |
| Calculator.Engine.Minus | calculadora/script.js:214-225 | '-' starts a negative number when a number is expected, and is subtraction otherwise |
| Calculator.Engine.DeleteDigit | calculadora/script.js:240-248 | does nothing while waiting; otherwise a single character, or '-' and one character, becomes "0", and longer displays lose their last character |
| Calculator.Engine.ConvertTemp | calculadora/script.js:355-367 | °C↔°F of a numeric display, rounded to 6 decimals; a NaN display is left alone |
| Calculator.Engine.KeyDown | calculadora/script.js:250-327 | each keyboard key has the effect of its button |
| Calculator.Engine.Click | calculadora/script.js:136-234 | each button has the effect the click handler gives it |
| CalculatorProperties.TypingAppends | calculadora/script.js:13-20 | typing digits after a non-zero entry appends them to the display |
| CalculatorProperties.TypingNumber | calculadora/script.js:13-20 | typing a number without leading zeros on a fresh display shows exactly that number, which reads back as its value |
| CalculatorProperties.DotIdempotent | calculadora/script.js:22-31 | pressing '.' twice is the same as pressing it once |
| CalculatorProperties.DigitKeepsOneDot | calculadora/script.js:13-20 | typing a digit keeps the display to at most one decimal point |
| CalculatorProperties.DotKeepsOneDot | calculadora/script.js:22-31 | pressing '.' keeps the display to at most one decimal point |
| CalculatorProperties.SignKeepsOneDot | calculadora/script.js:40-43 | toggling the sign keeps at most one decimal point |
| CalculatorProperties.DeleteKeepsOneDot | calculadora/script.js:240-248 | deleting keeps at most one decimal point |
| CalculatorProperties.ToggleTwice | calculadora/script.js:40-43 | toggling the sign twice restores the display exactly when it is not "-0" or "--…" |
| CalculatorProperties.DeleteUndoesDigit | calculadora/script.js:240-248 | backspace after a typed digit restores the previous state |
| CalculatorProperties.DeleteKeepsDisplay | calculadora/script.js:240-248 | backspace never empties a non-empty display (the empty display that '-' then '±' leaves stays empty) |
| CalculatorProperties.CalculateTextIff | calculadora/script.js:112-132 | the result is text exactly when dividing or taking a remainder by 0, or adding to an "Error" text; that text is always an error text |
| CalculatorProperties.CalculateExactSum | calculadora/script.js:115-130 | with at most 9 decimals on each side, the rounding after + and - changes nothing |
| CalculatorProperties.CalculateExactProduct | calculadora/script.js:117-130 | whole products are exact |
| CalculatorProperties.CalculateWithoutOperator | calculadora/script.js:125 | with no operator the second operand is returned |
| CalculatorProperties.OperatorTwiceKeepsLast | calculadora/script.js:95-98 | two operators in a row act as the second alone |
| CalculatorProperties.OperatorCaptures | calculadora/script.js:100-101 | with no first operand, a numeric display becomes the first operand and nothing is computed |
| CalculatorProperties.EvaluateResets | calculadora/script.js:193-199 | after '=' there is no operator, no first operand and no wait |
| CalculatorProperties.HandleOperatorKeepsInvariant | calculadora/script.js:92-110 | an operator keeps the state invariant: waiting implies an operator is pending, no operator implies no first operand, and a text first operand is an error message |
| CalculatorProperties.KeyDownKeepsInvariant | calculadora/script.js:250-327 | every key keeps the invariant |
| CalculatorProperties.ClickKeepsInvariant | calculadora/script.js:136-234 | every button keeps the invariant |
| CalculatorProperties.RunKeepsInvariant | calculadora/script.js:250-327 | every key sequence keeps the invariant |
| CalculatorProperties.OperandShown | calculadora/script.js:102-105 | after an operator, a numeric first operand is what the display reads back as |
| CalculatorProperties.ApplyUnaryErrorIff | calculadora/script.js:51-83 | a scientific function shows "Error" exactly on its domain errors |
| CalculatorProperties.PercentShows | calculadora/script.js:45-49 | '%' shows the hundredth of a numeric display, and leaves a NaN display alone |
| CalculatorProperties.HundredthDigits | calculadora/script.js:45-49 | a hundredth has at most two more decimals than its operand |
| CalculatorProperties.HundredthReadsBack | calculadora/script.js:45-49 | for a display value with at most 18 decimals, the hundredth shown reads back exactly |
| CalculatorProperties.NineFifthsDigits | calculadora/script.js:359-363 | multiplying by 9/5 adds at most one decimal |
| CalculatorProperties.TemperatureRoundTrip | calculadora/script.js:355-367 | °C → °F → °C gives back any temperature with at most 5 decimals |
| CalculatorProperties.PercentKeyIsRemainder | calculadora/script.js:282-286 | the '%' key is the remainder operator, not the percent button |
| CalculatorProperties.EnterEvaluates | calculadora/script.js:289-297 | Enter, the '=' key and the '=' button do the same |
| CalculatorProperties.RunAppend | calculadora/script.js:250-327 | running two key sequences in turn is running their concatenation |
| CalculatorProperties.RunDigits | calculadora/script.js:250-259 | typing digit keys is typing those digits |
| CalculatorProperties.TypedNumber | calculadora/script.js:93 | a typed number reads back as its digits' value and is shown as typed |
| CalculatorProperties.TypeOperator | calculadora/script.js:282-286 | a number followed by an operator key is the operator applied to the typed display |
| CalculatorProperties.TypeEquals | calculadora/script.js:289-297 | a number followed by '=' evaluates the typed display |
| CalculatorProperties.InitialIsFresh | calculadora/script.js:3-7 | the start state expects a first operand |
| CalculatorProperties.FirstOperatorCaptures | calculadora/script.js:92-110 | "a op" from a fresh state stores a as the first operand and waits |
| CalculatorProperties.OperatorKey | calculadora/script.js:282-286 | every operator except '-' has a key that selects it |
| CalculatorProperties.OperatorComputes | calculadora/script.js:102-105 | with a pending operator and a second operand, an operator shows and stores the result |
| CalculatorProperties.EqualsComputes | calculadora/script.js:289-297 | with a pending operator and a second operand, '=' shows the result and resets |
| CalculatorProperties.WholeSum | calculadora/script.js:115 | whole sums are exact |
| CalculatorProperties.WholeSumShown | calculadora/script.js:104 | a whole sum is shown as the decimal text of m + n |
| CalculatorProperties.SumSteps | calculadora/script.js:92-132 | "a + b =" ends showing the computed sum with operator and operand cleared |
| CalculatorProperties.SecondOperandEquals | calculadora/script.js:289-297 | a second operand then '=' computes with the stored operand |
| CalculatorProperties.SecondOperandOperator | calculadora/script.js:102-109 | a second operand then an operator computes, shows and keeps the result as the new first operand |
| CalculatorProperties.SumShows | calculadora/script.js:92-132 | "a + b =" shows the decimal digits of a + b |
| CalculatorProperties.DigitAfterEqualsAppends | calculadora/script.js:13-20 | a digit typed after '=' is appended to the result, since '=' does not set the waiting flag |
| CalculatorProperties.SumThenTimes | calculadora/script.js:102-109 | "a + b *" shows a + b and keeps it as the operand of '*' |
| CalculatorProperties.ChainsLeftToRight | calculadora/script.js:92-132 | "a + b * c =" computes (a + b) · c, left to right without precedence |
| CalculatorProperties.WholeChainShown | calculadora/script.js:104 | the chained whole result is shown as the decimal text of (m + n) · p |
| CalculatorProperties.DivisionByZeroShowsError | calculadora/script.js:122-123 | "a / 0 =" shows "Error" |
| CalculatorProperties.LoneMinusGivesNaN | calculadora/script.js:214-225 | "a + - =" shows "NaN", because a lone "-" reads as NaN |
| CalculatorProperties.ZeroDivisorThenPlus | calculadora/script.js:102-105 | "a / 0 +" stores the text "Error" as the first operand |
| CalculatorProperties.TextThenPlus | calculadora/script.js:115 | adding to a text operand concatenates the typed digits |
| CalculatorProperties.ErrorConcatenates | calculadora/script.js:102-115 | "a / 0 + b + c +" shows "Error" followed by b and c |
| Alarm.FormatearNumeroTwoDigits | reloj-alarma/script.js:62-64 | every number below 100 is written with two digits denoting it, with a leading zero exactly below 10 |
| Alarm.SaludoByHour | reloj-alarma/script.js:72-82 | "Buenos días" exactly for hours 5-11, "Buenas tardes" exactly for 12-17, "Buenas noches" otherwise |
| Alarm.ConvertirA12HorasRoundTrip | reloj-alarma/script.js:90-104 | the 12-hour form is in 1..12, is PM exactly from 12 on, and converts back to the same 24-hour hour |
| Alarm.ConvertirA12HorasInjective | reloj-alarma/script.js:90-104 | different hours have different 12-hour forms |
| Alarm.HoraMostradaTwoDigits | reloj-alarma/script.js:130-135 | the hour shown has two digits, the 24-hour hour or its 12-hour form depending on the mode |
| Alarm.StrLessConcat | reloj-alarma/script.js:162-171 | comparing "HH:MM" strings is lexicographic: first the hour part, then the minutes |
| Alarm.TwoDigitOrder | reloj-alarma/script.js:162-171 | for two-digit strings, string order is numeric order |
| Alarm.EsHoraFuturaIff | reloj-alarma/script.js:162-171 | the alarm is in the future exactly when it is later in minutes since midnight than now |
| Alarm.RingingDoesNotRefire | reloj-alarma/script.js:144-153 | an alarm already ringing is not set off again |
| Alarm.FiresOnlyAtItsTime | reloj-alarma/script.js:144-153 | an active, silent alarm goes off exactly at its own hour and minute |
| Alarm.AlarmClock.constructor | reloj-alarma/script.js:6-16 | no alarm, not active, not ringing, 24-hour mode |
| Alarm.AlarmClock.EstablecerAlarma | reloj-alarma/script.js:178-204 | an empty or past time changes nothing; a future time is stored, activated and silent |
| Alarm.AlarmClock.CancelarAlarma | reloj-alarma/script.js:211-225 | the alarm is cleared, inactive and silent; the mode is kept |
| Alarm.AlarmClock.ActivarAlarma | reloj-alarma/script.js:251-266 | the alarm rings; the configuration is kept |
| Alarm.AlarmClock.DetenerAlarma | reloj-alarma/script.js:308-322 | stopping clears the alarm, deactivates it and silences it |
| Alarm.AlarmClock.Tick | reloj-alarma/script.js:144-153 | the clock's tick starts ringing exactly when the firing rule holds |
| Alarm.AlarmClock.ToggleModo | reloj-alarma/script.js:329-337 | the 12/24-hour mode flips and the immediate clock refresh runs the alarm check: the alarm starts ringing exactly when the firing rule holds at that hour and minute; the alarm's time and state are kept |
| Palindrome.StripAccents | FUNCIONES-DIA-3/Palindromo.js:6-7 | accent stripping works character by character and keeps the length |
| Palindrome.KeepAlnumOnly | FUNCIONES-DIA-3/Palindromo.js:8 | the filter leaves only 'a'-'z' and '0'-'9' and never lengthens the text |
| Palindrome.LimpiarOnlyAlnum | FUNCIONES-DIA-3/Palindromo.js:4-8 | the cleaned text consists of 'a'-'z' and '0'-'9' only |
| Palindrome.KeepAlnumAppend | FUNCIONES-DIA-3/Palindromo.js:8 | the filter distributes over concatenation |
| Palindrome.LimpiarAppend | FUNCIONES-DIA-3/Palindromo.js:4-8 | cleaning distributes over concatenation |
| Palindrome.LimpiarOne | FUNCIONES-DIA-3/Palindromo.js:4-8 | one character cleans to its folded form when that is a letter or digit, and to nothing otherwise |
| Palindrome.ReverseEqualIff | FUNCIONES-DIA-3/Palindromo.js:11-14 | a text equals its reverse exactly when each character mirrors the one at the other end |
| Palindrome.EsPalindromoIff | FUNCIONES-DIA-3/Palindromo.js:2-15 | the answer is true exactly when the cleaned text reads the same from both ends |
| Palindrome.CaseInsensitive | FUNCIONES-DIA-3/Palindromo.js:5 | lower-casing the input first does not change the answer |
| Palindrome.IgnoresNonAlnum | FUNCIONES-DIA-3/Palindromo.js:8 | inserting a space or punctuation anywhere does not change the answer |
| Palindrome.NoAlnumIsPalindrome | FUNCIONES-DIA-3/Palindromo.js:2-15 | a text without letters or digits cleans to "" and counts as a palindrome |
| Palindrome.ReverseCleans | FUNCIONES-DIA-3/Palindromo.js:4-11 | cleaning commutes with reversing |
| Palindrome.ReversedInputSameAnswer | FUNCIONES-DIA-3/Palindromo.js:2-15 | a text and its reverse get the same answer |
| Palindrome.ReverseAppend | FUNCIONES-DIA-3/Palindromo.js:11 | reversing a concatenation reverses and swaps the pieces |
| Palindrome.ReverseInvolution | FUNCIONES-DIA-3/Palindromo.js:11 | reversing twice gives the text back |
| Palindrome.VerificarRejectsBlank | FUNCIONES-DIA-3/Palindromo.js:18-38 | the form refuses exactly the blank inputs and checks the trimmed text of every other one |
| Areas.AreaCirculoScales | FUNCIONES-DIA-3/Areas.js:13-15 | the circle's area ignores the radius's sign, scales with its square and is non-negative for π ≥ 0 |
| Areas.AreaRectanguloProperties | FUNCIONES-DIA-3/Areas.js:24-26 | the rectangle's area is symmetric and additive along a side |
| Areas.VolumenCilindroStacks | FUNCIONES-DIA-3/Areas.js:35-38 | the volume is base area times height, and stacking two cylinders adds their volumes |
| Areas.DerivadaOfIntegral | FUNCIONES-DIA-3/Areas.js:59-69 | the derivative of the integral of c·x^n is c·x^n |
| Areas.IntegralOfDerivada | FUNCIONES-DIA-3/Areas.js:59-69 | for n ≠ 0 the integral of the derivative of c·x^n is c·x^n |
| Areas.DocumentedExamples | FUNCIONES-DIA-3/Areas.js:51-57 | the derivative of 3x^2 is written "6x^1" and that of 5x^3 is written "15x^2" |
| Areas.WholeDerivada | FUNCIONES-DIA-3/Areas.js:59-63 | for whole c and n the derivative is written as the digits of c·n, "x^", the digits of n-1 |
| Areas.MarkerAfterNumeral | FUNCIONES-DIA-3/Areas.js:59-63 | after a numeral, the first "x^" is the one right behind it |
| Areas.MarkerAfterCoefficient | FUNCIONES-DIA-3/Areas.js:59-63 | the "x^" of a written term comes right after the coefficient |
| Areas.TermTextoReadsBack | FUNCIONES-DIA-3/Areas.js:59-69 | the text of a term whose coefficient and exponent have at most 20 decimals reads back to the same coefficient and exponent |
| Areas.DerivadaPolinomioReadsBack | FUNCIONES-DIA-3/Areas.js:59-63 | when c·n and n-1 have at most 20 decimals, the text of the derivative names coefficient c·n and exponent n-1 |
| Areas.IntegralPolinomioReadsBack | FUNCIONES-DIA-3/Areas.js:66-69 | the text of the integral ends in " + C"; when c/(n+1) and n+1 have at most 20 decimals, it names coefficient c/(n+1) and exponent n+1 |
| Colors.Upper | generador-colores/script.js:18 | `toUpperCase` works character by character and keeps the length |
| Colors.HexDigitReadsBack | generador-colores/script.js:17 | each hexadecimal digit written reads back as its value |
| Colors.TwoHexDigitsValue | generador-colores/script.js:26-28 | two hexadecimal digits denote 16 times the first plus the second |
| Colors.ComponentDigits | generador-colores/script.js:17 | a component below 256 is written as two lower-case hexadecimal digits denoting it |
| Colors.UpperKeepsHexValue | generador-colores/script.js:18 | upper-casing a hexadecimal digit keeps its value |
| Colors.UpperComponentDigits | generador-colores/script.js:17-18 | an upper-cased component is two upper-case hexadecimal digits denoting it |
| Colors.FormatHexParts | generador-colores/script.js:17-18 | upper-casing the whole colour is upper-casing each component after the '#' |
| Colors.FormatHexShape | generador-colores/script.js:12-19 | a colour is seven characters, '#' then six upper-case hexadecimal digits |
| Colors.PaddingExtremes | generador-colores/script.js:12-19 | (0,0,0) is written "#000000" and (255,255,255) "#FFFFFF" |
| Colors.HexRun | generador-colores/script.js:26-28 | `parseInt` reads the longest run of hexadecimal digits at the front |
| Colors.ParseTwoHex | generador-colores/script.js:26-28 | `parseInt(…, 16)` of two hexadecimal digits is their value |
| Colors.DropHash | generador-colores/script.js:25 | removing the first '#' of "#…" leaves the rest |
| Colors.SubstringPieces | generador-colores/script.js:26-28 | the three `substring` calls cut six characters into their pairs |
| Colors.ParseRgbPieces | generador-colores/script.js:25-28 | reading "#xxyyzz" gives the values of its three pairs |
| Colors.ParseRgbRoundTrip | generador-colores/script.js:12-28 | reading a generated colour gives back its three components |
| Colors.ColorContraste | generador-colores/script.js:23-32 | the contrast colour is always black or white |
| Colors.LuminanceIff | generador-colores/script.js:30-31 | luminance above 0.6 exactly when 2126r + 7152g + 722b > 1530000 |
| Colors.ContrasteIff | generador-colores/script.js:12-32 | a generated colour gets black text exactly when its weighted sum passes the threshold, and white otherwise |
| Colors.ContrasteExtremes | generador-colores/script.js:23-32 | black gets white text and white gets black text |
| Colors.ContrasteMonotone | generador-colores/script.js:23-32 | brightening any component of a colour with black text keeps black text |
| RickMorty.TranslateSpec | API-RICK-MORTY/api.js:63-65 | a known value is translated through its category's table, and anything else comes back unchanged |
| RickMorty.StatusLabelsFinal | API-RICK-MORTY/api.js:36-60 | no status label is itself a status key |
| RickMorty.GenderLabelsFinal | API-RICK-MORTY/api.js:36-60 | no gender label is itself a gender key |
| RickMorty.SpeciesKeys | API-RICK-MORTY/api.js:36-60 | the species table translates exactly the ten species the API reports |
| RickMorty.SpeciesLabelsNotKeys | API-RICK-MORTY/api.js:36-60 | the Spanish species labels that differ from their keys are not keys |
| RickMorty.SpeciesLabelsFinal | API-RICK-MORTY/api.js:36-60 | no species label maps any further |
| RickMorty.TranslateIdempotent | API-RICK-MORTY/api.js:63-65 | translating twice is translating once |
| RickMorty.NonEmpty | API-RICK-MORTY/api.js:85 | `filter(Boolean)` keeps only non-empty pieces, all taken from the input |
| RickMorty.CharacterId | API-RICK-MORTY/api.js:85 | the id, when there is one, is non-empty and has no '/' |
| RickMorty.SplitLastSegment | API-RICK-MORTY/api.js:85 | splitting "s/segment" is splitting s and then adding the segment |
| RickMorty.CharacterIdOfUrl | API-RICK-MORTY/api.js:85 | the id of ".../segment" is the segment |
| RickMorty.CharacterIdTrailingSlash | API-RICK-MORTY/api.js:85 | a trailing '/' does not change the id |
| RickMorty.LoadCharactersUrl | API-RICK-MORTY/api.js:155-166 | the request URL is the endpoint with its query parameters, built step by step |
| RickMorty.QueryParamsShape | API-RICK-MORTY/api.js:158-166 | the page always comes first; status is sent exactly when it is not empty or "all"; name comes last exactly when it is not empty |
| RickMorty.PageButtons | API-RICK-MORTY/api.js:213-225 | at most five consecutive pages from max(1, current-2) to min(total, current+2); only the current one is active, and it is present whenever it is in range |
| RickMorty.Browser.constructor | API-RICK-MORTY/api.js:31-33 | page 1, filter "all", empty search |
| RickMorty.Browser.Previous | API-RICK-MORTY/api.js:204-209 | goes back one page and loads it only when past the first page, the move `PageAfter` gives for the previous button |
| RickMorty.Browser.Next | API-RICK-MORTY/api.js:232-237 | goes forward one page and loads it only before the last page, the move `PageAfter` gives for the next button |
| RickMorty.Browser.GoTo | API-RICK-MORTY/api.js:219-223 | clicking the k-th numbered button selects and loads its number, the move `PageAfter` gives for that click with the same buttons and total |
| RickMorty.Browser.Search | API-RICK-MORTY/api.js:330-342 | a search stores the trimmed query, returns to page 1 and loads, keeping the filter |
| RickMorty.Browser.Filter | API-RICK-MORTY/api.js:347-354 | a filter is stored, returns to page 1 and loads, keeping the search |
| RickMorty.PageStaysInRange | API-RICK-MORTY/api.js:204-237 | previous, next, search, filter and a page button made by `PageButtons` keep the page within 1..total |
| RickMorty.PageStaysInRangeAll | API-RICK-MORTY/api.js:204-237 | any sequence of such moves keeps the page within 1..total |
| Books.TruncateTextSpec | MINIPROYECTO/app.js:323-326 | missing or empty text gives ""; text that fits is unchanged; longer text is its first maxLength characters plus "..." |
| Books.TruncateTextNegative | MINIPROYECTO/app.js:323-326 | under any limit missing or empty text gives ""; under a negative limit any other text shows only "..." |
| Books.FirstTruthyIff | MINIPROYECTO/app.js:72 | the `||` chain gives nothing exactly when every field is missing or empty, and otherwise the first non-empty field |
| Books.GetHighResImage | MINIPROYECTO/app.js:68-86 | the step-by-step URL rewriting computes the specified cover URL |
| Books.HighResPlaceholder | MINIPROYECTO/app.js:69-75 | without image links, or with all of them empty, the placeholder is used |
| Books.HighResPriority | MINIPROYECTO/app.js:72-83 | the cover comes from the first non-empty field in priority order, upgraded and edited |
| Books.ReplaceFirstKeepsPrefix | MINIPROYECTO/app.js:80-83 | a replacement cannot touch a prefix that does not contain the pattern's first character |
| Books.SharpenKeepsHttps | MINIPROYECTO/app.js:80-83 | the Google Books edits keep an "https://" prefix |
| Books.HighResUpgradesHttp | MINIPROYECTO/app.js:77-83 | an "http://" cover is served over "https://" |
| Books.HighResOtherHosts | MINIPROYECTO/app.js:77-83 | non-Google URLs only get the HTTPS upgrade, and are untouched when they contain no "http://" |
| Books.ChangeBackground | MINIPROYECTO/app.js:295-320 | the gradient of the first theme whose key occurs in the lower-cased query, the default when none does |
| Books.BookSearch.constructor | MINIPROYECTO/app.js:7 | no search term yet |
| Books.BookSearch.SearchBooks | MINIPROYECTO/app.js:23-29 | a blank query only warns and keeps the term; any other query becomes the current term |

## Left out

- Floating point: numbers are exact reals, so 0.1 + 0.2 is exactly 0.3 and there is no Infinity, negative zero or overflow. Where the scripts round with `Math.round(x · 10^k) / 10^k`, the model rounds the exact value the same way.
- `Number.EPSILON` is dropped: it is added before rounding only to counter binary representation error, which exact reals do not have.
- JsNumbers.RenderReal: a number with more than 20 decimals is cut to its first 20, where JavaScript would show its shortest round-tripping form. 1/10^21 ("0.0000000000000000001 %") shows as "0." followed by twenty zeros, which then reads back as 0, where the script shows "1e-21". `integralPolinomio(1, 2)` writes the coefficient 1/3 as "0." and twenty threes. Every read-back property above is stated for at most 20 decimals (18 for the hundredth).
- `String(x)` never uses exponent notation, and `parseFloat` does not read exponents or "Infinity". Where the script would show such text for a value with at most 20 decimals, the model shows the exact decimal instead: "25 x!" shows all 26 digits of 25! rather than "1.5511210043330986e+25", and "0.001 % %" shows "0.0000001" rather than "1e-7". Where the script shows "Infinity" ("0 ^ -1 =", whose result skips the rounding because it is not finite), the model shows "NaN".
- `Math.sin/cos/tan/log/log10/exp/sqrt`, `Math.PI` and `Math.E` are library values. They enter `CalculatorSteps.ApplyUnary` as the parameter `lib`, and `Areas.AreaCirculo` takes π as a parameter. Only their domain checks and the rounding are modelled.
- Palindrome.StripAccent: `normalize("NFD")` is modelled for the Spanish letters á é í ó ú ü ñ only, not for all of Unicode; `toLowerCase`/`toUpperCase` likewise cover ASCII plus those letters.
- Areas.Integral: the exponent -1 is excluded by a precondition. The script divides by zero there and writes "Infinity" or "NaN", which this model's exact numbers cannot represent.
- Colors.Luminance: the luminance threshold is compared exactly, not in doubles.
- The DOM, timers (`setInterval`, `setTimeout`), audio, animations, `localStorage`, the clipboard and `fetch` are left out. Their effects enter as parameters (the current hour and minute of `Tick`, the key or button pressed) or as returned URLs.
- The random numbers of `generarHexAleatorio` are the parameters of `Colors.FormatHex`.
- The calculator's background, wallpaper and beach-animation code and its 'b' key are left out: they only change the page's look.
- Alarm.AlarmClock.EstablecerAlarma: the time comes in as the string the time input gives ("HH:MM"), and the current hour and minute are parameters.
- The sound loop of the ringing alarm and the status messages are left out.
- Rick and Morty: `formatDate`, the card and modal rendering and the network request itself are left out.
- JsNumbers.Power: `Math.pow` with a fractional exponent is modelled only where its value is exact: 0 for a zero base under a positive exponent, NaN for a negative base. For a positive base ("2 ^ 0.5 =", which the script shows as "1.414213562") the model gives NaN, since the root is irrational in general; a zero base under a negative exponent gives NaN instead of Infinity.
- Calculator.Engine.HandleOperator: computes '^' through `JsNumbers.Power`, so it carries the same gap for a positive base under a fractional exponent; CalculatorSteps.Calculate and the operator lemmas likewise.
- Strings.Trim, Books.TruncateText and the other string functions count characters as code points. JavaScript's `length` and `substring` count UTF-16 units, so a text with characters outside the Basic Multilingual Plane is measured and cut differently.
- RickMorty.Browser.Previous and RickMorty.Browser.Next: the disabled state of the previous and next buttons is left out. The button's own guard is what decides whether the page changes.
- Book search: the Google Books request, `encodeURIComponent`, the result rendering, the modal, and `updateBackgroundWithImage` (it only sets a style from the cover URL) are left out.
- Books.BookSearch.SearchBooks: stops after the guard and the stored term. The loading indicators and the request that follow are left out.
