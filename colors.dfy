/**
 * The colour generator of generador-colores/script.js: a colour (r, g, b)
 * written as "#RRGGBB", read back by `colorContraste`, and the black or white
 * text colour chosen from its luminance. The random components are
 * parameters.
 */
module Colors {
  import opened Wrappers
  import opened Strings

  // ---------------------------------------------------------------------
  // Writing a colour
  // ---------------------------------------------------------------------

  /** The digit `toString(16)` writes for a value below 16 (lower case). */
  function HexDigit(d: nat): char
    requires d < 16
  {
    if d < 10 then (d + '0' as int) as char else (d - 10 + 'a' as int) as char
  }

  /** `n.toString(16)`. */
  function ToHex(n: nat): (s: string)
    decreases n
  {
    if n < 16 then [HexDigit(n)] else ToHex(n / 16) + [HexDigit(n % 16)]
  }

  /** `toUpperCase` on the characters a colour code is made of. */
  function UpperChar(c: char): char
  {
    if 'a' <= c <= 'z' then (c as int - 'a' as int + 'A' as int) as char else c
  }

  function Upper(s: string): (r: string)
    ensures |r| == |s|
    ensures forall i :: 0 <= i < |s| ==> r[i] == UpperChar(s[i])
  {
    if s == [] then [] else [UpperChar(s[0])] + Upper(s[1..])
  }

  /** One component: `n.toString(16).padStart(2, '0')`. */
  function Component(n: nat): string
  {
    PadZeros(ToHex(n), 2)
  }

  /** `generarHexAleatorio` with the drawn components `r`, `g` and `b`. */
  function FormatHex(r: nat, g: nat, b: nat): string
  {
    Upper("#" + Component(r) + Component(g) + Component(b))
  }

  // ---------------------------------------------------------------------
  // Reading a colour back
  // ---------------------------------------------------------------------

  /** The value of a hexadecimal digit of either case. */
  function HexValue(c: char): Option<nat>
  {
    if '0' <= c <= '9' then Some(c as int - '0' as int)
    else if 'a' <= c <= 'f' then Some(c as int - 'a' as int + 10)
    else if 'A' <= c <= 'F' then Some(c as int - 'A' as int + 10)
    else None
  }

  predicate IsHex(c: char) { HexValue(c).Some? }

  predicate AllHex(s: string) { forall i :: 0 <= i < |s| ==> IsHex(s[i]) }

  /** The number a string of hexadecimal digits denotes. */
  function HexDigitsValue(s: string): (n: nat)
    requires AllHex(s)
  {
    if s == [] then 0 else 16 * HexDigitsValue(s[..|s| - 1]) + HexValue(s[|s| - 1]).value
  }

  /** The longest prefix of `s` made of hexadecimal digits. */
  function HexRun(s: string): (r: string)
    ensures r <= s && AllHex(r)
    ensures |r| < |s| ==> !IsHex(s[|r|])
  {
    if s == [] || !IsHex(s[0]) then [] else [s[0]] + HexRun(s[1..])
  }

  /**
   * `parseInt(s, 16)`, with `None` for NaN: leading white space, a sign and
   * a "0x" prefix are skipped, then the longest run of hexadecimal digits is
   * read; NaN when that run is empty.
   */
  function ParseInt16(s: string): Option<int>
  {
    var t := TrimStart(s);
    var negative := t != [] && t[0] == '-';
    var u := if t != [] && (t[0] == '-' || t[0] == '+') then t[1..] else t;
    var v := if |u| >= 2 && u[0] == '0' && (u[1] == 'x' || u[1] == 'X') then u[2..] else u;
    var run := HexRun(v);
    if run == [] then None
    else
      var value: int := HexDigitsValue(run);
      Some(if negative then -value else value)
  }

  /** `s.substring(a, b)` for `a <= b`: the end points are clamped to the string. */
  function Substring(s: string, a: nat, b: nat): string
    requires a <= b
  {
    var i := if a <= |s| then a else |s|;
    var j := if b <= |s| then b else |s|;
    s[i..j]
  }

  /** The three components `colorContraste` reads from a colour code. */
  function ParseRgb(hex: string): (Option<int>, Option<int>, Option<int>)
  {
    var h := ReplaceFirst(hex, "#", "");
    (ParseInt16(Substring(h, 0, 2)), ParseInt16(Substring(h, 2, 4)), ParseInt16(Substring(h, 4, 6)))
  }

  const Black: string := "#000000"
  const White: string := "#FFFFFF"

  /** The relative luminance of `colorContraste`, in exact arithmetic. */
  function Luminance(r: int, g: int, b: int): real
  {
    (0.2126 * r as real + 0.7152 * g as real + 0.0722 * b as real) / 255.0
  }

  /**
   * `colorContraste(hex)`: black text on a light colour, white otherwise.
   * A component that does not parse makes the luminance NaN, and NaN is not
   * greater than 0.6.
   */
  function ColorContraste(hex: string): (c: string)
    ensures c == Black || c == White
  {
    match ParseRgb(hex)
    case (Some(r), Some(g), Some(b)) => if Luminance(r, g, b) > 0.6 then Black else White
    case _ => White
  }

  // ---------------------------------------------------------------------
  // Properties
  // ---------------------------------------------------------------------

  /** `toString(16)` writes a digit that reads back as its value. */
  lemma HexDigitReadsBack(d: nat)
    requires d < 16
    ensures HexValue(HexDigit(d)) == Some(d)
    ensures '0' <= HexDigit(d) <= '9' || 'a' <= HexDigit(d) <= 'f'
  {
  }

  /** Two hexadecimal digits denote 16 times the first plus the second. */
  lemma TwoHexDigitsValue(x: char, y: char)
    requires IsHex(x) && IsHex(y)
    ensures AllHex([x, y]) && HexDigitsValue([x, y]) == 16 * HexValue(x).value + HexValue(y).value
  {
    assert [x, y][..1] == [x] && [x][..0] == [];
    assert HexDigitsValue([x]) == HexValue(x).value;
  }

  /** Below 256 a component is two lower-case hexadecimal digits that read back as the number. */
  lemma ComponentDigits(n: nat)
    requires n < 256
    ensures var c := Component(n);
            |c| == 2 && AllHex(c) && HexDigitsValue(c) == n &&
            forall i :: 0 <= i < 2 ==> '0' <= c[i] <= '9' || 'a' <= c[i] <= 'f'
  {
    var c := Component(n);
    if n < 16 {
      assert ToHex(n) == [HexDigit(n)];
      assert c == PadZeros("0" + [HexDigit(n)], 2) == ['0', HexDigit(n)];
      HexDigitReadsBack(n);
      TwoHexDigitsValue('0', HexDigit(n));
    } else {
      assert ToHex(n / 16) == [HexDigit(n / 16)];
      assert c == ToHex(n) == [HexDigit(n / 16), HexDigit(n % 16)];
      HexDigitReadsBack(n / 16);
      HexDigitReadsBack(n % 16);
      TwoHexDigitsValue(HexDigit(n / 16), HexDigit(n % 16));
    }
  }

  /** Upper-casing a hexadecimal digit keeps its value. */
  lemma UpperKeepsHexValue(c: char)
    requires '0' <= c <= '9' || 'a' <= c <= 'f'
    ensures HexValue(UpperChar(c)) == HexValue(c)
    ensures '0' <= UpperChar(c) <= '9' || 'A' <= UpperChar(c) <= 'F'
  {
  }

  /** One component as it appears in the colour code. */
  function UpperComponent(n: nat): string
  {
    Upper(Component(n))
  }

  /** Below 256 an upper-cased component is two upper-case hexadecimal digits that read back as the number. */
  lemma UpperComponentDigits(n: nat)
    requires n < 256
    ensures var c := UpperComponent(n);
            |c| == 2 && AllHex(c) && HexDigitsValue(c) == n &&
            forall i :: 0 <= i < 2 ==> '0' <= c[i] <= '9' || 'A' <= c[i] <= 'F'
  {
    ComponentDigits(n);
    var c, u := Component(n), UpperComponent(n);
    UpperKeepsHexValue(c[0]);
    UpperKeepsHexValue(c[1]);
    assert u[..1][..0] == [] && c[..1][..0] == [];
    assert u[..1] == [u[0]] && c[..1] == [c[0]];
  }

  /** The colour code is '#' and the three upper-cased components. */
  lemma FormatHexParts(r: nat, g: nat, b: nat)
    ensures FormatHex(r, g, b) == "#" + UpperComponent(r) + UpperComponent(g) + UpperComponent(b)
  {
    var s := "#" + Component(r) + Component(g) + Component(b);
    var t := "#" + UpperComponent(r) + UpperComponent(g) + UpperComponent(b);
    assert |Upper(s)| == |t|;
    forall i | 0 <= i < |t| ensures Upper(s)[i] == t[i] {
      var k1, k2 := 1 + |Component(r)|, 1 + |Component(r)| + |Component(g)|;
      if i == 0 {
      } else if i < k1 {
        assert t[i] == UpperComponent(r)[i - 1];
      } else if i < k2 {
        assert t[i] == UpperComponent(g)[i - k1];
      } else {
        assert t[i] == UpperComponent(b)[i - k2];
      }
    }
  }

  /** For components below 256, the code is '#' and six upper-case hexadecimal digits. */
  lemma FormatHexShape(r: nat, g: nat, b: nat)
    requires r < 256 && g < 256 && b < 256
    ensures var s := FormatHex(r, g, b);
            |s| == 7 && s[0] == '#' &&
            forall i :: 1 <= i < 7 ==> '0' <= s[i] <= '9' || 'A' <= s[i] <= 'F'
  {
    FormatHexParts(r, g, b);
    UpperComponentDigits(r);
    UpperComponentDigits(g);
    UpperComponentDigits(b);
    var s := FormatHex(r, g, b);
    forall i | 1 <= i < 7 ensures '0' <= s[i] <= '9' || 'A' <= s[i] <= 'F' {
      if i < 3 {
        assert s[i] == UpperComponent(r)[i - 1];
      } else if i < 5 {
        assert s[i] == UpperComponent(g)[i - 3];
      } else {
        assert s[i] == UpperComponent(b)[i - 5];
      }
    }
  }

  /** Each component is padded to two digits: 0 is written "00" and 255 "FF". */
  lemma PaddingExtremes()
    ensures FormatHex(0, 0, 0) == Black
    ensures FormatHex(255, 255, 255) == White
  {
    assert ToHex(0) == "0";
    assert Component(0) == "00";
    assert UpperComponent(0) == "00";
    assert ToHex(15) == "f";
    assert ToHex(255) == "ff";
    assert Component(255) == "ff";
    assert UpperComponent(255) == "FF";
    FormatHexParts(0, 0, 0);
    FormatHexParts(255, 255, 255);
  }

  /** Two hexadecimal digits, neither a sign nor white space, parse as their value. */
  lemma ParseTwoHex(c: string)
    requires |c| == 2 && forall i :: 0 <= i < 2 ==> '0' <= c[i] <= '9' || 'A' <= c[i] <= 'F'
    ensures AllHex(c) && ParseInt16(c) == Some(HexDigitsValue(c))
  {
    assert !IsWhitespace(c[0]);
    assert TrimStart(c) == c;
    assert HexRun(c[1..][1..]) == [];
    assert HexRun(c) == [c[0]] + HexRun(c[1..]) == [c[0]] + [c[1]] == c;
  }

  /** `replace('#', '')` on a code that starts with '#' drops that '#'. */
  lemma DropHash(h: string)
    ensures ReplaceFirst("#" + h, "#", "") == h
  {
    var hex := "#" + h;
    assert OccursAt(hex, "#", 0);
    assert hex[..0] + "" + hex[0 + |"#"|..] == h;
  }

  /** The substrings 0-2, 2-4 and 4-6 of three two-character pieces are the pieces. */
  lemma SubstringPieces(x: string, y: string, z: string)
    requires |x| == 2 && |y| == 2 && |z| == 2
    ensures var h := x + y + z;
            Substring(h, 0, 2) == x && Substring(h, 2, 4) == y && Substring(h, 4, 6) == z
  {
    var h := x + y + z;
    assert h[0..2] == x && h[2..4] == y && h[4..6] == z;
  }

  /** Reading a formatted colour back gives exactly the components it was made from. */
  lemma ParseRgbRoundTrip(r: nat, g: nat, b: nat)
    requires r < 256 && g < 256 && b < 256
    ensures ParseRgb(FormatHex(r, g, b)) == (Some(r), Some(g), Some(b))
  {
    var cr, cg, cb := UpperComponent(r), UpperComponent(g), UpperComponent(b);
    assert FormatHex(r, g, b) == "#" + (cr + cg + cb) by {
      FormatHexParts(r, g, b);
    }
    UpperComponentDigits(r);
    UpperComponentDigits(g);
    UpperComponentDigits(b);
    ParseRgbPieces(cr, cg, cb);
  }

  /** A code made of '#' and three pieces of two upper-case hexadecimal digits reads as the pieces' values. */
  lemma ParseRgbPieces(x: string, y: string, z: string)
    requires |x| == 2 && forall i :: 0 <= i < 2 ==> '0' <= x[i] <= '9' || 'A' <= x[i] <= 'F'
    requires |y| == 2 && forall i :: 0 <= i < 2 ==> '0' <= y[i] <= '9' || 'A' <= y[i] <= 'F'
    requires |z| == 2 && forall i :: 0 <= i < 2 ==> '0' <= z[i] <= '9' || 'A' <= z[i] <= 'F'
    ensures AllHex(x) && AllHex(y) && AllHex(z)
    ensures ParseRgb("#" + (x + y + z)) == (Some(HexDigitsValue(x)), Some(HexDigitsValue(y)), Some(HexDigitsValue(z)))
  {
    DropHash(x + y + z);
    SubstringPieces(x, y, z);
    ParseTwoHex(x);
    ParseTwoHex(y);
    ParseTwoHex(z);
  }

  /** The luminance test in whole numbers: weights 2126, 7152 and 722 against 0.6 · 255 · 10000. */
  lemma LuminanceIff(r: int, g: int, b: int)
    ensures Luminance(r, g, b) > 0.6 <==> 2126 * r + 7152 * g + 722 * b > 1530000
  {
  }

  /** A formatted colour gets black text exactly when its weighted sum is above 0.6 · 255. */
  lemma ContrasteIff(r: nat, g: nat, b: nat)
    requires r < 256 && g < 256 && b < 256
    ensures ColorContraste(FormatHex(r, g, b)) == Black <==> 2126 * r + 7152 * g + 722 * b > 1530000
    ensures ColorContraste(FormatHex(r, g, b)) == White <==> 2126 * r + 7152 * g + 722 * b <= 1530000
  {
    ParseRgbRoundTrip(r, g, b);
    LuminanceIff(r, g, b);
  }

  /** Black gets white text and white gets black text. */
  lemma ContrasteExtremes()
    ensures ColorContraste(Black) == White
    ensures ColorContraste(White) == Black
  {
    PaddingExtremes();
    ContrasteIff(0, 0, 0);
    ContrasteIff(255, 255, 255);
  }

  /** Raising components never turns black text into white text. */
  lemma ContrasteMonotone(r: nat, g: nat, b: nat, r2: nat, g2: nat, b2: nat)
    requires r <= r2 < 256 && g <= g2 < 256 && b <= b2 < 256
    requires ColorContraste(FormatHex(r, g, b)) == Black
    ensures ColorContraste(FormatHex(r2, g2, b2)) == Black
  {
    ContrasteIff(r, g, b);
    ContrasteIff(r2, g2, b2);
  }
}
