/** The optional value used where JavaScript has `null` or `undefined`. */
module Wrappers {
  datatype Option<+T> = None | Some(value: T)
}

/**
 * The parts of JavaScript's string and number-to-string behaviour that the
 * scripts rely on: decimal digits, `String(n)` for integers, `toLowerCase`,
 * `trim`, `includes`, `replace` with a string pattern, `split` and `<`.
 * Strings are sequences of characters; only the characters the scripts
 * actually distinguish are given special treatment.
 */
module Strings {
  import opened Wrappers

  // ---------------------------------------------------------------------
  // Decimal digits
  // ---------------------------------------------------------------------

  predicate IsDigit(c: char) { '0' <= c <= '9' }

  predicate AllDigits(s: string) { forall i :: 0 <= i < |s| ==> IsDigit(s[i]) }

  function DigitValue(c: char): (d: nat)
    requires IsDigit(c)
    ensures d < 10
  {
    c as int - '0' as int
  }

  function DigitChar(d: nat): (c: char)
    requires d < 10
    ensures IsDigit(c) && DigitValue(c) == d
  {
    (d + '0' as int) as char
  }

  function Pow10(k: nat): (p: nat)
    ensures p >= 1
  {
    if k == 0 then 1 else 10 * Pow10(k - 1)
  }

  /** The number a string of decimal digits denotes, most significant digit first. */
  function DigitsValue(s: string): (n: nat)
    requires AllDigits(s)
    ensures n < Pow10(|s|)
  {
    if s == [] then 0
    else
      var n := DigitsValue(s[..|s| - 1]);
      assert n <= Pow10(|s| - 1) - 1;
      10 * n + DigitValue(s[|s| - 1])
  }

  /** `String(n)` for a non-negative integer: its decimal digits, without leading zeros. */
  function NatToDecimal(n: nat): (s: string)
    ensures |s| >= 1 && AllDigits(s)
    ensures DigitsValue(s) == n
    ensures s[0] == '0' ==> n == 0
    ensures |s| == 1 <==> n < 10
    decreases n
  {
    if n < 10 then [DigitChar(n)]
    else
      var p := NatToDecimal(n / 10);
      assert (p + [DigitChar(n % 10)])[..|p|] == p;
      p + [DigitChar(n % 10)]
  }

  /** A digit string that does not start with '0' is worth at least 1. */
  lemma {:induction false} LeadingDigitPositive(s: string)
    requires |s| >= 1 && AllDigits(s) && s[0] != '0'
    ensures DigitsValue(s) >= 1
    decreases |s|
  {
    if |s| > 1 {
      LeadingDigitPositive(s[..|s| - 1]);
    }
  }

  /** Writing out the value of a digit string without leading zeros gives the string back. */
  lemma {:induction false} DecimalOfDigits(s: string)
    requires |s| >= 1 && AllDigits(s) && (s[0] != '0' || |s| == 1)
    ensures NatToDecimal(DigitsValue(s)) == s
    decreases |s|
  {
    var c := s[|s| - 1];
    assert DigitChar(DigitValue(c)) == c;
    if |s| > 1 {
      var p := s[..|s| - 1];
      LeadingDigitPositive(p);
      DecimalOfDigits(p);
      var n := DigitsValue(s);
      assert n == 10 * DigitsValue(p) + DigitValue(c);
      assert n / 10 == DigitsValue(p) && n % 10 == DigitValue(c);
      assert p + [c] == s;
    }
  }

  /** `String(i)` for any integer: a '-' in front of the digits of a negative number. */
  function IntToDecimal(i: int): (s: string)
    ensures |s| >= 1
    ensures i >= 0 ==> s == NatToDecimal(i)
    ensures i < 0 ==> s == "-" + NatToDecimal(-i)
  {
    if i < 0 then "-" + NatToDecimal(-i) else NatToDecimal(i)
  }

  /** A digit string has at most `k` digits when its value is below 10^k. */
  lemma {:induction false} NatToDecimalLength(n: nat, k: nat)
    requires 1 <= k && n < Pow10(k)
    ensures |NatToDecimal(n)| <= k
    decreases k
  {
    if n >= 10 {
      assert k >= 2;
      assert n / 10 < Pow10(k - 1);
      NatToDecimalLength(n / 10, k - 1);
    }
  }

  /** Leading zeros do not change the value of a digit string. */
  lemma {:induction false} LeadingZeroValue(s: string)
    requires AllDigits(s)
    ensures AllDigits("0" + s) && DigitsValue("0" + s) == DigitsValue(s)
    decreases |s|
  {
    if s != [] {
      var t := s[..|s| - 1];
      assert ("0" + s)[..|s|] == "0" + t;
      LeadingZeroValue(t);
    }
  }

  /** `padStart(k, '0')`: zeros in front of `s` until it is `k` long. */
  function PadZeros(s: string, k: nat): (r: string)
    ensures |r| == if |s| >= k then |s| else k
    decreases k - |s|
  {
    if |s| >= k then s else PadZeros("0" + s, k)
  }

  lemma {:induction false} PadZerosValue(s: string, k: nat)
    requires AllDigits(s)
    ensures AllDigits(PadZeros(s, k)) && DigitsValue(PadZeros(s, k)) == DigitsValue(s)
    decreases k - |s|
  {
    if |s| < k {
      LeadingZeroValue(s);
      PadZerosValue("0" + s, k);
    }
  }

  /** Value of a digit string extended by one more digit on the right. */
  lemma DigitsValueSnoc(s: string, c: char)
    requires AllDigits(s) && IsDigit(c)
    ensures AllDigits(s + [c]) && DigitsValue(s + [c]) == 10 * DigitsValue(s) + DigitValue(c)
  {
    assert (s + [c])[..|s|] == s;
  }

  /** Value of the concatenation of two digit strings. */
  lemma {:induction false} DigitsValueAppend(s: string, t: string)
    requires AllDigits(s) && AllDigits(t)
    ensures AllDigits(s + t) && DigitsValue(s + t) == DigitsValue(s) * Pow10(|t|) + DigitsValue(t)
    decreases |t|
  {
    if t == [] {
      assert s + t == s;
    } else {
      var u := t[..|t| - 1];
      var c := t[|t| - 1];
      var su := s + u;
      assert s + t == su + [c];
      assert t == u + [c];
      DigitsValueAppend(s, u);
      DigitsValueSnoc(su, c);
      DigitsValueSnoc(u, c);
      ShiftArithmetic(DigitsValue(s), DigitsValue(u), Pow10(|u|), DigitValue(c));
    }
  }

  lemma ShiftArithmetic(a: nat, b: nat, p: nat, d: nat)
    ensures 10 * (a * p + b) + d == a * (10 * p) + (10 * b + d)
  {
  }

  // ---------------------------------------------------------------------
  // Counting, lower-casing, reversing
  // ---------------------------------------------------------------------

  /** How many times `c` occurs in `s`. */
  function Count(s: string, c: char): (n: nat)
    ensures n <= |s|
    ensures n == 0 <==> c !in s
  {
    if s == [] then 0
    else (if s[|s| - 1] == c then 1 else 0) + Count(s[..|s| - 1], c)
  }

  lemma {:induction false} CountAppend(s: string, t: string, c: char)
    ensures Count(s + t, c) == Count(s, c) + Count(t, c)
    decreases |t|
  {
    if t == [] {
      assert s + t == s;
    } else {
      assert (s + t)[..|s + t| - 1] == s + t[..|t| - 1];
      CountAppend(s, t[..|t| - 1], c);
    }
  }

  /**
   * `toLowerCase` on one character: ASCII capitals and the capitals of the
   * Spanish alphabet (vowels with acute accent or diaeresis, and Ñ).
   */
  function LowerChar(c: char): char
  {
    if 'A' <= c <= 'Z' then (c as int + 32) as char
    else if c == 'Á' then 'á'
    else if c == 'É' then 'é'
    else if c == 'Í' then 'í'
    else if c == 'Ó' then 'ó'
    else if c == 'Ú' then 'ú'
    else if c == 'Ü' then 'ü'
    else if c == 'Ñ' then 'ñ'
    else c
  }

  function Lower(s: string): (r: string)
    ensures |r| == |s|
    ensures forall i :: 0 <= i < |s| ==> r[i] == LowerChar(s[i])
  {
    if s == [] then [] else [LowerChar(s[0])] + Lower(s[1..])
  }

  /** Lower-casing works piece by piece. */
  lemma LowerAppend(s: string, t: string)
    ensures Lower(s + t) == Lower(s) + Lower(t)
  {
    assert forall i :: 0 <= i < |s + t| ==> Lower(s + t)[i] == (Lower(s) + Lower(t))[i];
  }

  lemma LowerCharIdempotent(c: char)
    ensures LowerChar(LowerChar(c)) == LowerChar(c)
  {
  }

  function Reverse(s: string): (r: string)
    ensures |r| == |s|
    ensures forall i :: 0 <= i < |s| ==> r[i] == s[|s| - 1 - i]
  {
    if s == [] then [] else Reverse(s[1..]) + [s[0]]
  }

  // ---------------------------------------------------------------------
  // trim
  // ---------------------------------------------------------------------

  /** The white-space characters `trim` removes: the ASCII ones, NBSP, BOM, the line and paragraph separators and the Unicode space separators. */
  predicate IsWhitespace(c: char)
  {
    c == ' ' || c == '\t' || c == '\n' || c == '\r' || c == '\U{000B}' || c == '\U{000C}'
    || c == '\U{00A0}' || c == '\U{FEFF}' || c == '\U{2028}' || c == '\U{2029}'
    || c == '\U{1680}' || '\U{2000}' <= c <= '\U{200A}' || c == '\U{202F}' || c == '\U{205F}' || c == '\U{3000}'
  }

  predicate IsBlank(s: string) { forall i :: 0 <= i < |s| ==> IsWhitespace(s[i]) }

  function TrimStart(s: string): (r: string)
    ensures |r| <= |s| && r == s[|s| - |r|..]
    ensures r == [] || !IsWhitespace(r[0])
    ensures IsBlank(s[..|s| - |r|])
  {
    if s != [] && IsWhitespace(s[0]) then
      var r := TrimStart(s[1..]);
      assert s[1..][..|s| - 1 - |r|] == s[1..|s| - |r|];
      r
    else s
  }

  function TrimEnd(s: string): (r: string)
    ensures |r| <= |s| && r == s[..|r|]
    ensures r == [] || !IsWhitespace(r[|r| - 1])
    ensures IsBlank(s[|r|..])
  {
    if s != [] && IsWhitespace(s[|s| - 1]) then
      var r := TrimEnd(s[..|s| - 1]);
      assert s[..|s| - 1][|r|..] + [s[|s| - 1]] == s[|r|..];
      r
    else s
  }

  /** `trim`: `s` without its leading and trailing white space. */
  function Trim(s: string): (r: string)
  {
    TrimEnd(TrimStart(s))
  }

  /** A string trims to "" exactly when it is blank. */
  lemma TrimEmptyIffBlank(s: string)
    ensures Trim(s) == [] <==> IsBlank(s)
  {
    var t := TrimStart(s);
    if Trim(s) == [] {
      assert s == s[..|s| - |t|] + t;
    }
  }

  // ---------------------------------------------------------------------
  // includes, replace
  // ---------------------------------------------------------------------

  predicate OccursAt(s: string, pat: string, i: nat)
  {
    i + |pat| <= |s| && s[i..i + |pat|] == pat
  }

  /** `s.includes(pat)`. */
  predicate Includes(s: string, pat: string)
  {
    exists i: nat | i <= |s| :: OccursAt(s, pat, i)
  }

  /** `s.indexOf(pat)`, with None for -1: the first position where `pat` occurs. */
  function IndexOf(s: string, pat: string): (r: Option<nat>)
    ensures r.Some? ==> OccursAt(s, pat, r.value)
    ensures r.Some? ==> forall j: nat :: j < r.value ==> !OccursAt(s, pat, j)
    ensures r.None? ==> forall j: nat :: !OccursAt(s, pat, j)
    decreases |s|
  {
    if pat <= s then Some(0)
    else if s == [] then None
    else
      var r := IndexOf(s[1..], pat);
      forall j: nat ensures OccursAt(s, pat, j + 1) <==> OccursAt(s[1..], pat, j) {
        if j + 1 + |pat| <= |s| {
          assert s[j + 1..j + 1 + |pat|] == s[1..][j..j + |pat|];
        }
      }
      assert !OccursAt(s, pat, 0);
      match r
      case Some(k) =>
        assert forall j: nat :: j < k + 1 ==> !OccursAt(s, pat, j) by {
          forall j: nat | j < k + 1 ensures !OccursAt(s, pat, j) {
            if j > 0 { assert !OccursAt(s[1..], pat, j - 1); }
          }
        }
        Some(k + 1)
      case None =>
        assert forall j: nat :: !OccursAt(s, pat, j) by {
          forall j: nat ensures !OccursAt(s, pat, j) {
            if j > 0 { assert !OccursAt(s[1..], pat, j - 1); }
          }
        }
        None
  }

  lemma IncludesIffIndexOf(s: string, pat: string)
    ensures Includes(s, pat) <==> IndexOf(s, pat).Some?
  {
  }

  /**
   * `s.replace(pat, rep)` with a string pattern: only the FIRST occurrence of
   * `pat` is replaced, and `s` is returned unchanged when there is none.
   */
  function ReplaceFirst(s: string, pat: string, rep: string): (r: string)
    ensures !Includes(s, pat) ==> r == s
    ensures forall i: nat :: OccursAt(s, pat, i) && (forall j: nat :: j < i ==> !OccursAt(s, pat, j))
              ==> r == s[..i] + rep + s[i + |pat|..]
  {
    match IndexOf(s, pat)
    case None => s
    case Some(i) => s[..i] + rep + s[i + |pat|..]
  }

  // ---------------------------------------------------------------------
  // split
  // ---------------------------------------------------------------------

  /** `s.split(sep)` for a one-character separator: the pieces between separators, empty ones included. */
  function Split(s: string, sep: char): (parts: seq<string>)
    ensures |parts| >= 1
    ensures forall k :: 0 <= k < |parts| ==> sep !in parts[k]
  {
    if s == [] then [""]
    else
      var c := s[|s| - 1];
      var p := Split(s[..|s| - 1], sep);
      if c == sep then p + [""]
      else p[..|p| - 1] + [p[|p| - 1] + [c]]
  }

  /** `parts.join(sep)`. */
  function Join(parts: seq<string>, sep: char): string
  {
    if parts == [] then ""
    else if |parts| == 1 then parts[0]
    else Join(parts[..|parts| - 1], sep) + [sep] + parts[|parts| - 1]
  }

  /** Splitting and joining again gives back the original string. */
  lemma {:induction false} JoinSplit(s: string, sep: char)
    ensures Join(Split(s, sep), sep) == s
    decreases |s|
  {
    if s != [] {
      var c := s[|s| - 1];
      var t := s[..|s| - 1];
      var p := Split(t, sep);
      JoinSplit(t, sep);
      if c == sep {
        assert (p + [""])[..|p|] == p;
        assert s == t + [c];
      } else {
        var q := p[..|p| - 1] + [p[|p| - 1] + [c]];
        assert q[..|q| - 1] == p[..|p| - 1];
        if |p| == 1 {
          assert s == t + [c];
        } else {
          assert Join(p, sep) == Join(p[..|p| - 1], sep) + [sep] + p[|p| - 1];
          assert s == t + [c];
        }
      }
    }
  }

  // ---------------------------------------------------------------------
  // string comparison
  // ---------------------------------------------------------------------

  /** JavaScript's `a < b` on strings: lexicographic order of the characters. */
  predicate StrLess(a: string, b: string)
  {
    if a == [] then b != []
    else if b == [] then false
    else if a[0] != b[0] then a[0] < b[0]
    else StrLess(a[1..], b[1..])
  }

  lemma {:induction false} StrLessIrreflexive(a: string)
    ensures !StrLess(a, a)
    decreases |a|
  {
    if a != [] { StrLessIrreflexive(a[1..]); }
  }
}
