/**
 * The palindrome checker of FUNCIONES-DIA-3/Palindromo.js: lower-case the
 * text, strip accents, keep only 'a'-'z' and '0'-'9', and compare the result
 * with its reverse.
 */
module Palindrome {
  import opened Wrappers
  import opened Strings

  /**
   * What `normalize("NFD")` followed by removing the combining marks leaves
   * of a lower-case letter: the Spanish accented letters lose their accent.
   */
  function StripAccent(c: char): char
  {
    if c == 'á' then 'a'
    else if c == 'é' then 'e'
    else if c == 'í' then 'i'
    else if c == 'ó' then 'o'
    else if c == 'ú' || c == 'ü' then 'u'
    else if c == 'ñ' then 'n'
    else c
  }

  /** The characters `[a-z0-9]` matches. */
  predicate IsAlnum(c: char)
  {
    'a' <= c <= 'z' || '0' <= c <= '9'
  }

  /** The accent-stripping step, character by character. */
  function StripAccents(s: string): (r: string)
    ensures |r| == |s|
    ensures forall i :: 0 <= i < |s| ==> r[i] == StripAccent(s[i])
  {
    if s == [] then [] else [StripAccent(s[0])] + StripAccents(s[1..])
  }

  /** `replace(/[^a-z0-9]/g, "")`. */
  function KeepAlnum(s: string): (r: string)
  {
    if s == [] then []
    else (if IsAlnum(s[0]) then [s[0]] else []) + KeepAlnum(s[1..])
  }

  /** `textoLimpio`. */
  function Limpiar(texto: string): string
  {
    KeepAlnum(StripAccents(Lower(texto)))
  }

  /** `esPalindromo(texto)`. */
  predicate EsPalindromo(texto: string)
  {
    var limpio := Limpiar(texto);
    limpio == Reverse(limpio)
  }

  /** What one character of the input contributes to the cleaned text. */
  function Fold(c: char): char
  {
    StripAccent(LowerChar(c))
  }

  // ---------------------------------------------------------------------
  // The cleaned text
  // ---------------------------------------------------------------------

  /** The filter keeps exactly the letters and digits, in order. */
  lemma {:induction false} KeepAlnumOnly(s: string)
    ensures forall i :: 0 <= i < |KeepAlnum(s)| ==> IsAlnum(KeepAlnum(s)[i])
    ensures |KeepAlnum(s)| <= |s|
    decreases |s|
  {
    if s != [] {
      KeepAlnumOnly(s[1..]);
    }
  }

  /** The cleaned text holds only 'a'-'z' and '0'-'9'. */
  lemma LimpiarOnlyAlnum(texto: string)
    ensures forall i :: 0 <= i < |Limpiar(texto)| ==> IsAlnum(Limpiar(texto)[i])
  {
    KeepAlnumOnly(StripAccents(Lower(texto)));
  }

  lemma {:induction false} KeepAlnumAppend(s: string, t: string)
    ensures KeepAlnum(s + t) == KeepAlnum(s) + KeepAlnum(t)
    decreases |s|
  {
    if s == [] {
      assert s + t == t;
    } else {
      var head := if IsAlnum(s[0]) then [s[0]] else [];
      assert (s + t)[0] == s[0] && (s + t)[1..] == s[1..] + t;
      assert KeepAlnum(s + t) == head + KeepAlnum(s[1..] + t);
      KeepAlnumAppend(s[1..], t);
      assert head + (KeepAlnum(s[1..]) + KeepAlnum(t)) == (head + KeepAlnum(s[1..])) + KeepAlnum(t);
    }
  }

  /** Cleaning works piece by piece: the cleaned concatenation is the concatenation of the cleaned pieces. */
  lemma LimpiarAppend(s: string, t: string)
    ensures Limpiar(s + t) == Limpiar(s) + Limpiar(t)
  {
    LowerAppend(s, t);
    StripAccentsAppend(Lower(s), Lower(t));
    KeepAlnumAppend(StripAccents(Lower(s)), StripAccents(Lower(t)));
  }

  lemma StripAccentsAppend(s: string, t: string)
    ensures StripAccents(s + t) == StripAccents(s) + StripAccents(t)
  {
    assert forall i :: 0 <= i < |s + t| ==> StripAccents(s + t)[i] == (StripAccents(s) + StripAccents(t))[i];
  }

  /** A character that does not fold to a letter or digit cleans to nothing. */
  lemma LimpiarOne(c: char)
    ensures Limpiar([c]) == if IsAlnum(Fold(c)) then [Fold(c)] else []
  {
    assert Lower([c]) == [LowerChar(c)];
    assert StripAccents([LowerChar(c)]) == [Fold(c)];
    assert KeepAlnum([Fold(c)]) == (if IsAlnum(Fold(c)) then [Fold(c)] else []) + KeepAlnum([]);
  }

  // ---------------------------------------------------------------------
  // The answer
  // ---------------------------------------------------------------------

  /** Equal to its reverse means each character mirrors the one at the other end. */
  lemma ReverseEqualIff(s: string)
    ensures s == Reverse(s) <==> forall i :: 0 <= i < |s| ==> s[i] == s[|s| - 1 - i]
  {
  }

  /** `esPalindromo` holds exactly when the cleaned text reads the same from both ends. */
  lemma EsPalindromoIff(texto: string)
    ensures var l := Limpiar(texto);
            EsPalindromo(texto) <==> forall i :: 0 <= i < |l| ==> l[i] == l[|l| - 1 - i]
  {
    ReverseEqualIff(Limpiar(texto));
  }

  /** Lower-casing the input first does not change the answer. */
  lemma CaseInsensitive(texto: string)
    ensures EsPalindromo(Lower(texto)) == EsPalindromo(texto)
  {
    assert Lower(Lower(texto)) == Lower(texto) by {
      forall i | 0 <= i < |texto|
        ensures Lower(Lower(texto))[i] == Lower(texto)[i]
      {
        LowerCharIdempotent(texto[i]);
      }
    }
  }

  /** Inserting a space or punctuation mark anywhere does not change the answer. */
  lemma IgnoresNonAlnum(x: string, c: char, y: string)
    requires !IsAlnum(Fold(c))
    ensures EsPalindromo(x + [c] + y) == EsPalindromo(x + y)
  {
    LimpiarAppend(x + [c], y);
    LimpiarAppend(x, [c]);
    LimpiarAppend(x, y);
    LimpiarOne(c);
    assert Limpiar(x) + [] == Limpiar(x);
  }

  /** A text with no letter or digit, "" included, counts as a palindrome. */
  lemma {:induction false} NoAlnumIsPalindrome(texto: string)
    requires forall i :: 0 <= i < |texto| ==> !IsAlnum(Fold(texto[i]))
    ensures Limpiar(texto) == [] && EsPalindromo(texto)
    decreases |texto|
  {
    if texto != [] {
      assert texto == [texto[0]] + texto[1..];
      LimpiarAppend([texto[0]], texto[1..]);
      LimpiarOne(texto[0]);
      NoAlnumIsPalindrome(texto[1..]);
    }
  }

  /** Reading the input backwards does not change the answer. */
  lemma ReversedInputSameAnswer(texto: string)
    ensures EsPalindromo(Reverse(texto)) == EsPalindromo(texto)
  {
    ReverseCleans(texto);
    var l := Limpiar(texto);
    ReverseInvolution(l);
  }

  /** Cleaning commutes with reversing. */
  lemma {:induction false} ReverseCleans(texto: string)
    ensures Limpiar(Reverse(texto)) == Reverse(Limpiar(texto))
    decreases |texto|
  {
    if texto != [] {
      var c, rest := texto[0], texto[1..];
      assert texto == [c] + rest;
      assert Reverse(texto) == Reverse(rest) + [c];
      LimpiarAppend(Reverse(rest), [c]);
      LimpiarAppend([c], rest);
      ReverseCleans(rest);
      ReverseAppend(Limpiar([c]), Limpiar(rest));
      LimpiarOne(c);
    }
  }

  lemma ReverseAppend(s: string, t: string)
    ensures Reverse(s + t) == Reverse(t) + Reverse(s)
  {
  }

  lemma ReverseInvolution(s: string)
    ensures Reverse(Reverse(s)) == s
  {
  }

  // ---------------------------------------------------------------------
  // The form
  // ---------------------------------------------------------------------

  /**
   * `verificarPalindromo` on the input's text: `None` for the "please enter
   * a text" message, otherwise the trimmed text and whether it is a palindrome.
   */
  function Verificar(input: string): Option<(string, bool)>
  {
    var texto := Trim(input);
    if texto == [] then None else Some((texto, EsPalindromo(texto)))
  }

  /** The form rejects exactly the blank inputs, and checks the trimmed text of every other one. */
  lemma VerificarRejectsBlank(input: string)
    ensures Verificar(input).None? <==> IsBlank(input)
    ensures Verificar(input).Some? ==> Verificar(input).value == (Trim(input), EsPalindromo(Trim(input)))
  {
    TrimEmptyIffBlank(input);
  }
}
