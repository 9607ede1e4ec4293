/**
 * The alarm clock of reloj-alarma/script.js: the time helpers as functions,
 * and `alarmaConfig` with the 12/24-hour flag as a class whose methods are
 * the handlers that update it. The current hour and minute are parameters
 * wherever the script reads the clock.
 */
module Alarm {
  import opened Wrappers
  import opened Strings

  // ---------------------------------------------------------------------
  // Time helpers
  // ---------------------------------------------------------------------

  /** `formatearNumero(num)`: a '0' in front of a one-digit number. */
  function FormatearNumero(n: nat): (s: string)
  {
    if n < 10 then "0" + NatToDecimal(n) else NatToDecimal(n)
  }

  /** Below 100 the result is exactly two digits that read back as the number. */
  lemma FormatearNumeroTwoDigits(n: nat)
    requires n < 100
    ensures var s := FormatearNumero(n);
            |s| == 2 && AllDigits(s) && DigitsValue(s) == n && (n < 10 <==> s[0] == '0')
  {
    if n < 10 {
      LeadingZeroValue(NatToDecimal(n));
    } else {
      NatToDecimalLength(n, 2);
    }
  }

  /** `obtenerSaludo(hora)`. */
  function ObtenerSaludo(hora: int): string
  {
    if 5 <= hora < 12 then "Buenos días"
    else if 12 <= hora < 18 then "Buenas tardes"
    else if 18 <= hora < 24 then "Buenas noches"
    else "Buenas noches"
  }

  /** Morning is 5 to 11, afternoon 12 to 17, and every other hour is night. */
  lemma SaludoByHour(hora: int)
    ensures ObtenerSaludo(hora) == "Buenos días" <==> 5 <= hora < 12
    ensures ObtenerSaludo(hora) == "Buenas tardes" <==> 12 <= hora < 18
    ensures ObtenerSaludo(hora) == "Buenas noches" <==> !(5 <= hora < 18)
  {
  }

  datatype Periodo = AM | PM

  /** The hour and period `convertirA12Horas` returns. */
  datatype Hora12 = Hora12(hora: int, periodo: Periodo)

  /** `convertirA12Horas(hora)`. */
  function ConvertirA12Horas(hora: int): Hora12
  {
    if hora >= 12 then Hora12(if hora > 12 then hora - 12 else hora, PM)
    else if hora == 0 then Hora12(12, AM)
    else Hora12(hora, AM)
  }

  /** The 24-hour hour a 12-hour reading denotes. */
  function To24(h: Hora12): int
  {
    match h.periodo
    case AM => if h.hora == 12 then 0 else h.hora
    case PM => if h.hora == 12 then 12 else h.hora + 12
  }

  /**
   * For a 24-hour hour, the 12-hour reading is an hour from 1 to 12, in the
   * afternoon exactly from 12 on, and it denotes the same hour again.
   */
  lemma ConvertirA12HorasRoundTrip(hora: int)
    requires 0 <= hora < 24
    ensures var r := ConvertirA12Horas(hora);
            1 <= r.hora <= 12 && (r.periodo == PM <==> hora >= 12) && To24(r) == hora
  {
  }

  /** Distinct hours of a day have distinct 12-hour readings. */
  lemma ConvertirA12HorasInjective(h1: int, h2: int)
    requires 0 <= h1 < 24 && 0 <= h2 < 24 && h1 != h2
    ensures ConvertirA12Horas(h1) != ConvertirA12Horas(h2)
  {
    ConvertirA12HorasRoundTrip(h1);
    ConvertirA12HorasRoundTrip(h2);
  }

  /** The hour field the clock shows in either mode. */
  function HoraMostrada(modo24h: bool, hora: nat): string
    requires hora < 24
  {
    if modo24h then FormatearNumero(hora)
    else FormatearNumero(ConvertirA12Horas(hora).hora)
  }

  /** In both modes the hour field is two digits: the hour itself, or its 12-hour reading. */
  lemma HoraMostradaTwoDigits(modo24h: bool, hora: nat)
    requires hora < 24
    ensures var s := HoraMostrada(modo24h, hora);
            |s| == 2 && AllDigits(s) &&
            DigitsValue(s) == if modo24h then hora else ConvertirA12Horas(hora).hora
  {
    ConvertirA12HorasRoundTrip(hora);
    FormatearNumeroTwoDigits(hora);
    FormatearNumeroTwoDigits(ConvertirA12Horas(hora).hora);
  }

  /** "HH:MM" as the script builds it from an hour and a minute. */
  function HoraFormato(h: nat, m: nat): string
  {
    FormatearNumero(h) + ":" + FormatearNumero(m)
  }

  /** `esHoraFutura(horaAlarma)` at hour `h` and minute `m`: a string comparison. */
  predicate EsHoraFutura(horaAlarma: string, h: nat, m: nat)
  {
    StrLess(HoraFormato(h, m), horaAlarma)
  }

  /** Comparing strings whose first parts have the same length compares the first parts first. */
  lemma {:induction false} StrLessConcat(x: string, y: string, x2: string, y2: string)
    requires |x| == |x2|
    ensures StrLess(x + y, x2 + y2) <==> StrLess(x, x2) || (x == x2 && StrLess(y, y2))
    decreases |x|
  {
    if x == [] {
      assert x + y == y && x2 + y2 == y2;
    } else {
      assert (x + y)[0] == x[0] && (x2 + y2)[0] == x2[0];
      assert (x + y)[1..] == x[1..] + y && (x2 + y2)[1..] == x2[1..] + y2;
      StrLessConcat(x[1..], y, x2[1..], y2);
      if x[0] == x2[0] && x[1..] == x2[1..] {
        assert x == [x[0]] + x[1..] && x2 == [x2[0]] + x2[1..];
      }
    }
  }

  /** On two-digit strings, the string order is the numeric order. */
  lemma TwoDigitOrder(a: string, b: string)
    requires |a| == 2 && |b| == 2 && AllDigits(a) && AllDigits(b)
    ensures StrLess(a, b) <==> DigitsValue(a) < DigitsValue(b)
  {
    assert a[..1] == [a[0]] && b[..1] == [b[0]];
    assert [a[0]][..0] == [] && [b[0]][..0] == [];
    assert DigitsValue(a) == 10 * DigitValue(a[0]) + DigitValue(a[1]);
    assert DigitsValue(b) == 10 * DigitValue(b[0]) + DigitValue(b[1]);
    assert a[1..][1..] == [] && b[1..][1..] == [];
    assert a[1..][0] == a[1] && b[1..][0] == b[1];
    assert StrLess(a[1..], b[1..]) <==> a[1] < b[1];
  }

  /**
   * For times of day, the string comparison of `esHoraFutura` agrees with
   * comparing minutes since midnight.
   */
  lemma EsHoraFuturaIff(ah: nat, am: nat, h: nat, m: nat)
    requires ah < 24 && am < 60 && h < 24 && m < 60
    ensures EsHoraFutura(HoraFormato(ah, am), h, m) <==> h * 60 + m < ah * 60 + am
  {
    FormatearNumeroTwoDigits(ah);
    FormatearNumeroTwoDigits(am);
    FormatearNumeroTwoDigits(h);
    FormatearNumeroTwoDigits(m);
    var fh, fm, fah, fam := FormatearNumero(h), FormatearNumero(m), FormatearNumero(ah), FormatearNumero(am);
    StrLessConcat(fh, ":" + fm, fah, ":" + fam);
    assert HoraFormato(h, m) == fh + (":" + fm);
    assert HoraFormato(ah, am) == fah + (":" + fam);
    assert StrLess(":" + fm, ":" + fam) == StrLess(fm, fam) by {
      assert (":" + fm)[1..] == fm && (":" + fam)[1..] == fam;
    }
    TwoDigitOrder(fh, fah);
    TwoDigitOrder(fm, fam);
  }

  // ---------------------------------------------------------------------
  // The alarm
  // ---------------------------------------------------------------------

  /** Whether the tick at hour `h` and minute `m` sets off the alarm. */
  predicate Fires(activa: bool, hora: Option<string>, sonando: bool, h: nat, m: nat)
  {
    activa && !sonando && hora == Some(HoraFormato(h, m))
  }

  /** A ringing alarm does not fire again, at any time. */
  lemma RingingDoesNotRefire(activa: bool, hora: Option<string>, h: nat, m: nat)
    ensures !Fires(activa, hora, true, h, m)
  {
  }

  /** An alarm set for "HH:MM" fires exactly at that hour and minute of the day. */
  lemma FiresOnlyAtItsTime(ah: nat, am: nat, h: nat, m: nat)
    requires ah < 24 && am < 60 && h < 24 && m < 60
    ensures Fires(true, Some(HoraFormato(ah, am)), false, h, m) <==> h == ah && m == am
  {
    EsHoraFuturaIff(ah, am, h, m);
    EsHoraFuturaIff(h, m, ah, am);
    if HoraFormato(h, m) == HoraFormato(ah, am) {
      StrLessIrreflexive(HoraFormato(h, m));
    }
  }

  /** `alarmaConfig` and `modo24h`. */
  class AlarmClock {
    var activa: bool
    var hora: Option<string>
    var sonandoActualmente: bool
    var modo24h: bool

    constructor ()
      ensures !activa && hora == None && !sonandoActualmente && modo24h
    {
      activa := false;
      hora := None;
      sonandoActualmente := false;
      modo24h := true;
    }

    /**
     * `establecerAlarma` with `horaSeleccionada` from the time input, at hour
     * `h` and minute `m`: an empty or past time changes nothing.
     */
    method EstablecerAlarma(horaSeleccionada: string, h: nat, m: nat)
      modifies this
      ensures horaSeleccionada == [] || !EsHoraFutura(horaSeleccionada, h, m) ==>
                activa == old(activa) && hora == old(hora) && sonandoActualmente == old(sonandoActualmente)
      ensures horaSeleccionada != [] && EsHoraFutura(horaSeleccionada, h, m) ==>
                activa && hora == Some(horaSeleccionada) && !sonandoActualmente
      ensures modo24h == old(modo24h)
    {
      if horaSeleccionada == [] {
        return;
      }
      if !EsHoraFutura(horaSeleccionada, h, m) {
        return;
      }
      activa := true;
      hora := Some(horaSeleccionada);
      sonandoActualmente := false;
    }

    /** `cancelarAlarma`. */
    method CancelarAlarma()
      modifies this
      ensures !activa && hora == None && !sonandoActualmente
      ensures modo24h == old(modo24h)
    {
      activa := false;
      hora := None;
      sonandoActualmente := false;
    }

    /** `activarAlarma`, its state part. */
    method ActivarAlarma()
      modifies this
      ensures sonandoActualmente
      ensures activa == old(activa) && hora == old(hora) && modo24h == old(modo24h)
    {
      sonandoActualmente := true;
    }

    /** `detenerAlarma`. */
    method DetenerAlarma()
      modifies this
      ensures !activa && hora == None && !sonandoActualmente
      ensures modo24h == old(modo24h)
    {
      sonandoActualmente := false;
      activa := false;
      hora := None;
    }

    /** The alarm check of `actualizarReloj` at hour `h` and minute `m` (24-hour, whatever the mode). */
    method Tick(h: nat, m: nat)
      modifies this
      ensures sonandoActualmente == (old(sonandoActualmente) || Fires(old(activa), old(hora), old(sonandoActualmente), h, m))
      ensures activa == old(activa) && hora == old(hora) && modo24h == old(modo24h)
    {
      if activa && !sonandoActualmente {
        var horaActualFormato := HoraFormato(h, m);
        if Some(horaActualFormato) == hora {
          ActivarAlarma();
        }
      }
    }

    /**
     * `toggleModo` at hour `h` and minute `m`: flips the mode, then refreshes
     * the clock, whose alarm check may set the alarm ringing.
     */
    method ToggleModo(h: nat, m: nat)
      modifies this
      ensures modo24h == !old(modo24h)
      ensures sonandoActualmente == (old(sonandoActualmente) || Fires(old(activa), old(hora), old(sonandoActualmente), h, m))
      ensures activa == old(activa) && hora == old(hora)
    {
      modo24h := !modo24h;
      Tick(h, m);
    }
  }
}
