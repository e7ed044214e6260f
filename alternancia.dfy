/**
 * What the three punch-handling parts say together about an employee who
 * punches only through the button. The button offers the type that follows
 * the punch before (on the employee's screen, the last punch of the week so
 * far), so a run of button punches alternates, and it starts with a
 * clock-in unless the punch before it was a clock-in. For a run that starts
 * with a clock-in the reconciler pays every (clock-in, clock-out) pair. The
 * forgotten clock-out check flags a day of button punches exactly when its
 * count is odd, or even when the punch before the day was a clock-in.
 */
module Alternancia {
  import opened Wrappers
  import opened Marcacoes
  import opened Ordenacao
  import opened CalcularHoras
  import opened RegistrarPonto
  import opened VerificarPontoEsquecido

  /**
   * Each type is the one the button offered after the punch before it; the
   * first follows `anterior`, the type of the punch before the run, if any.
   */
  ghost predicate PeloBotaoApos(anterior: Option<Tipo>, tipos: seq<Tipo>) {
    && (|tipos| > 0 ==> tipos[0] == ProximoTipo(anterior))
    && forall i :: 0 <= i < |tipos| - 1 ==> tipos[i + 1] == ProximoTipo(Some(tipos[i]))
  }

  /** A run of button punches with no punch before it, so its first punch is a clock-in. */
  ghost predicate PeloBotao(tipos: seq<Tipo>) {
    PeloBotaoApos(None, tipos)
  }

  /** Clock-in at even positions, clock-out at odd ones. */
  function TipoNaPosicao(i: nat): Tipo {
    if i % 2 == 0 then Entrada else Saida
  }

  predicate Alternada(tipos: seq<Tipo>) {
    forall i :: 0 <= i < |tipos| ==> tipos[i] == TipoNaPosicao(i)
  }

  lemma {:induction false} AlternadaAte(tipos: seq<Tipo>, i: nat)
    requires PeloBotao(tipos) && i < |tipos|
    ensures tipos[i] == TipoNaPosicao(i)
  {
    if i > 0 {
      AlternadaAte(tipos, i - 1);
      assert tipos[i] == ProximoTipo(Some(tipos[i - 1]));
    }
  }

  /**
   * A run of button punches with no punch before it is exactly an
   * alternating list starting with a clock-in.
   */
  lemma PeloBotaoSseAlternada(tipos: seq<Tipo>)
    ensures PeloBotao(tipos) <==> Alternada(tipos)
  {
    if PeloBotao(tipos) {
      forall i | 0 <= i < |tipos|
        ensures tipos[i] == TipoNaPosicao(i)
      {
        AlternadaAte(tipos, i);
      }
    }
    if Alternada(tipos) {
      forall i | 0 <= i < |tipos| - 1
        ensures tipos[i + 1] == ProximoTipo(Some(tipos[i]))
      {
        assert tipos[i] == TipoNaPosicao(i);
        assert tipos[i + 1] == TipoNaPosicao(i + 1);
      }
    }
  }

  /**
   * In a run of button punches, position `i` is a clock-in exactly when `i`
   * is even, unless the punch before the run was a clock-in, which flips it.
   */
  lemma {:induction false} TipoApos(anterior: Option<Tipo>, tipos: seq<Tipo>, i: nat)
    requires PeloBotaoApos(anterior, tipos) && i < |tipos|
    ensures tipos[i] == Entrada <==> (i % 2 == 0) != (anterior == Some(Entrada))
  {
    if i > 0 {
      TipoApos(anterior, tipos, i - 1);
      assert tipos[i] == ProximoTipo(Some(tipos[i - 1]));
    }
  }

  /** The types of a grouped list, in order. */
  function TiposDosRegistros(arr: seq<Registro>): (tipos: seq<Tipo>)
    ensures |tipos| == |arr| && forall i :: 0 <= i < |arr| ==> tipos[i] == arr[i].tipo
  {
    seq(|arr|, i requires 0 <= i < |arr| => arr[i].tipo)
  }

  /** The types of a list of markings, in order: those of its `{tipo, data_hora}` entries. */
  function TiposDe(s: seq<Marcacao>): (tipos: seq<Tipo>)
    ensures |tipos| == |s| && forall i :: 0 <= i < |s| ==> tipos[i] == s[i].tipo
  {
    TiposDosRegistros(seq(|s|, i requires 0 <= i < |s| => Registro(s[i].tipo, s[i].dataHora)))
  }

  /** The minutes of the pairs (0, 1), (2, 3), ...; a last unpaired punch adds nothing. */
  function SomaParesAlternados(s: seq<Marcacao>): int {
    if |s| < 2 then 0
    else if |s| % 2 == 1 then SomaParesAlternados(s[..|s| - 1])
    else SomaParesAlternados(s[..|s| - 2]) + DiferencaEmMinutos(s[|s| - 1].dataHora, s[|s| - 2].dataHora)
  }

  /** On an alternating list the adjacent-pair scan counts exactly the pairs (2k, 2k + 1). */
  lemma {:induction false} ParesAlternados(s: seq<Marcacao>)
    requires Alternada(TiposDe(s))
    ensures MinutosDosPares(s) == SomaParesAlternados(s)
  {
    if |s| >= 2 {
      var n := |s|;
      var ini := s[..n - 1];
      assert Alternada(TiposDe(ini)) by {
        forall i | 0 <= i < |ini|
          ensures TiposDe(ini)[i] == TipoNaPosicao(i)
        {
          assert ini[i] == s[i];
          assert TiposDe(s)[i] == TipoNaPosicao(i);
        }
      }
      ParesAlternados(ini);
      assert s[n - 2].tipo == TipoNaPosicao(n - 2) by {
        assert TiposDe(s)[n - 2] == TipoNaPosicao(n - 2);
      }
      assert s[n - 1].tipo == TipoNaPosicao(n - 1) by {
        assert TiposDe(s)[n - 1] == TipoNaPosicao(n - 1);
      }
      if n % 2 == 0 {
        assert ini[..n - 2] == s[..n - 2];
        assert Contribuicao(s, n - 2) == DiferencaEmMinutos(s[n - 1].dataHora, s[n - 2].dataHora);
      } else {
        assert Contribuicao(s, n - 2) == 0;
      }
    }
  }

  /**
   * For a run of button punches with no punch before it, in time order,
   * the reconciler pays every clock-in up to the clock-out that follows it.
   */
  lemma ReconciliadorContaTodosOsPares(s: seq<Marcacao>)
    requires PeloBotao(TiposDe(s)) && Ordenada(s)
    ensures MinutosTrabalhados(s) == SomaParesAlternados(s)
    ensures HorasDeMarcacoes(s) == SomaParesAlternados(s) as real / 60.0
  {
    PeloBotaoSseAlternada(TiposDe(s));
    OrdenarOrdenada(s);
    ParesAlternados(s);
  }

  /**
   * A non-empty run of button punches ends in a clock-in exactly when its
   * length is odd, or even when the punch before it was a clock-in.
   */
  lemma UltimaEntradaSseImpar(anterior: Option<Tipo>, arr: seq<Registro>)
    requires PeloBotaoApos(anterior, TiposDosRegistros(arr))
    ensures UltimaEEntrada(arr) <==> arr != [] && (|arr| % 2 == 1) != (anterior == Some(Entrada))
  {
    if arr != [] {
      TipoApos(anterior, TiposDosRegistros(arr), |arr| - 1);
    }
  }

  /**
   * When an employee's punches of the day were all made through the
   * button, after a punch of type `anterior` (or none), the forgotten
   * clock-out check flags them exactly when they punched that day and
   * the count is odd, or even when the punch before the day was a clock-in
   * (a clock-out forgotten on an earlier day).
   */
  lemma SinalizadoSseImpar(ms: seq<Marcacao>, u: string, anterior: Option<Tipo>)
    requires PeloBotaoApos(anterior, TiposDosRegistros(RegistrosDe(ms, u)))
    ensures u in Esquecidos(ms) <==>
              RegistrosDe(ms, u) != [] && (|RegistrosDe(ms, u)| % 2 == 1) != (anterior == Some(Entrada))
  {
    SinalizadoSseListaTerminaEmEntrada(ms, u);
    UltimaEntradaSseImpar(anterior, RegistrosDe(ms, u));
  }
}
