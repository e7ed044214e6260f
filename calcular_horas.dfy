/**
 * The punch-to-hours reconciler `calcularHorasDeMarcacoes`
 * (src/utils/calcularHoras.ts): it sorts a copy of the punch list by instant
 * and adds up, for every ADJACENT clock-in / clock-out pair of the sorted
 * list, the whole minutes between the two; the result is those minutes / 60.
 *
 * Hours are `real`, so `minutes / 60` is exact here where JavaScript has a
 * double.
 */
module CalcularHoras {
  import opened Marcacoes
  import opened Ordenacao
  import opened Texto

  const MsPorMinuto: int := 60000

  /** `differenceInMinutes(fim, inicio)` of date-fns: whole minutes, truncated toward zero. */
  function DiferencaEmMinutos(fim: int, inicio: int): (m: int)
    ensures fim >= inicio ==> 0 <= m && m * MsPorMinuto <= fim - inicio < (m + 1) * MsPorMinuto
    ensures fim < inicio ==> m <= 0 && (m - 1) * MsPorMinuto < fim - inicio <= m * MsPorMinuto
  {
    var d := fim - inicio;
    if d >= 0 then d / MsPorMinuto else -((-d) / MsPorMinuto)
  }

  /** Whether positions `i` and `i + 1` form a counted pair: clock-in directly followed by clock-out. */
  predicate ParContado(s: seq<Marcacao>, i: int)
    requires 0 <= i < |s| - 1
  {
    s[i].tipo == Entrada && s[i + 1].tipo == Saida
  }

  /** What positions `i`, `i + 1` add to the total. */
  function Contribuicao(s: seq<Marcacao>, i: int): int
    requires 0 <= i < |s| - 1
  {
    if ParContado(s, i) then DiferencaEmMinutos(s[i + 1].dataHora, s[i].dataHora) else 0
  }

  /** The minutes of every counted adjacent pair of `s`, taken in the order given. */
  function MinutosDosPares(s: seq<Marcacao>): int {
    if |s| < 2 then 0 else MinutosDosPares(s[..|s| - 1]) + Contribuicao(s, |s| - 2)
  }

  /** The whole minutes `calcularHorasDeMarcacoes` adds up before dividing by 60. */
  function MinutosTrabalhados(s: seq<Marcacao>): int {
    if |s| < 2 then 0 else MinutosDosPares(Ordenar(s))
  }

  /** The value `calcularHorasDeMarcacoes` returns. */
  function HorasDeMarcacoes(s: seq<Marcacao>): real {
    MinutosTrabalhados(s) as real / 60.0
  }

  /**
   * The reconciler itself. It has no `modifies` clause: it sorts a fresh
   * copy, so the caller's array keeps its contents and order.
   */
  method CalcularHorasDeMarcacoes(marcacoes: array<Marcacao>) returns (horas: real)
    ensures horas == HorasDeMarcacoes(marcacoes[..])
    ensures marcacoes.Length < 2 ==> horas == 0.0
    ensures horas >= 0.0
  {
    HorasNaoNegativas(marcacoes[..]);
    if marcacoes.Length < 2 {
      return 0.0;
    }
    var copia := marcacoes[..];
    var sorted := new Marcacao[|copia|](i requires 0 <= i < |copia| => copia[i]);
    assert sorted[..] == copia;
    OrdenarPorHorario(sorted);
    var totalMinutos := SomarPares(sorted);
    horas := totalMinutos as real / 60.0;
  }

  /** The loop of the reconciler: every clock-in directly followed by a clock-out adds its whole minutes. */
  method SomarPares(a: array<Marcacao>) returns (total: int)
    ensures total == MinutosDosPares(a[..])
  {
    total := 0;
    var i := 0;
    while i + 1 < a.Length
      invariant 0 <= i
      invariant i + 1 <= a.Length ==> total == MinutosDosPares(a[..i + 1])
      invariant a.Length == 0 ==> i == 0 && total == 0
      invariant a.Length > 0 ==> i + 1 <= a.Length
    {
      if a[i].tipo == Entrada && a[i + 1].tipo == Saida {
        total := total + DiferencaEmMinutos(a[i + 1].dataHora, a[i].dataHora);
      }
      MinutosDosParesPasso(a[..], i);
      i := i + 1;
    }
    if a.Length > 0 {
      assert a[..i + 1] == a[..];
    }
  }

  /** One more position adds the pair it closes. */
  lemma MinutosDosParesPasso(s: seq<Marcacao>, i: nat)
    requires i + 2 <= |s|
    ensures MinutosDosPares(s[..i + 2]) == MinutosDosPares(s[..i + 1]) + Contribuicao(s, i)
  {
    assert s[..i + 2][..i + 1] == s[..i + 1];
  }

  /** In ascending order every counted pair has its clock-out not before its clock-in. */
  lemma {:induction false} MinutosDosParesNaoNegativos(s: seq<Marcacao>)
    requires Ordenada(s)
    ensures MinutosDosPares(s) >= 0
  {
    if |s| >= 2 {
      MinutosDosParesNaoNegativos(s[..|s| - 1]);
    }
  }

  /** The reconciler never returns a negative number, and its result is a whole number of minutes. */
  lemma HorasNaoNegativas(s: seq<Marcacao>)
    ensures MinutosTrabalhados(s) >= 0
    ensures HorasDeMarcacoes(s) >= 0.0
    ensures HorasDeMarcacoes(s) * 60.0 == MinutosTrabalhados(s) as real
  {
    if |s| >= 2 {
      MinutosDosParesNaoNegativos(Ordenar(s));
    }
  }

  /**
   * Counted pairs never overlap: in ascending order the counted minutes fit
   * in the span from the first to the last punch.
   */
  lemma {:induction false} MinutosDosParesLimitados(s: seq<Marcacao>)
    requires Ordenada(s) && |s| >= 1
    ensures MinutosDosPares(s) * MsPorMinuto <= s[|s| - 1].dataHora - s[0].dataHora
  {
    if |s| >= 2 {
      var ini := s[..|s| - 1];
      MinutosDosParesLimitados(ini);
    }
  }

  /**
   * When every punch lies in `[inicio, fim]`, the reconciled hours are at
   * most the whole minutes of that span, divided by 60.
   */
  lemma HorasLimitadasPeloIntervalo(s: seq<Marcacao>, inicio: int, fim: int)
    requires inicio <= fim
    requires forall i :: 0 <= i < |s| ==> inicio <= s[i].dataHora <= fim
    ensures MinutosTrabalhados(s) * MsPorMinuto <= fim - inicio
    ensures HorasDeMarcacoes(s) <= ((fim - inicio) / MsPorMinuto) as real / 60.0
  {
    var m := MinutosTrabalhados(s);
    if |s| >= 2 {
      var u := Ordenar(s);
      MinutosDosParesLimitados(u);
      assert inicio <= u[0].dataHora && u[|u| - 1].dataHora <= fim by {
        assert u[0] in multiset(s) && u[|u| - 1] in multiset(s);
      }
    }
    HorasNaoNegativas(s);
    var k := (fim - inicio) / MsPorMinuto;
    assert m <= k;
    assert m as real <= k as real;
  }

  /** With pairwise distinct instants the result does not depend on the input order. */
  lemma HorasIndependemDaOrdem(s1: seq<Marcacao>, s2: seq<Marcacao>)
    requires multiset(s1) == multiset(s2)
    requires HorariosDistintos(s1)
    ensures HorasDeMarcacoes(s1) == HorasDeMarcacoes(s2)
  {
    assert |s1| == |multiset(s1)| == |s2|;
    OrdenarIndependeDaOrdem(s1, s2);
  }

  /** The scan over three punches looks at positions (0, 1) and (1, 2). */
  lemma MinutosDeTres(s: seq<Marcacao>)
    requires |s| == 3
    ensures MinutosDosPares(s) == Contribuicao(s, 0) + Contribuicao(s, 1)
  {
    var ab := s[..2];
    assert ab[..1] == [s[0]];
    assert MinutosDosPares(ab) == Contribuicao(s, 0);
  }

  /** Three punches already in ascending order: both adjacent pairs are looked at, in place. */
  lemma TresEmOrdem(s: seq<Marcacao>)
    requires |s| == 3 && s[0].dataHora <= s[1].dataHora <= s[2].dataHora
    ensures MinutosTrabalhados(s) == Contribuicao(s, 0) + Contribuicao(s, 1)
  {
    assert Ordenar(s) == s by {
      assert Ordenada(s);
      OrdenarOrdenada(s);
    }
    MinutosDeTres(s);
  }

  /** Four punches already in ascending order: the three adjacent pairs are looked at, in place. */
  lemma QuatroEmOrdem(s: seq<Marcacao>)
    requires |s| == 4 && s[0].dataHora <= s[1].dataHora <= s[2].dataHora <= s[3].dataHora
    ensures MinutosTrabalhados(s) == Contribuicao(s, 0) + Contribuicao(s, 1) + Contribuicao(s, 2)
  {
    assert Ordenar(s) == s by {
      assert Ordenada(s);
      OrdenarOrdenada(s);
    }
    var abc := s[..3];
    assert MinutosDosPares(abc) == Contribuicao(s, 0) + Contribuicao(s, 1) by {
      MinutosDeTres(abc);
    }
    assert MinutosDosPares(s) == MinutosDosPares(abc) + Contribuicao(s, 2);
  }

  /** A repeated clock-in: only the later one is paired, the earlier is dropped. */
  lemma EntradaRepetidaDescartada(a: Marcacao, b: Marcacao, c: Marcacao)
    requires a.tipo == Entrada && b.tipo == Entrada && c.tipo == Saida
    requires a.dataHora <= b.dataHora <= c.dataHora
    ensures MinutosTrabalhados([a, b, c]) == DiferencaEmMinutos(c.dataHora, b.dataHora)
  {
    TresEmOrdem([a, b, c]);
  }

  /** A trailing clock-in without a clock-out adds nothing. */
  lemma EntradaFinalNaoConta(a: Marcacao, b: Marcacao, c: Marcacao)
    requires a.tipo == Entrada && b.tipo == Saida && c.tipo == Entrada
    requires a.dataHora <= b.dataHora <= c.dataHora
    ensures MinutosTrabalhados([a, b, c]) == DiferencaEmMinutos(b.dataHora, a.dataHora)
  {
    TresEmOrdem([a, b, c]);
  }

  /** A punch of type `tipo` at `hora`:`minuto` of the day starting at instant `dia`. */
  function Batida(tipo: Tipo, dia: int, hora: int, minuto: int): Marcacao {
    Marcacao("", "", dia + (hora * 60 + minuto) * MsPorMinuto, tipo, Wrappers.None, Wrappers.None, Wrappers.None, Wrappers.None)
  }

  /** [in 09:00, in 10:00, out 18:00] is 8 hours, not 9. */
  lemma ExemploEntradaRepetida(dia: int)
    ensures HorasDeMarcacoes([Batida(Entrada, dia, 9, 0), Batida(Entrada, dia, 10, 0), Batida(Saida, dia, 18, 0)]) == 8.0
  {
    var a, b, c := Batida(Entrada, dia, 9, 0), Batida(Entrada, dia, 10, 0), Batida(Saida, dia, 18, 0);
    assert MinutosTrabalhados([a, b, c]) == 480 by {
      EntradaRepetidaDescartada(a, b, c);
      assert c.dataHora - b.dataHora == 480 * MsPorMinuto;
    }
  }

  /** [in 09:00, out 12:00, in 13:00] is 3 hours: the last clock-in adds nothing. */
  lemma ExemploEntradaFinal(dia: int)
    ensures HorasDeMarcacoes([Batida(Entrada, dia, 9, 0), Batida(Saida, dia, 12, 0), Batida(Entrada, dia, 13, 0)]) == 3.0
  {
    var a, b, c := Batida(Entrada, dia, 9, 0), Batida(Saida, dia, 12, 0), Batida(Entrada, dia, 13, 0);
    assert MinutosTrabalhados([a, b, c]) == 180 by {
      EntradaFinalNaoConta(a, b, c);
      assert b.dataHora - a.dataHora == 180 * MsPorMinuto;
    }
  }

  /** [in 09:00, out 17:30] is 8.5 hours exactly. */
  lemma ExemploUmPar(dia: int)
    ensures HorasDeMarcacoes([Batida(Entrada, dia, 9, 0), Batida(Saida, dia, 17, 30)]) == 8.5
  {
    var s := [Batida(Entrada, dia, 9, 0), Batida(Saida, dia, 17, 30)];
    assert MinutosTrabalhados(s) == 510 by {
      OrdenarOrdenada(s);
      assert s[..1] == [s[0]];
      assert s[1].dataHora - s[0].dataHora == 510 * MsPorMinuto;
      assert DiferencaEmMinutos(s[1].dataHora, s[0].dataHora) == 510;
      assert MinutosDosPares(s) == Contribuicao(s, 0);
    }
  }

  /**
   * Adjacent pairs only, not the latest open clock-in: of [in, in, out, out]
   * only the inner pair is paid.
   */
  lemma EntradasAninhadas(a: Marcacao, b: Marcacao, c: Marcacao, d: Marcacao)
    requires a.tipo == Entrada && b.tipo == Entrada && c.tipo == Saida && d.tipo == Saida
    requires a.dataHora <= b.dataHora <= c.dataHora <= d.dataHora
    ensures MinutosTrabalhados([a, b, c, d]) == DiferencaEmMinutos(c.dataHora, b.dataHora)
  {
    QuatroEmOrdem([a, b, c, d]);
  }

  /**
   * [in 08:00, in 09:00, out 12:00, out 17:00] is 3 hours, where matching
   * each clock-out with the latest open clock-in would give 3 + 9.
   */
  lemma ExemploEntradasAninhadas(dia: int)
    ensures HorasDeMarcacoes([Batida(Entrada, dia, 8, 0), Batida(Entrada, dia, 9, 0),
                              Batida(Saida, dia, 12, 0), Batida(Saida, dia, 17, 0)]) == 3.0
  {
    var a, b, c, d := Batida(Entrada, dia, 8, 0), Batida(Entrada, dia, 9, 0),
                      Batida(Saida, dia, 12, 0), Batida(Saida, dia, 17, 0);
    assert MinutosTrabalhados([a, b, c, d]) == 180 by {
      EntradasAninhadas(a, b, c, d);
      assert c.dataHora - b.dataHora == 180 * MsPorMinuto;
    }
  }

  /**
   * With a clock-in and a clock-out at the same instant the input order
   * decides the result, since the sort keeps it: clock-in first pays
   * nothing, clock-out first pays up to the next clock-out.
   */
  lemma EmpateDependeDaOrdem(e: Marcacao, s: Marcacao, f: Marcacao)
    requires e.tipo == Entrada && s.tipo == Saida && f.tipo == Saida
    requires e.dataHora == s.dataHora <= f.dataHora
    ensures multiset([e, s, f]) == multiset([s, e, f])
    ensures MinutosTrabalhados([e, s, f]) == 0
    ensures MinutosTrabalhados([s, e, f]) == DiferencaEmMinutos(f.dataHora, e.dataHora)
  {
    EmpateEntradaPrimeiro(e, s, f);
    EmpateSaidaPrimeiro(e, s, f);
  }

  lemma EmpateEntradaPrimeiro(e: Marcacao, s: Marcacao, f: Marcacao)
    requires e.tipo == Entrada && s.tipo == Saida && f.tipo == Saida
    requires e.dataHora == s.dataHora <= f.dataHora
    ensures MinutosTrabalhados([e, s, f]) == 0
  {
    TresEmOrdem([e, s, f]);
  }

  lemma EmpateSaidaPrimeiro(e: Marcacao, s: Marcacao, f: Marcacao)
    requires e.tipo == Entrada && s.tipo == Saida && f.tipo == Saida
    requires e.dataHora == s.dataHora <= f.dataHora
    ensures MinutosTrabalhados([s, e, f]) == DiferencaEmMinutos(f.dataHora, e.dataHora)
  {
    TresEmOrdem([s, e, f]);
  }

  /** [in 09:00, out 09:00, out 10:00] is 0 hours but [out 09:00, in 09:00, out 10:00] is 1 hour. */
  lemma ExemploEmpate(dia: int)
    ensures HorasDeMarcacoes([Batida(Entrada, dia, 9, 0), Batida(Saida, dia, 9, 0), Batida(Saida, dia, 10, 0)]) == 0.0
    ensures HorasDeMarcacoes([Batida(Saida, dia, 9, 0), Batida(Entrada, dia, 9, 0), Batida(Saida, dia, 10, 0)]) == 1.0
  {
    var e, f := Batida(Entrada, dia, 9, 0), Batida(Saida, dia, 10, 0);
    EmpateDependeDaOrdem(e, Batida(Saida, dia, 9, 0), f);
    assert f.dataHora - e.dataHora == 60 * MsPorMinuto;
  }

  /** `Math.round`: the nearest integer, a half rounded up. */
  function ArredondarJs(x: real): (n: int)
    ensures n as real - 0.5 <= x < n as real + 0.5
  {
    (x + 0.5).Floor
  }

  /** `"{h}h {m, two digits}m"`, the layout `formatarHoras` writes. */
  function TextoHorasMinutos(h: int, m: int): string {
    IntParaTexto(h) + "h " + PadStart(IntParaTexto(m), 2, '0') + "m"
  }

  /**
   * `formatarHoras` as written: whole hours by `Math.floor`, then the
   * fraction of an hour turned into minutes by `Math.round`.
   */
  function FormatarHoras(horas: real): (texto: string)
    ensures exists h: int, m: int ::
              && h as real <= horas < h as real + 1.0
              && m as real - 0.5 <= (horas - h as real) * 60.0 < m as real + 0.5
              && texto == TextoHorasMinutos(h, m)
  {
    var (h, m) := HorasEMinutos(horas);
    TextoHorasMinutos(h, m)
  }

  /** The two numbers `formatarHoras` prints: `Math.floor(horas)` and `Math.round((horas - h) * 60)`. */
  function HorasEMinutos(horas: real): (hm: (int, int))
    ensures hm.0 as real <= horas < hm.0 as real + 1.0
    ensures 0 <= hm.1 <= 60
    ensures hm.1 as real - 0.5 <= (horas - hm.0 as real) * 60.0 < hm.1 as real + 0.5
  {
    var h := horas.Floor;
    (h, ArredondarJs((horas - h as real) * 60.0))
  }

  /**
   * For a whole number of minutes `total` (what the reconciler returns, over
   * 60), the text shows `total div 60` hours and `total mod 60` minutes.
   */
  lemma FormatarMinutosInteiros(total: int)
    ensures HorasEMinutos(total as real / 60.0) == (total / 60, total % 60)
    ensures FormatarHoras(total as real / 60.0) == TextoHorasMinutos(total / 60, total % 60)
  {
    var q, r := total / 60, total % 60;
    var horas := total as real / 60.0;
    var fracao := r as real / 60.0;
    assert horas == q as real + fracao by {
      assert total == 60 * q + r;
      assert total as real == 60.0 * q as real + r as real;
    }
    assert 0.0 <= fracao < 1.0;
    assert horas.Floor == q by {
      assert q as real <= horas < q as real + 1.0;
    }
    assert (horas - q as real) * 60.0 == r as real by {
      assert horas - q as real == fracao;
      assert fracao * 60.0 == r as real;
    }
    assert ArredondarJs(r as real) == r;
  }

  /** 8.5 hours is shown as "8h 30m". */
  lemma ExemploOitoEMeia()
    ensures FormatarHoras(8.5) == "8h 30m"
  {
    assert HorasEMinutos(8.5) == (8, 30) by {
      FormatarMinutosInteiros(510);
      assert 510 as real / 60.0 == 8.5;
    }
    TextoOitoHorasTrintaMinutos();
  }

  /** The layout of 8 hours and 30 minutes. */
  lemma TextoOitoHorasTrintaMinutos()
    ensures TextoHorasMinutos(8, 30) == "8h 30m"
  {
    assert IntParaTexto(8) == "8";
    assert IntParaTexto(30) == "30" by {
      assert NatParaTexto(30) == NatParaTexto(3) + [CaractereDigito(0)];
    }
    assert PadStart("30", 2, '0') == "30";
  }

  /** One minute is shown as "0h 01m". */
  lemma ExemploUmMinuto()
    ensures FormatarHoras(1.0 / 60.0) == "0h 01m"
  {
    assert HorasEMinutos(1.0 / 60.0) == (0, 1) by {
      FormatarMinutosInteiros(1);
      assert 1 as real / 60.0 == 1.0 / 60.0;
    }
    TextoZeroHorasUmMinuto();
  }

  /** The layout of 0 hours and 1 minute. */
  lemma TextoZeroHorasUmMinuto()
    ensures TextoHorasMinutos(0, 1) == "0h 01m"
  {
    TextoDeUmAlgarismo(0, 1);
    assert CaractereDigito(0) == '0' && CaractereDigito(1) == '1';
  }

  /** The layout of `h` hours and `m` minutes when both are single digits: the minutes get one leading zero. */
  lemma TextoDeUmAlgarismo(h: int, m: int)
    requires 0 <= h < 10 && 0 <= m < 10
    ensures TextoHorasMinutos(h, m) == [CaractereDigito(h)] + "h " + ['0', CaractereDigito(m)] + "m"
  {
    assert IntParaTexto(h) == [CaractereDigito(h)];
    assert IntParaTexto(m) == [CaractereDigito(m)];
    assert PadStart([CaractereDigito(m)], 2, '0') == Repetir('0', 1) + [CaractereDigito(m)];
  }

  /** The layout of 0 hours and 60 minutes. */
  lemma TextoZeroHorasSessentaMinutos()
    ensures TextoHorasMinutos(0, 60) == "0h 60m"
  {
    assert IntParaTexto(0) == "0" by {
      assert NatParaTexto(0) == [CaractereDigito(0)];
    }
    assert IntParaTexto(60) == "60" by {
      assert NatParaTexto(60) == NatParaTexto(6) + [CaractereDigito(0)];
    }
    assert PadStart("60", 2, '0') == "60";
  }

  /** 0.9999 hours holds no whole hour. */
  lemma QuaseUmaHoraSemHoraInteira()
    ensures (0.9999).Floor == 0
  {
  }

  /** 0.9999 hours is 59.994 minutes, which rounds to 60. */
  lemma QuaseUmaHoraEmMinutos()
    ensures ArredondarJs(0.9999 * 60.0) == 60
  {
    assert 0.9999 * 60.0 == 59.994;
  }

  /**
   * As written, a value just under a whole hour rounds its fraction up to
   * 60 minutes: 0.9999 hours is shown as "0h 60m".
   */
  lemma FormatarHorasSessentaMinutos()
    ensures FormatarHoras(0.9999) == "0h 60m"
  {
    assert FormatarHoras(0.9999) == TextoHorasMinutos(0, 60) by {
      QuaseUmaHoraSemHoraInteira();
      QuaseUmaHoraEmMinutos();
    }
    TextoZeroHorasSessentaMinutos();
  }

  /**
   * The evident intent: round to the nearest whole minute first, then split
   * it into hours and minutes, so the minute field is always 00 to 59.
   */
  function FormatarHorasCorrigido(horas: real): (texto: string)
    ensures exists total: int ::
              && total as real - 0.5 <= horas * 60.0 < total as real + 0.5
              && texto == TextoHorasMinutos(total / 60, total % 60)
  {
    var total := ArredondarJs(horas * 60.0);
    TextoHorasMinutos(total / 60, total % 60)
  }

  /** On whole minutes the corrected formatter agrees with the one as written. */
  lemma FormatarHorasCorrigidoConcorda(total: int)
    ensures FormatarHorasCorrigido(total as real / 60.0) == FormatarHoras(total as real / 60.0)
  {
    FormatarMinutosInteiros(total);
    assert (total as real / 60.0) * 60.0 == total as real;
    assert ArredondarJs(total as real) == total;
  }

  /** The corrected formatter shows 0.9999 hours as "1h 00m". */
  lemma FormatarHorasCorrigidoExemplo()
    ensures FormatarHorasCorrigido(0.9999) == "1h 00m"
  {
    assert FormatarHorasCorrigido(0.9999) == TextoHorasMinutos(1, 0) by {
      QuaseUmaHoraEmMinutos();
    }
    TextoUmaHoraZeroMinutos();
  }

  /** The layout of 1 hour and 0 minutes. */
  lemma TextoUmaHoraZeroMinutos()
    ensures TextoHorasMinutos(1, 0) == "1h 00m"
  {
    TextoDeUmAlgarismo(1, 0);
    assert CaractereDigito(1) == '1' && CaractereDigito(0) == '0';
  }
}
