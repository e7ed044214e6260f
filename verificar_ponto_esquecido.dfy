/**
 * The forgotten clock-out check (src/app/api/admin/verificar-ponto-esquecido/route.ts):
 * a cron-called GET handler that reads today's punches in ascending time
 * order, groups them per employee in a `Map` (keys in first-arrival order),
 * and flags every employee whose last punch of the day is a clock-in.
 *
 * The Supabase queries are parameters: the punch query's outcome and the
 * employee rows fetched for the flagged ids are given to the handler.
 */
module VerificarPontoEsquecido {
  import opened Wrappers
  import opened Texto
  import opened Marcacoes
  import opened Ordenacao
  import opened ParseDateLocal

  /** The `{ tipo, data_hora }` object pushed into an employee's list. */
  datatype Registro = Registro(tipo: Tipo, dataHora: int)

  /** A row of `usuarios` as selected (`id, nome, email`). */
  datatype Usuario = Usuario(id: string, nome: string, email: string)

  /** The outcome of the punch query: its error, or its (possibly null) data. */
  datatype Consulta = Falhou(mensagem: string) | Dados(marcacoes: Option<seq<Marcacao>>)

  /** The JSON the handler answers with. */
  datatype Resposta =
    | Erro(status: int, erro: string)
    | Ok(esquecidos: seq<Usuario>, mensagem: string)

  // ---------------------------------------------------------------- guard

  /**
   * The bearer-secret guard: a set, non-empty `CRON_SECRET` demands that the
   * `authorization` header be exactly `"Bearer " + secret`; an unset or
   * empty secret lets every request through.
   */
  predicate Autorizado(cronSecret: Option<string>, authorization: Option<string>) {
    match cronSecret
    case None => true
    case Some(segredo) => segredo == [] || authorization == Some("Bearer " + segredo)
  }

  /** With a secret configured, only the exact header passes: no other text and no missing header. */
  lemma AutorizadoSoComCabecalhoExato(segredo: string, authorization: Option<string>)
    requires segredo != []
    ensures Autorizado(Some(segredo), authorization) <==> authorization == Some("Bearer " + segredo)
    ensures !Autorizado(Some(segredo), None)
    ensures !Autorizado(Some(segredo), Some(segredo))
  {
    assert |"Bearer " + segredo| > |segredo|;
  }

  // --------------------------------------------------------------- window

  /**
   * The query window: `new Date(y, m, d, 0, 0, 0)` and
   * `new Date(y, m, d, 23, 59, 59)` for today's local date.
   */
  function JanelaDoDia(hoje: DataLocal): (janela: (DataLocal, DataLocal))
    ensures janela.0.ano == hoje.ano && janela.0.mes == hoje.mes && janela.0.dia == hoje.dia
    ensures janela.1.ano == hoje.ano && janela.1.mes == hoje.mes && janela.1.dia == hoje.dia
    ensures janela.0.hora == 0 && janela.0.minuto == 0 && janela.0.segundo == 0 && janela.0.milissegundo == 0
    ensures janela.1.hora == 23 && janela.1.minuto == 59 && janela.1.segundo == 59
    ensures janela.1.milissegundo == 0
    ensures Antes(janela.0, janela.1)
  {
    (DataLocal(hoje.ano, hoje.mes, hoje.dia, 0, 0, 0, 0),
     DataLocal(hoje.ano, hoje.mes, hoje.dia, 23, 59, 59, 0))
  }

  /**
   * The window opens exactly where `parseDateToLocalStart` puts the start of
   * the same day, and closes one second early: the last 999 ms of the day,
   * which `parseDateToLocalEnd` includes, are outside it.
   */
  lemma JanelaPerdeUltimoSegundo(ano: string, mes: string, dia: string, hoje: DataLocal)
    requires SoDigitos(ano) && SoDigitos(mes) && SoDigitos(dia)
    requires PecasNumericas(ano + "-" + mes + "-" + dia)
    requires hoje.ano == ValorDecimal(ano) && hoje.mes == ValorDecimal(mes) - 1 && hoje.dia == ValorDecimal(dia)
    ensures JanelaDoDia(hoje).0 == ParseDateToLocalStart(ano + "-" + mes + "-" + dia)
    ensures Antes(JanelaDoDia(hoje).1, ParseDateToLocalEnd(ano + "-" + mes + "-" + dia))
  {
    ParseAnoMesDia(ano, mes, dia);
  }

  // ------------------------------------------------------------- grouping

  /** The list `porUsuario` holds for `u` after the markings `ms`: theirs, in query order. */
  function RegistrosDe(ms: seq<Marcacao>, u: string): (arr: seq<Registro>)
    ensures |arr| <= |ms|
  {
    if ms == [] then []
    else
      var m := ms[|ms| - 1];
      RegistrosDe(ms[..|ms| - 1], u) + (if m.usuarioId == u then [Registro(m.tipo, m.dataHora)] else [])
  }

  /** The keys of `porUsuario` in the `Map`'s insertion order: each id at its first marking. */
  function UsuariosEmOrdem(ms: seq<Marcacao>): (ordem: seq<string>)
    ensures forall u :: u in ordem ==> exists i :: 0 <= i < |ms| && ms[i].usuarioId == u
  {
    if ms == [] then []
    else
      var ordem := UsuariosEmOrdem(ms[..|ms| - 1]);
      var u := ms[|ms| - 1].usuarioId;
      if u in ordem then ordem else ordem + [u]
  }

  /** The `porUsuario` map after the grouping loop. */
  function Grupos(ms: seq<Marcacao>): map<string, seq<Registro>> {
    map u | u in UsuariosEmOrdem(ms) :: RegistrosDe(ms, u)
  }

  /** The last marking of `u` in `ms`, if any. */
  function UltimaDe(ms: seq<Marcacao>, u: string): (ultima: Option<Marcacao>)
    ensures ultima.Some? ==> ultima.value in ms && ultima.value.usuarioId == u
  {
    if ms == [] then None
    else if ms[|ms| - 1].usuarioId == u then Some(ms[|ms| - 1])
    else UltimaDe(ms[..|ms| - 1], u)
  }

  predicate SemRepeticao(s: seq<string>) {
    forall i, j :: 0 <= i < j < |s| ==> s[i] != s[j]
  }

  /** An id is a key exactly when it has a marking, and then its list is not empty. */
  lemma {:induction false} UsuarioPresente(ms: seq<Marcacao>, u: string)
    ensures u in UsuariosEmOrdem(ms) <==> RegistrosDe(ms, u) != []
    ensures RegistrosDe(ms, u) == [] <==> UltimaDe(ms, u) == None
    ensures UltimaDe(ms, u).Some? ==>
              RegistrosDe(ms, u)[|RegistrosDe(ms, u)| - 1]
                == Registro(UltimaDe(ms, u).value.tipo, UltimaDe(ms, u).value.dataHora)
  {
    if ms != [] {
      UsuarioPresente(ms[..|ms| - 1], u);
    }
  }

  /** No id marks `ms` when it has no last marking there. */
  lemma {:induction false} UltimaDeAusente(ms: seq<Marcacao>, u: string)
    ensures UltimaDe(ms, u) == None <==> forall i :: 0 <= i < |ms| ==> ms[i].usuarioId != u
  {
    if ms != [] {
      var ini := ms[..|ms| - 1];
      UltimaDeAusente(ini, u);
      assert forall i :: 0 <= i < |ini| ==> ini[i] == ms[i];
    }
  }

  /** The last marking of `u` is one of `u`'s markings, and no marking after it is `u`'s. */
  lemma {:induction false} UltimaDeEhAUltima(ms: seq<Marcacao>, u: string)
    ensures UltimaDe(ms, u).Some? ==>
              exists i :: 0 <= i < |ms| && ms[i] == UltimaDe(ms, u).value
                          && forall j :: i < j < |ms| ==> ms[j].usuarioId != u
  {
    if ms != [] && ms[|ms| - 1].usuarioId != u {
      var ini := ms[..|ms| - 1];
      UltimaDeEhAUltima(ini, u);
      if UltimaDe(ini, u).Some? {
        var i :| 0 <= i < |ini| && ini[i] == UltimaDe(ini, u).value
                 && forall j :: i < j < |ini| ==> ini[j].usuarioId != u;
        assert ms[i] == ini[i];
        forall j | i < j < |ms|
          ensures ms[j].usuarioId != u
        {
          if j < |ms| - 1 {
            assert ms[j] == ini[j];
          }
        }
      }
    }
  }

  /** Each key enters the `Map` once. */
  lemma {:induction false} UsuariosSemRepeticao(ms: seq<Marcacao>)
    ensures SemRepeticao(UsuariosEmOrdem(ms))
  {
    if ms != [] {
      UsuariosSemRepeticao(ms[..|ms| - 1]);
    }
  }

  /** One loop step: the marking's list gets it appended, a new id becomes the last key. */
  lemma GruposPasso(ms: seq<Marcacao>, m: Marcacao)
    ensures UsuariosEmOrdem(ms + [m])
         == if m.usuarioId in Grupos(ms) then UsuariosEmOrdem(ms) else UsuariosEmOrdem(ms) + [m.usuarioId]
    ensures Grupos(ms + [m])
         == Grupos(ms)[m.usuarioId := (if m.usuarioId in Grupos(ms) then Grupos(ms)[m.usuarioId] else [])
                                      + [Registro(m.tipo, m.dataHora)]]
  {
    var s, v := ms + [m], m.usuarioId;
    assert s[..|s| - 1] == ms;
    var novo := (if v in Grupos(ms) then Grupos(ms)[v] else []) + [Registro(m.tipo, m.dataHora)];
    assert RegistrosDe(s, v) == novo by {
      UsuarioPresente(ms, v);
    }
    assert forall u :: u != v ==> RegistrosDe(s, u) == RegistrosDe(ms, u);
    var g := Grupos(ms)[v := novo];
    assert Grupos(s).Keys == g.Keys;
    forall u | u in g
      ensures Grupos(s)[u] == g[u]
    {
    }
  }

  /**
   * The grouping loop: every marking is appended to the list of its
   * `usuario_id`, and a new id becomes the `Map`'s next key.
   */
  method AgruparPorUsuario(ms: seq<Marcacao>) returns (porUsuario: map<string, seq<Registro>>, ordem: seq<string>)
    ensures ordem == UsuariosEmOrdem(ms)
    ensures porUsuario == Grupos(ms)
  {
    porUsuario, ordem := map[], [];
    for i := 0 to |ms|
      invariant ordem == UsuariosEmOrdem(ms[..i])
      invariant porUsuario == Grupos(ms[..i])
    {
      var m := ms[i];
      assert ms[..i + 1] == ms[..i] + [m];
      GruposPasso(ms[..i], m);
      var arr := if m.usuarioId in porUsuario then porUsuario[m.usuarioId] else [];
      arr := arr + [Registro(m.tipo, m.dataHora)];
      if m.usuarioId !in porUsuario {
        ordem := ordem + [m.usuarioId];
      }
      porUsuario := porUsuario[m.usuarioId := arr];
    }
    assert ms[..|ms|] == ms;
  }

  /** The total length of the lists of the ids `us`. */
  function TotalRegistros(ms: seq<Marcacao>, us: seq<string>): nat {
    if us == [] then 0
    else TotalRegistros(ms, us[..|us| - 1]) + |RegistrosDe(ms, us[|us| - 1])|
  }

  /** One more marking adds one to the total exactly when its id is among `us`. */
  lemma {:induction false} TotalRegistrosPasso(ms: seq<Marcacao>, m: Marcacao, us: seq<string>)
    requires SemRepeticao(us)
    ensures TotalRegistros(ms + [m], us) == TotalRegistros(ms, us) + (if m.usuarioId in us then 1 else 0)
  {
    var s := ms + [m];
    assert s[..|s| - 1] == ms;
    if us != [] {
      var ini := us[..|us| - 1];
      assert SemRepeticao(ini);
      TotalRegistrosPasso(ms, m, ini);
      assert m.usuarioId in us <==> m.usuarioId in ini || m.usuarioId == us[|us| - 1] by {
        assert us == ini + [us[|us| - 1]];
      }
    }
  }

  /** The lists' lengths add up to the number of markings: each is in exactly one list. */
  lemma {:induction false} SomaDosTamanhos(ms: seq<Marcacao>)
    ensures TotalRegistros(ms, UsuariosEmOrdem(ms)) == |ms|
  {
    if ms != [] {
      var ini, m := ms[..|ms| - 1], ms[|ms| - 1];
      var o := UsuariosEmOrdem(ini);
      assert ms == ini + [m];
      SomaDosTamanhos(ini);
      UsuariosSemRepeticao(ini);
      TotalRegistrosPasso(ini, m, o);
      if m.usuarioId !in o {
        var o2 := o + [m.usuarioId];
        assert o2[..|o2| - 1] == o;
        UsuarioPresente(ini, m.usuarioId);
        assert RegistrosDe(ms, m.usuarioId) == [Registro(m.tipo, m.dataHora)];
      }
    }
  }

  /** Ascending by instant. */
  predicate RegistrosOrdenados(arr: seq<Registro>) {
    forall i, j :: 0 <= i < j < |arr| ==> arr[i].dataHora <= arr[j].dataHora
  }

  /** Each list keeps the ascending order of the query. */
  lemma {:induction false} RegistrosOrdenadosDe(ms: seq<Marcacao>, u: string)
    requires Ordenada(ms)
    ensures RegistrosOrdenados(RegistrosDe(ms, u))
  {
    if ms != [] {
      var ini, m := ms[..|ms| - 1], ms[|ms| - 1];
      assert Ordenada(ini);
      RegistrosOrdenadosDe(ini, u);
      var r := RegistrosDe(ini, u);
      forall k | 0 <= k < |r|
        ensures r[k].dataHora <= m.dataHora
      {
        RegistroVemDeMarcacao(ini, u, k);
      }
    }
  }

  /** Every entry of a list is the `{ tipo, data_hora }` of one of the markings. */
  lemma {:induction false} RegistroVemDeMarcacao(ms: seq<Marcacao>, u: string, k: nat)
    requires k < |RegistrosDe(ms, u)|
    ensures exists i :: 0 <= i < |ms| && ms[i].usuarioId == u
              && RegistrosDe(ms, u)[k] == Registro(ms[i].tipo, ms[i].dataHora)
  {
    var ini, m := ms[..|ms| - 1], ms[|ms| - 1];
    if k < |RegistrosDe(ini, u)| {
      RegistroVemDeMarcacao(ini, u, k);
      var i :| 0 <= i < |ini| && ini[i].usuarioId == u && RegistrosDe(ini, u)[k] == Registro(ini[i].tipo, ini[i].dataHora);
      assert ms[i] == ini[i];
    } else {
      assert RegistrosDe(ms, u)[k] == Registro(m.tipo, m.dataHora);
      assert ms[|ms| - 1] == m;
    }
  }

  // ------------------------------------------------------------- flagging

  /** `ultima?.tipo === 'entrada'` for the last element of a list. */
  predicate UltimaEEntrada(arr: seq<Registro>) {
    |arr| > 0 && arr[|arr| - 1].tipo == Entrada
  }

  /** `esquecidos` after `porUsuario.forEach` visits the keys `ordem` in order. */
  function Sinalizados(porUsuario: map<string, seq<Registro>>, ordem: seq<string>): seq<string>
    requires forall u :: u in ordem ==> u in porUsuario
  {
    if ordem == [] then []
    else
      var u := ordem[|ordem| - 1];
      Sinalizados(porUsuario, ordem[..|ordem| - 1]) + (if UltimaEEntrada(porUsuario[u]) then [u] else [])
  }

  /** The flagging loop over the `Map`'s entries in key order. */
  method SinalizarEsquecidos(porUsuario: map<string, seq<Registro>>, ordem: seq<string>) returns (esquecidos: seq<string>)
    requires forall u :: u in ordem ==> u in porUsuario
    ensures esquecidos == Sinalizados(porUsuario, ordem)
    ensures forall u :: u in esquecidos <==> u in ordem && UltimaEEntrada(porUsuario[u])
  {
    esquecidos := [];
    for i := 0 to |ordem|
      invariant esquecidos == Sinalizados(porUsuario, ordem[..i])
    {
      var arr := porUsuario[ordem[i]];
      if |arr| > 0 && arr[|arr| - 1].tipo == Entrada {
        esquecidos := esquecidos + [ordem[i]];
      }
      assert ordem[..i + 1][..i] == ordem[..i];
    }
    assert ordem[..|ordem|] == ordem;
    SinalizadosSse(porUsuario, ordem);
  }

  /** An id is flagged exactly when it is a key whose list ends in a clock-in. */
  lemma {:induction false} SinalizadosSse(porUsuario: map<string, seq<Registro>>, ordem: seq<string>)
    requires forall u :: u in ordem ==> u in porUsuario
    ensures forall u :: u in Sinalizados(porUsuario, ordem) <==> u in ordem && UltimaEEntrada(porUsuario[u])
  {
    if ordem != [] {
      var ini := ordem[..|ordem| - 1];
      SinalizadosSse(porUsuario, ini);
      assert ordem == ini + [ordem[|ordem| - 1]];
    }
  }

  /** The flagged ids keep the key order and so never repeat one. */
  lemma {:induction false} SinalizadosSemRepeticao(porUsuario: map<string, seq<Registro>>, ordem: seq<string>)
    requires forall u :: u in ordem ==> u in porUsuario
    requires SemRepeticao(ordem)
    ensures SemRepeticao(Sinalizados(porUsuario, ordem))
  {
    if ordem != [] {
      var ini := ordem[..|ordem| - 1];
      assert SemRepeticao(ini);
      SinalizadosSemRepeticao(porUsuario, ini);
      SinalizadosSse(porUsuario, ini);
      assert ordem[|ordem| - 1] !in ini;
    }
  }

  /** The ids the handler flags for the markings `ms`. */
  function Esquecidos(ms: seq<Marcacao>): seq<string> {
    Sinalizados(Grupos(ms), UsuariosEmOrdem(ms))
  }

  /** An employee is flagged exactly when their last marking of the window is a clock-in. */
  lemma EsquecidoSse(ms: seq<Marcacao>, u: string)
    ensures u in Esquecidos(ms) <==> UltimaDe(ms, u).Some? && UltimaDe(ms, u).value.tipo == Entrada
  {
    SinalizadosSse(Grupos(ms), UsuariosEmOrdem(ms));
    UsuarioPresente(ms, u);
  }

  /** An employee is flagged exactly when their list in `porUsuario` ends in a clock-in. */
  lemma SinalizadoSseListaTerminaEmEntrada(ms: seq<Marcacao>, u: string)
    ensures u in Esquecidos(ms) <==> UltimaEEntrada(RegistrosDe(ms, u))
  {
    SinalizadosSse(Grupos(ms), UsuariosEmOrdem(ms));
    UsuarioPresente(ms, u);
  }

  /** An employee without markings in the window is never flagged. */
  lemma SemMarcacaoNaoSinalizado(ms: seq<Marcacao>, u: string)
    requires forall i :: 0 <= i < |ms| ==> ms[i].usuarioId != u
    ensures u !in Esquecidos(ms)
  {
    UltimaDeAusente(ms, u);
    EsquecidoSse(ms, u);
  }

  /** No id appears twice among the flagged. */
  lemma EsquecidosSemRepeticao(ms: seq<Marcacao>)
    ensures SemRepeticao(Esquecidos(ms))
  {
    UsuariosSemRepeticao(ms);
    SinalizadosSemRepeticao(Grupos(ms), UsuariosEmOrdem(ms));
  }

  // -------------------------------------------------------------- handler

  const MensagemNenhum := "Nenhum ponto esquecido"

  /** `${n} funcionário(s) sem bater ponto de saída`. */
  function MensagemContagem(n: nat): (texto: string)
    ensures |NatParaTexto(n)| <= |texto| && SoDigitos(texto[..|NatParaTexto(n)|])
    ensures ValorDecimal(texto[..|NatParaTexto(n)|]) == n
    ensures texto[|NatParaTexto(n)|..] == " funcionário(s) sem bater ponto de saída"
  {
    ValorDeNatParaTexto(n);
    var texto := NatParaTexto(n) + " funcionário(s) sem bater ponto de saída";
    assert texto[..|NatParaTexto(n)|] == NatParaTexto(n);
    assert texto[|NatParaTexto(n)|..] == " funcionário(s) sem bater ponto de saída";
    texto
  }

  /**
   * The GET handler. The guard and the key check answer first; a failed
   * punch query answers with its message; otherwise the day's markings
   * (`data ?? []`) are grouped and flagged. The employee query runs only
   * when someone is flagged (`consultados` is the id list it is given), and
   * the message counts the flagged ids, not the employee rows returned.
   */
  method VerificarPontoEsquecido(
    cronSecret: Option<string>, authorization: Option<string>, serviceRoleKey: Option<string>,
    consulta: Consulta, usuarios: Option<seq<Usuario>>)
    returns (resposta: Resposta, consultados: Option<seq<string>>)
    ensures !Autorizado(cronSecret, authorization) ==> resposta == Erro(401, "Não autorizado")
    ensures Autorizado(cronSecret, authorization) && serviceRoleKey.GetOr([]) == [] ==>
              resposta == Erro(500, "SUPABASE_SERVICE_ROLE_KEY não configurada")
    ensures Autorizado(cronSecret, authorization) && serviceRoleKey.GetOr([]) != [] && consulta.Falhou? ==>
              resposta == Erro(500, consulta.mensagem)
    ensures Autorizado(cronSecret, authorization) && serviceRoleKey.GetOr([]) != [] && consulta.Dados? ==>
              var e := Esquecidos(consulta.marcacoes.GetOr([]));
              && (e == [] ==> resposta == Ok([], MensagemNenhum) && consultados == None)
              && (e != [] ==> resposta == Ok(usuarios.GetOr([]), MensagemContagem(|e|)) && consultados == Some(e))
    ensures resposta.Erro? || consulta.Falhou? ==> consultados == None
  {
    consultados := None;
    if !Autorizado(cronSecret, authorization) {
      return Erro(401, "Não autorizado"), consultados;
    }
    if serviceRoleKey.GetOr([]) == [] {
      return Erro(500, "SUPABASE_SERVICE_ROLE_KEY não configurada"), consultados;
    }
    if consulta.Falhou? {
      return Erro(500, consulta.mensagem), consultados;
    }
    var marcacoes := consulta.marcacoes.GetOr([]);
    var porUsuario, ordem := AgruparPorUsuario(marcacoes);
    var esquecidos := SinalizarEsquecidos(porUsuario, ordem);
    if |esquecidos| == 0 {
      return Ok([], MensagemNenhum), consultados;
    }
    consultados := Some(esquecidos);
    resposta := Ok(usuarios.GetOr([]), MensagemContagem(|esquecidos|));
  }
}
