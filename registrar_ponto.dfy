/**
 * The punch button (src/components/RegistrarPontoButton.tsx): it offers the
 * punch type that follows the employee's last one, reads the browser's
 * position when it can, inserts the new punch and reports the outcome,
 * holding its `loading` flag for the duration.
 *
 * The browser position and the insert's outcome are parameters; the toast
 * texts are returned instead of shown.
 */
module RegistrarPonto {
  import opened Wrappers
  import opened Marcacoes

  /** `proximoTipo`: a clock-out after a clock-in, a clock-in otherwise (also with no last punch). */
  function ProximoTipo(ultima: Option<Tipo>): (proximo: Tipo)
    ensures proximo == Saida <==> ultima == Some(Entrada)
    ensures proximo != (if ultima.Some? then ultima.value else Saida)
  {
    if ultima == Some(Entrada) then Saida else Entrada
  }

  /** The position fields spread into the insert. */
  datatype Localizacao = Localizacao(latitude: real, longitude: real, precisaoMetros: Option<real>)

  /** The object given to `insert`: `usuario_id`, `tipo` and, when known, the position. */
  datatype PayloadInsercao = PayloadInsercao(usuarioId: string, tipo: Tipo, localizacao: Option<Localizacao>)

  /**
   * The insert payload: the position fields are spread in only when both
   * latitude and longitude are known; the accuracy rides along as it is.
   */
  function MontarPayload(usuarioId: string, tipo: Tipo, latitude: Option<real>, longitude: Option<real>,
                         precisaoMetros: Option<real>): (p: PayloadInsercao)
    ensures p.usuarioId == usuarioId && p.tipo == tipo
    ensures p.localizacao.Some? <==> latitude.Some? && longitude.Some?
    ensures p.localizacao.Some? ==>
              p.localizacao.value == Localizacao(latitude.value, longitude.value, precisaoMetros)
  {
    if latitude.Some? && longitude.Some? then
      PayloadInsercao(usuarioId, tipo, Some(Localizacao(latitude.value, longitude.value, precisaoMetros)))
    else
      PayloadInsercao(usuarioId, tipo, None)
  }

  /** A known accuracy alone never makes a position: without both coordinates the payload is the bare two fields. */
  lemma PayloadSemCoordenadas(usuarioId: string, tipo: Tipo, latitude: Option<real>, longitude: Option<real>,
                              precisaoMetros: Option<real>)
    requires latitude.None? || longitude.None?
    ensures MontarPayload(usuarioId, tipo, latitude, longitude, precisaoMetros)
         == PayloadInsercao(usuarioId, tipo, None)
  {
  }

  /** What `navigator.geolocation` gives: no API, a refusal or timeout, or a position. */
  datatype Geolocalizacao =
    | SemSuporte
    | Falhou
    | Posicao(latitude: real, longitude: real, precisao: Option<real>)

  /** The toast shown at the end. */
  datatype Aviso = Sucesso(texto: string) | Erro(texto: string)

  /** The label of a punch type in the success toast. */
  function Rotulo(tipo: Tipo): string {
    match tipo
    case Entrada => "Entrada"
    case Saida => "Saída"
  }

  class RegistrarPontoButton {
    const usuarioId: string
    const ultimaMarcacao: Option<Tipo>
    /** The `loading` state, which disables the button. */
    var loading: bool
    /** Every value given to `setLoading`, in order. */
    ghost var transicoes: seq<bool>

    constructor (usuarioId: string, ultimaMarcacao: Option<Tipo>)
      ensures this.usuarioId == usuarioId && this.ultimaMarcacao == ultimaMarcacao
      ensures !loading && transicoes == []
    {
      this.usuarioId := usuarioId;
      this.ultimaMarcacao := ultimaMarcacao;
      loading := false;
      transicoes := [];
    }

    /**
     * `handleRegistrar`: `loading` goes up on entry and back down on the
     * success and the error path alike. A missing or failed position is
     * swallowed and the punch is inserted without one; a failed insert
     * ends in the error toast without calling `onSuccess`.
     */
    method HandleRegistrar(geo: Geolocalizacao, insercaoFalhou: bool, temOnSuccess: bool)
      returns (payload: PayloadInsercao, aviso: Aviso, chamouOnSuccess: bool)
      modifies this
      ensures !loading
      ensures transicoes == old(transicoes) + [true, false]
      ensures payload.usuarioId == usuarioId && payload.tipo == ProximoTipo(ultimaMarcacao)
      ensures payload.localizacao
           == if geo.Posicao? then Some(Localizacao(geo.latitude, geo.longitude, geo.precisao)) else None
      ensures insercaoFalhou ==> aviso == Erro("Erro ao registrar ponto") && !chamouOnSuccess
      ensures !insercaoFalhou ==>
                aviso == Sucesso("Ponto registrado: " + Rotulo(ProximoTipo(ultimaMarcacao)))
                && chamouOnSuccess == temOnSuccess
    {
      loading := true;
      transicoes := transicoes + [true];
      var latitude: Option<real> := None;
      var longitude: Option<real> := None;
      var precisaoMetros: Option<real> := None;
      if !geo.SemSuporte? {
        if geo.Posicao? {
          latitude := Some(geo.latitude);
          longitude := Some(geo.longitude);
          precisaoMetros := geo.precisao;
        }
      }
      var proximo := ProximoTipo(ultimaMarcacao);
      payload := MontarPayload(usuarioId, proximo, latitude, longitude, precisaoMetros);
      if insercaoFalhou {
        aviso := Erro("Erro ao registrar ponto");
        chamouOnSuccess := false;
      } else {
        aviso := Sucesso("Ponto registrado: " + Rotulo(proximo));
        chamouOnSuccess := temOnSuccess;
      }
      loading := false;
      transicoes := transicoes + [false];
    }
  }
}
