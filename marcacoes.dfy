/**
 * A punch ("marcação") as stored in the `marcacoes` table. The instant
 * `dataHora` is a number of milliseconds since the epoch: the ISO text the
 * table holds is parsed by the callers, which is not part of this model.
 */
module Marcacoes {
  import opened Wrappers

  /** The column `tipo`: `'entrada'` (clock-in) or `'saida'` (clock-out). */
  datatype Tipo = Entrada | Saida

  datatype Marcacao = Marcacao(
    id: string,
    usuarioId: string,
    dataHora: int,
    tipo: Tipo,
    editadoPor: Option<string>,
    latitude: Option<real>,
    longitude: Option<real>,
    precisaoMetros: Option<real>)
}
