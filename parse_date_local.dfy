/**
 * `parseDateToLocalStart` and `parseDateToLocalEnd`
 * (src/utils/parseDateLocal.ts): a `"yyyy-MM-dd"` text is split on `-` and
 * `T`, its first three pieces are read as numbers, and a local `Date` is
 * built at the first or the last millisecond of that day.
 *
 * A `Date` is modelled by the arguments of its constructor, `DataLocal`;
 * JavaScript's normalisation of out-of-range fields (month index -1, day 31
 * of a short month) is not part of this model.
 */
module ParseDateLocal {
  import opened Texto
  import opened Wrappers

  /** The fields `new Date(ano, mes, dia, hora, minuto, segundo, milissegundo)` is given; `mes` counts from 0. */
  datatype DataLocal = DataLocal(ano: int, mes: int, dia: int, hora: int, minuto: int, segundo: int, milissegundo: int)

  /** Chronological order of two field records (lexicographic, most significant field first). */
  predicate Antes(a: DataLocal, b: DataLocal) {
    if a.ano != b.ano then a.ano < b.ano
    else if a.mes != b.mes then a.mes < b.mes
    else if a.dia != b.dia then a.dia < b.dia
    else if a.hora != b.hora then a.hora < b.hora
    else if a.minuto != b.minuto then a.minuto < b.minuto
    else if a.segundo != b.segundo then a.segundo < b.segundo
    else a.milissegundo < b.milissegundo
  }

  /** The characters of the regular expression `/[-T]/`. */
  predicate Separador(c: char) {
    c == '-' || c == 'T'
  }

  /** The position of the first separator of `s`, or `|s|` when it has none. */
  function IndiceSeparador(s: string): (i: nat)
    ensures i <= |s|
    ensures i < |s| ==> Separador(s[i])
    ensures forall k :: 0 <= k < i ==> !Separador(s[k])
  {
    if s == [] then 0
    else if Separador(s[0]) then 0
    else 1 + IndiceSeparador(s[1..])
  }

  /** `s.split(/[-T]/)`: the pieces between separators, empty ones included. */
  function Dividir(s: string): (pecas: seq<string>)
    ensures |pecas| >= 1
    decreases |s|
  {
    var i := IndiceSeparador(s);
    if i == |s| then [s] else [s[..i]] + Dividir(s[i + 1..])
  }

  lemma IndiceSeparadorConcat(a: string, c: string)
    ensures IndiceSeparador(a) < |a| ==> IndiceSeparador(a + c) == IndiceSeparador(a)
    ensures IndiceSeparador(a) == |a| && c != [] && Separador(c[0]) ==> IndiceSeparador(a + c) == |a|
  {
    var i := IndiceSeparador(a);
    if i < |a| {
      assert (a + c)[i] == a[i];
      assert forall k :: 0 <= k < i ==> (a + c)[k] == a[k];
    } else if c != [] && Separador(c[0]) {
      assert (a + c)[|a|] == c[0];
      assert forall k :: 0 <= k < |a| ==> (a + c)[k] == a[k];
    }
  }

  /** Splitting at a separator splits the pieces: `split(a + "-" + b) == split(a) ++ split(b)`. */
  lemma {:induction false} DividirConcat(a: string, sep: char, b: string)
    requires Separador(sep)
    ensures Dividir(a + [sep] + b) == Dividir(a) + Dividir(b)
    decreases |a|
  {
    var c := a + [sep] + b;
    var i := IndiceSeparador(a);
    IndiceSeparadorConcat(a, [sep] + b);
    assert c == a + ([sep] + b);
    if i == |a| {
      assert c[..|a|] == a;
      assert c[|a| + 1..] == b;
    } else {
      assert c[..i] == a[..i];
      assert c[i + 1..] == a[i + 1..] + [sep] + b;
      DividirConcat(a[i + 1..], sep, b);
    }
  }

  /** A piece without separators is not split. */
  lemma DividirSemSeparador(p: string)
    requires forall k :: 0 <= k < |p| ==> !Separador(p[k])
    ensures Dividir(p) == [p]
  {
  }

  /** What the model asks of the text: the pieces read by `Number` are digit strings. */
  predicate PecasNumericas(s: string) {
    var p := Dividir(s);
    forall k :: 0 <= k < |p| && k < 3 ==> SoDigitos(p[k])
  }

  /** `pecas[k]` read by `Number`, or `undefined` when there is no such piece. */
  function Peca(pecas: seq<string>, k: nat): Option<int>
    requires forall j :: 0 <= j < |pecas| && j <= k ==> SoDigitos(pecas[j])
  {
    if k < |pecas| then Some(ValorDecimal(pecas[k])) else None
  }

  /** `parseDateToLocalStart`: the day at 00:00:00.000 local time. */
  function ParseDateToLocalStart(s: string): (d: DataLocal)
    requires PecasNumericas(s)
    ensures d.hora == 0 && d.minuto == 0 && d.segundo == 0 && d.milissegundo == 0
  {
    var p := Dividir(s);
    DataLocal(ValorDecimal(p[0]), Peca(p, 1).GetOr(1) - 1, Peca(p, 2).GetOr(1), 0, 0, 0, 0)
  }

  /**
   * `parseDateToLocalEnd`: the same day at 23:59:59.999 local time, so it
   * falls strictly after the start of that day.
   */
  function ParseDateToLocalEnd(s: string): (d: DataLocal)
    requires PecasNumericas(s)
    ensures d.ano == ParseDateToLocalStart(s).ano
    ensures d.mes == ParseDateToLocalStart(s).mes
    ensures d.dia == ParseDateToLocalStart(s).dia
    ensures d.hora == 23 && d.minuto == 59 && d.segundo == 59 && d.milissegundo == 999
    ensures Antes(ParseDateToLocalStart(s), d)
  {
    var p := Dividir(s);
    DataLocal(ValorDecimal(p[0]), Peca(p, 1).GetOr(1) - 1, Peca(p, 2).GetOr(1), 23, 59, 59, 999)
  }

  /** The fields read from a text that splits into exactly three digit pieces. */
  lemma ParseTresPecas(s: string, ano: string, mes: string, dia: string)
    requires SoDigitos(ano) && SoDigitos(mes) && SoDigitos(dia)
    requires Dividir(s) == [ano, mes, dia]
    ensures PecasNumericas(s)
    ensures ParseDateToLocalStart(s)
         == DataLocal(ValorDecimal(ano), ValorDecimal(mes) - 1, ValorDecimal(dia), 0, 0, 0, 0)
    ensures ParseDateToLocalEnd(s)
         == DataLocal(ValorDecimal(ano), ValorDecimal(mes) - 1, ValorDecimal(dia), 23, 59, 59, 999)
  {
  }

  /** `"yyyy-MM-dd"` splits into its three pieces. */
  lemma DividirAnoMesDia(ano: string, mes: string, dia: string)
    requires SoDigitos(ano) && SoDigitos(mes) && SoDigitos(dia)
    ensures Dividir(ano + "-" + mes + "-" + dia) == [ano, mes, dia]
  {
    DividirSemSeparador(ano);
    DividirSemSeparador(mes);
    DividirSemSeparador(dia);
    DividirConcat(ano, '-', mes);
    assert ano + "-" + mes + "-" + dia == (ano + ['-'] + mes) + ['-'] + dia;
    DividirConcat(ano + ['-'] + mes, '-', dia);
  }

  /** For `"yyyy-MM-dd"`: year y, month index MM - 1, day dd. */
  lemma ParseAnoMesDia(ano: string, mes: string, dia: string)
    requires SoDigitos(ano) && SoDigitos(mes) && SoDigitos(dia)
    ensures PecasNumericas(ano + "-" + mes + "-" + dia)
    ensures ParseDateToLocalStart(ano + "-" + mes + "-" + dia)
         == DataLocal(ValorDecimal(ano), ValorDecimal(mes) - 1, ValorDecimal(dia), 0, 0, 0, 0)
    ensures ParseDateToLocalEnd(ano + "-" + mes + "-" + dia)
         == DataLocal(ValorDecimal(ano), ValorDecimal(mes) - 1, ValorDecimal(dia), 23, 59, 59, 999)
  {
    DividirAnoMesDia(ano, mes, dia);
    ParseTresPecas(ano + "-" + mes + "-" + dia, ano, mes, dia);
  }

  /**
   * Once the text has its three pieces, a `T...` suffix adds only pieces
   * that are never read: `"2024-03-05T10:00"` reads as `"2024-03-05"`.
   */
  lemma SufixoTIgnorado(s: string, resto: string)
    requires PecasNumericas(s) && |Dividir(s)| >= 3
    ensures PecasNumericas(s + "T" + resto)
    ensures ParseDateToLocalStart(s + "T" + resto) == ParseDateToLocalStart(s)
    ensures ParseDateToLocalEnd(s + "T" + resto) == ParseDateToLocalEnd(s)
  {
    DividirConcat(s, 'T', resto);
    assert s + "T" + resto == s + ['T'] + resto;
    var p, q := Dividir(s), Dividir(s + "T" + resto);
    assert q[..3] == p[..3];
  }

  /** A missing month reads as January (index 0) and a missing day as the 1st. */
  lemma SoAno(ano: string)
    requires SoDigitos(ano)
    ensures PecasNumericas(ano)
    ensures ParseDateToLocalStart(ano) == DataLocal(ValorDecimal(ano), 0, 1, 0, 0, 0, 0)
  {
    DividirSemSeparador(ano);
  }

  lemma Valor2024()
    ensures SoDigitos("2024") && ValorDecimal("2024") == 2024
  {
    assert "2024"[..3] == "202";
    assert "202"[..2] == "20";
    assert "20"[..1] == "2";
  }

  lemma Valor00()
    ensures SoDigitos("00") && ValorDecimal("00") == 0
  {
    assert "00"[..1] == "0";
  }

  /** The default is only for absent pieces: `"2024-00-00"` has month index -1 and day 0. */
  lemma MesEDiaZero()
    ensures PecasNumericas("2024-00-00")
    ensures ParseDateToLocalStart("2024-00-00") == DataLocal(2024, -1, 0, 0, 0, 0, 0)
  {
    Valor2024();
    Valor00();
    assert "2024-00-00" == "2024" + "-" + "00" + "-" + "00";
    ParseAnoMesDia("2024", "00", "00");
  }

  /** `"yyyy-MM-dd"` as `format(date, 'yyyy-MM-dd')` writes it, from numeric fields. */
  function FormatarData(ano: nat, mes: nat, dia: nat): string {
    PadStart(NatParaTexto(ano), 4, '0') + "-" + PadStart(NatParaTexto(mes), 2, '0') + "-"
      + PadStart(NatParaTexto(dia), 2, '0')
  }

  /** Parsing a formatted date gives back its fields, with the month counted from 0. */
  lemma ParseDeFormatarData(ano: nat, mes: nat, dia: nat)
    ensures PecasNumericas(FormatarData(ano, mes, dia))
    ensures ParseDateToLocalStart(FormatarData(ano, mes, dia)) == DataLocal(ano, mes - 1, dia, 0, 0, 0, 0)
    ensures ParseDateToLocalEnd(FormatarData(ano, mes, dia)) == DataLocal(ano, mes - 1, dia, 23, 59, 59, 999)
  {
    var a, m, d := NatParaTexto(ano), NatParaTexto(mes), NatParaTexto(dia);
    ValorDePadStart(a, 4);
    ValorDePadStart(m, 2);
    ValorDePadStart(d, 2);
    ValorDeNatParaTexto(ano);
    ValorDeNatParaTexto(mes);
    ValorDeNatParaTexto(dia);
    ParseAnoMesDia(PadStart(a, 4, '0'), PadStart(m, 2, '0'), PadStart(d, 2, '0'));
  }
}
