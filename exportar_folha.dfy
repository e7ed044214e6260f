/**
 * The payroll export (src/components/folha/ExportarFolha.tsx): a PDF with a
 * header, one line per payroll item and a grand total, and a spreadsheet
 * with one row per item, both saved under a name derived from the period.
 *
 * The jsPDF document is modelled as the sequence of calls made on it; a
 * number drawn with `toFixed(2)` is kept as the number itself (`Numero`,
 * `Moeda`), since float formatting is not part of this model. The
 * spreadsheet is the value handed to the XLSX library.
 */
module ExportarFolha {
  import opened Texto

  /** `ItemFolha`: one employee's line of the payroll. */
  datatype ItemFolha = ItemFolha(nome: string, totalHoras: real, valorHora: real, totalPagar: real)

  /** What a `doc.text` call writes. */
  datatype TextoPdf =
    | Literal(texto: string)
      /** `v.toFixed(2)` */
    | Numero(valor: real)
      /** `${prefixo}${v.toFixed(2).replace('.', ',')}` */
    | Moeda(prefixo: string, valor: real)

  /** A call made on the jsPDF document. */
  datatype Comando =
    | TamanhoFonte(tamanho: int)
    | Fonte(familia: string, estilo: string)
    | Desenhar(texto: TextoPdf, x: int, y: int)
    | Salvar(arquivo: string)

  const PrefixoArquivo := "folha-pagamento-"

  /**
   * `folha-pagamento-${periodo.replace(/\//g, '-')}${ext}`: the period with
   * every `/` turned into `-`, so it brings no path separator into the name.
   */
  function NomeArquivo(periodo: string, ext: string): (nome: string)
    ensures |nome| == |PrefixoArquivo| + |periodo| + |ext|
    ensures nome[..|PrefixoArquivo|] == PrefixoArquivo && nome[|PrefixoArquivo| + |periodo|..] == ext
    ensures forall i :: 0 <= i < |periodo| ==>
              nome[|PrefixoArquivo| + i] == if periodo[i] == '/' then '-' else periodo[i]
    ensures '/' !in ext ==> '/' !in nome
  {
    var meio := TrocarCaractere(periodo, '/', '-');
    var nome := PrefixoArquivo + meio + ext;
    assert forall i :: 0 <= i < |meio| ==> nome[|PrefixoArquivo| + i] == meio[i];
    assert '/' !in ext ==> forall i :: 0 <= i < |nome| ==> nome[i] != '/' by {
      if '/' !in ext {
        forall i | 0 <= i < |nome|
          ensures nome[i] != '/'
        {
          if i >= |PrefixoArquivo| + |meio| {
            assert nome[i] == ext[i - |PrefixoArquivo| - |meio|];
          }
        }
      }
    }
    nome
  }

  /** A period without `/` is kept as it is: `"2024-03"` gives `folha-pagamento-2024-03.pdf`. */
  lemma NomeArquivoSemBarra(periodo: string, ext: string)
    requires '/' !in periodo
    ensures NomeArquivo(periodo, ext) == PrefixoArquivo + periodo + ext
  {
    var nome := NomeArquivo(periodo, ext);
    assert nome[|PrefixoArquivo|..|PrefixoArquivo| + |periodo|] == periodo;
    assert nome == nome[..|PrefixoArquivo|] + nome[|PrefixoArquivo|..|PrefixoArquivo| + |periodo|] + nome[|PrefixoArquivo| + |periodo|..];
  }

  // ------------------------------------------------------------------ PDF

  /** The calls before the item lines: title, period, column headers at y = 38. */
  function Cabecalho(periodo: string): seq<Comando> {
    [ TamanhoFonte(16), Desenhar(Literal("Folha de Pagamento"), 14, 20),
      TamanhoFonte(10), Desenhar(Literal("Período: " + periodo), 14, 28),
      TamanhoFonte(9), Fonte("helvetica", "bold"),
      Desenhar(Literal("Nome"), 14, 38), Desenhar(Literal("Horas"), 84, 38),
      Desenhar(Literal("R$/hora"), 109, 38), Desenhar(Literal("Total"), 144, 38),
      Fonte("helvetica", "normal") ]
  }

  /** The four cells of one item at height `y`; the name cut to 35 characters. */
  function LinhaPdf(item: ItemFolha, y: int): seq<Comando> {
    [ Desenhar(Literal(Prefixo(item.nome, 35)), 14, y), Desenhar(Numero(item.totalHoras), 84, y),
      Desenhar(Moeda("R$ ", item.valorHora), 109, y), Desenhar(Moeda("R$ ", item.totalPagar), 144, y) ]
  }

  /** The height of item `k`: 6 below the headers, then 6 per line. */
  function AlturaDoItem(k: nat): int {
    44 + 6 * k
  }

  /** The item lines, one after another. */
  function Linhas(itens: seq<ItemFolha>): (cmds: seq<Comando>)
    ensures |cmds| == 4 * |itens|
  {
    if itens == [] then []
    else Linhas(itens[..|itens| - 1]) + LinhaPdf(itens[|itens| - 1], AlturaDoItem(|itens| - 1))
  }

  /** The sum of `total_pagar` over the items. */
  function SomaTotalPagar(itens: seq<ItemFolha>): real {
    if itens == [] then 0.0 else SomaTotalPagar(itens[..|itens| - 1]) + itens[|itens| - 1].totalPagar
  }

  /** The calls after the item lines: the grand total 4 below the last line, then the save. */
  function Rodape(itens: seq<ItemFolha>, periodo: string): seq<Comando> {
    [ Fonte("helvetica", "bold"),
      Desenhar(Moeda("Total Geral: R$ ", SomaTotalPagar(itens)), 14, AlturaDoItem(|itens|) + 4),
      Fonte("helvetica", "normal"),
      Salvar(NomeArquivo(periodo, ".pdf")) ]
  }

  /** The whole sequence of calls `exportarPDF` makes. */
  function DocumentoPdf(itens: seq<ItemFolha>, periodo: string): seq<Comando> {
    Cabecalho(periodo) + Linhas(itens) + Rodape(itens, periodo)
  }

  /**
   * `exportarPDF`: the header, then a line per item while the `y` cursor
   * moves down 6 and `totalGeral` adds the item's `total_pagar`, then the
   * total 4 further down and the save.
   */
  method ExportarPdf(itens: seq<ItemFolha>, periodo: string) returns (doc: seq<Comando>)
    ensures doc == DocumentoPdf(itens, periodo)
  {
    doc := [TamanhoFonte(16), Desenhar(Literal("Folha de Pagamento"), 14, 20)];
    doc := doc + [TamanhoFonte(10), Desenhar(Literal("Período: " + periodo), 14, 28)];
    doc := doc + [TamanhoFonte(9)];
    var y := 38;
    doc := doc + [Fonte("helvetica", "bold")];
    doc := doc + [Desenhar(Literal("Nome"), 14, y), Desenhar(Literal("Horas"), 84, y)];
    doc := doc + [Desenhar(Literal("R$/hora"), 109, y), Desenhar(Literal("Total"), 144, y)];
    y := y + 6;
    doc := doc + [Fonte("helvetica", "normal")];
    var totalGeral := 0.0;
    for i := 0 to |itens|
      invariant doc == Cabecalho(periodo) + Linhas(itens[..i])
      invariant y == AlturaDoItem(i)
      invariant totalGeral == SomaTotalPagar(itens[..i])
    {
      var item := itens[i];
      doc := doc + [Desenhar(Literal(Prefixo(item.nome, 35)), 14, y)];
      doc := doc + [Desenhar(Numero(item.totalHoras), 84, y)];
      doc := doc + [Desenhar(Moeda("R$ ", item.valorHora), 109, y)];
      doc := doc + [Desenhar(Moeda("R$ ", item.totalPagar), 144, y)];
      totalGeral := totalGeral + item.totalPagar;
      y := y + 6;
      assert itens[..i + 1][..i] == itens[..i];
    }
    assert itens[..|itens|] == itens;
    y := y + 4;
    doc := doc + [Fonte("helvetica", "bold")];
    doc := doc + [Desenhar(Moeda("Total Geral: R$ ", totalGeral), 14, y)];
    doc := doc + [Fonte("helvetica", "normal")];
    doc := doc + [Salvar(NomeArquivo(periodo, ".pdf"))];
  }

  /** Item `k`'s four cells are calls `4k .. 4k + 3` of the lines, at height 44 + 6k. */
  lemma {:induction false} LinhaDoItem(itens: seq<ItemFolha>, k: nat)
    requires k < |itens|
    ensures Linhas(itens)[4 * k..4 * k + 4] == LinhaPdf(itens[k], AlturaDoItem(k))
  {
    var ini := itens[..|itens| - 1];
    if k < |ini| {
      LinhaDoItem(ini, k);
      assert Linhas(itens)[4 * k..4 * k + 4] == Linhas(ini)[4 * k..4 * k + 4];
    }
  }

  /**
   * In the document, item `k`'s name is drawn first on its line, cut to its
   * first 35 characters, at x = 14 and y = 44 + 6k, and its payment last, at x = 144.
   */
  lemma NomeDoItemNoPdf(itens: seq<ItemFolha>, periodo: string, k: nat)
    requires k < |itens|
    ensures DocumentoPdf(itens, periodo)[11 + 4 * k]
         == Desenhar(Literal(Prefixo(itens[k].nome, 35)), 14, 44 + 6 * k)
    ensures |Prefixo(itens[k].nome, 35)| <= 35
    ensures DocumentoPdf(itens, periodo)[14 + 4 * k] == Desenhar(Moeda("R$ ", itens[k].totalPagar), 144, 44 + 6 * k)
  {
    LinhaDoItem(itens, k);
    var doc := DocumentoPdf(itens, periodo);
    assert doc[11 + 4 * k] == Linhas(itens)[4 * k];
    assert doc[14 + 4 * k] == Linhas(itens)[4 * k + 3];
  }

  /**
   * The grand total is drawn at y = 48 + 6n for n items, below every item
   * line, and is the sum of their `total_pagar` (0 for no items).
   */
  lemma TotalGeralNoPdf(itens: seq<ItemFolha>, periodo: string)
    ensures DocumentoPdf(itens, periodo)[12 + 4 * |itens|]
         == Desenhar(Moeda("Total Geral: R$ ", SomaTotalPagar(itens)), 14, 48 + 6 * |itens|)
    ensures itens == [] ==> SomaTotalPagar(itens) == 0.0
    ensures forall k :: 0 <= k < |itens| ==> AlturaDoItem(k) < 48 + 6 * |itens|
    ensures DocumentoPdf(itens, periodo)[|DocumentoPdf(itens, periodo)| - 1] == Salvar(NomeArquivo(periodo, ".pdf"))
  {
  }

  /** The total adds up the parts: splitting the items splits the sum. */
  lemma {:induction false} SomaTotalPagarConcat(a: seq<ItemFolha>, b: seq<ItemFolha>)
    ensures SomaTotalPagar(a + b) == SomaTotalPagar(a) + SomaTotalPagar(b)
    decreases |b|
  {
    if b == [] {
      assert a + b == a;
    } else {
      var ini := b[..|b| - 1];
      assert (a + b)[..|a + b| - 1] == a + ini;
      SomaTotalPagarConcat(a, ini);
    }
  }

  // ----------------------------------------------------------- spreadsheet

  /** A spreadsheet row: the object `itens.map` builds for `json_to_sheet`. */
  datatype LinhaExcel = LinhaExcel(nome: string, totalHoras: real, valorHora: real, totalAPagar: real)

  /** The workbook written: one sheet with its column headers and rows, and the file name. */
  datatype Planilha = Planilha(aba: string, colunas: seq<string>, linhas: seq<LinhaExcel>, arquivo: string)

  const Colunas := ["Nome", "Total Horas", "R$/hora", "Total a Pagar"]

  function LinhaDe(item: ItemFolha): LinhaExcel {
    LinhaExcel(item.nome, item.totalHoras, item.valorHora, item.totalPagar)
  }

  /** Reads an item back from its row. */
  function ItemDe(linha: LinhaExcel): ItemFolha {
    ItemFolha(linha.nome, linha.totalHoras, linha.valorHora, linha.totalAPagar)
  }

  /**
   * `exportarExcel`: sheet "Folha", one row per item in order, saved as
   * `.xlsx`. `json_to_sheet` takes the header row from the keys of the rows
   * it is given, so an empty payroll gives a sheet without one.
   */
  function ExportarExcel(itens: seq<ItemFolha>, periodo: string): (p: Planilha)
    ensures p.aba == "Folha"
    ensures itens != [] ==> p.colunas == Colunas
    ensures itens == [] ==> p.colunas == []
    ensures |p.linhas| == |itens|
    ensures p.arquivo == NomeArquivo(periodo, ".xlsx")
  {
    var colunas := if itens == [] then [] else Colunas;
    Planilha("Folha", colunas, seq(|itens|, k requires 0 <= k < |itens| => LinhaDe(itens[k])), NomeArquivo(periodo, ".xlsx"))
  }

  /** The rows, read back, are the items: nothing is lost, reordered or rounded. */
  lemma PlanilhaDevolveItens(itens: seq<ItemFolha>, periodo: string)
    ensures forall k :: 0 <= k < |itens| ==> ItemDe(ExportarExcel(itens, periodo).linhas[k]) == itens[k]
  {
  }

  /** The sum of the spreadsheet's "Total a Pagar" column. */
  function SomaColunaTotal(linhas: seq<LinhaExcel>): real {
    if linhas == [] then 0.0 else SomaColunaTotal(linhas[..|linhas| - 1]) + linhas[|linhas| - 1].totalAPagar
  }

  /** The PDF's grand total is the sum of the spreadsheet's "Total a Pagar" column. */
  lemma {:induction false} TotaisConcordam(itens: seq<ItemFolha>, periodo: string)
    ensures SomaColunaTotal(ExportarExcel(itens, periodo).linhas) == SomaTotalPagar(itens)
  {
    if itens != [] {
      var ini := itens[..|itens| - 1];
      TotaisConcordam(ini, periodo);
      var l, li := ExportarExcel(itens, periodo).linhas, ExportarExcel(ini, periodo).linhas;
      assert l[..|l| - 1] == li;
    }
  }

  /** Both files carry the same name, the PDF one ending in `.pdf` and the other in `.xlsx`. */
  lemma MesmoNomeBase(itens: seq<ItemFolha>, periodo: string)
    ensures ExportarExcel(itens, periodo).arquivo[..|PrefixoArquivo| + |periodo|]
         == NomeArquivo(periodo, ".pdf")[..|PrefixoArquivo| + |periodo|]
  {
    var a, b := ExportarExcel(itens, periodo).arquivo, NomeArquivo(periodo, ".pdf");
    assert forall i :: 0 <= i < |PrefixoArquivo| ==> a[i] == b[i] by {
      assert a[..|PrefixoArquivo|] == b[..|PrefixoArquivo|];
    }
  }
}
