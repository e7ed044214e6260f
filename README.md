# horasfaccao punch clock — a Dafny model

This project models the core of horasfaccao, a time-clock and payroll web application for a small workshop.
Employees punch in ("entrada") and out ("saída") with a button. The button offers the type that follows
the employee's last punch and records the browser's position when it can. A reconciler turns a list of punches
into worked hours. A cron-called route flags every employee whose last punch of the day is a clock-in. The
payroll screen exports its items to a PDF and a spreadsheet. Two helpers read a `yyyy-MM-dd` text as the
first or last instant of that local day.

Modules, one per source file, plus shared parts:

- `Wrappers`: an `Option` type that stands for TypeScript's `null` and `undefined`.
- `Texto`: the JavaScript string operations the code relies on. These are `toString`, `Number`, `padStart`,
  `substring` and a global one-character `replace`.
- `Marcacoes`: a row of the `marcacoes` table, with the instant as milliseconds since the epoch.
- `Ordenacao`: the stable sort by instant. `Ordenar` is its functional specification. `OrdenarPorHorario`
  sorts an array in place and is proved equal to it.
- `CalcularHoras`: `calcularHorasDeMarcacoes` and `formatarHoras`.
- `ParseDateLocal`: `parseDateToLocalStart` and `parseDateToLocalEnd`. A JavaScript `Date` is modelled by
  the arguments given to its constructor.
- `VerificarPontoEsquecido`: the GET handler of the forgotten clock-out route. The grouping `Map` is a `map`
  together with its key insertion order.
- `RegistrarPonto`: the punch button. It is a class whose `loading` field `HandleRegistrar` raises and lowers.
- `ExportarFolha`: `exportarPDF` and `exportarExcel`. The jsPDF document is the sequence of calls made on it.
- `Alternancia`: results that combine the button, the reconciler and the forgotten clock-out check. The
  button offers the type that follows the punch before. On the employee's screen that is the last punch of the
  week so far, so a day can start with a clock-out after a clock-out forgotten the day before. These results
  take the type of the punch before a run as a parameter.

Two facts about the reconciler shape what it promises:

- It adds whole minutes per pair, truncated toward zero by `differenceInMinutes`, and only then divides by 60.
  So 59.9 seconds count as nothing.
- The result does not depend on the input order when no two punches share an instant
  (`CalcularHoras.HorasIndependemDaOrdem`). With a tie, the stable sort keeps the input order, and the result
  can change (`CalcularHoras.EmpateDependeDaOrdem`).

## Model

| member | source | states |
|---|---|---|
| `RegistrarPonto.ProximoTipo` | src/components/RegistrarPontoButton.tsx:22-23 | the offered type is a clock-out exactly when the last punch is a clock-in; it is a clock-in with no last punch; it always differs from the last punch's type |
| `RegistrarPonto.MontarPayload` | src/components/RegistrarPontoButton.tsx:51-59 | the insert carries the user id and the type; the position fields are present exactly when both latitude and longitude are known, and then they are those values and the accuracy as given |
| `RegistrarPonto.PayloadSemCoordenadas` | src/components/RegistrarPontoButton.tsx:54-58 | a missing coordinate leaves out the whole position, even when the accuracy is known |
| `RegistrarPonto.RegistrarPontoButton.constructor` | src/components/RegistrarPontoButton.tsx:19-20 | the button starts not loading, with no `setLoading` call made |
| `RegistrarPonto.RegistrarPontoButton.HandleRegistrar` | src/components/RegistrarPontoButton.tsx:25-70 | `loading` is set to true and then back to false on every path; the payload has the offered type and the position only when one was obtained; a refused or unsupported position is swallowed; a failed insert gives the error toast and skips `onSuccess`; a successful one gives "Ponto registrado: Entrada" or "Saída" and calls `onSuccess` when it is given |
| `Ordenacao.Inserir` | src/utils/calcularHoras.ts:6-8 | inserting keeps every punch, adding exactly the new one (multiset) |
| `Ordenacao.Ordenar` | src/utils/calcularHoras.ts:6-8 | the sort returns a permutation of its input in ascending order of instant |
| `Ordenacao.InserirPreservaOrdem` | src/utils/calcularHoras.ts:6-8 | inserting into an ascending list keeps it ascending |
| `Ordenacao.InserirEm` | src/utils/calcularHoras.ts:6-8 | the new punch lands right before the first later punch, after all punches not later than it |
| `Ordenacao.OrdenarOrdenada` | src/utils/calcularHoras.ts:6-8 | a list already in ascending order comes out unchanged |
| `Ordenacao.ComHorario` | src/utils/calcularHoras.ts:6-8 | the punches kept for an instant all have that instant and come from the list |
| `Ordenacao.ComHorarioConcat` | src/utils/calcularHoras.ts:6-8 | selecting the punches of one instant distributes over concatenation |
| `Ordenacao.InserirEstavel` | src/utils/calcularHoras.ts:6-8 | an insertion puts the new punch after every punch with the same instant |
| `Ordenacao.OrdenarEstavel` | src/utils/calcularHoras.ts:6-8 | the sort is stable: punches sharing an instant keep their relative input order |
| `Ordenacao.OrdenadasIguais` | src/utils/calcularHoras.ts:6-8 | two ascending lists with the same punches are equal when equal instants mean equal punches |
| `Ordenacao.OrdenarIndependeDaOrdem` | src/utils/calcularHoras.ts:6-8 | with distinct instants the sorted list depends only on which punches there are |
| `Ordenacao.OrdenarPorHorario` | src/utils/calcularHoras.ts:6-8 | sorting the array in place leaves in it exactly the stable sort of its old contents |
| `Ordenacao.InserirNoPrefixo` | src/utils/calcularHoras.ts:6-8 | one insertion step turns the sorted prefix plus the next element into the sorted longer prefix and leaves the rest of the array alone |
| `CalcularHoras.MinutosDosPares` | src/utils/calcularHoras.ts:9-16 | specification of the loop's sum over adjacent pairs; no contract of its own, characterised by `MinutosDosParesPasso`, `MinutosDosParesNaoNegativos` and `MinutosDosParesLimitados` |
| `CalcularHoras.MinutosTrabalhados` | src/utils/calcularHoras.ts:5-16 | specification of `totalMinutos`: 0 below two punches, else the pair sum of the stable sort; no contract of its own, characterised by `HorasNaoNegativas` and `HorasLimitadasPeloIntervalo` |
| `CalcularHoras.HorasDeMarcacoes` | src/utils/calcularHoras.ts:4-18 | specification of the returned value; no contract of its own, characterised by `HorasNaoNegativas`, `HorasLimitadasPeloIntervalo`, `HorasIndependemDaOrdem` and the examples |
| `CalcularHoras.DiferencaEmMinutos` | src/utils/calcularHoras.ts:12-14 | the difference is the whole minutes between the two instants, truncated toward zero in both directions |
| `CalcularHoras.CalcularHorasDeMarcacoes` | src/utils/calcularHoras.ts:4-18 | the result is the reconciled hours of the array's contents; it is 0 for fewer than two punches and never negative; the caller's array is not modified |
| `CalcularHoras.SomarPares` | src/utils/calcularHoras.ts:9-16 | the loop adds, for each clock-in directly followed by a clock-out, the minutes between them, and nothing else |
| `CalcularHoras.MinutosDosParesPasso` | src/utils/calcularHoras.ts:10-15 | each loop step adds exactly the contribution of the pair it looks at |
| `CalcularHoras.MinutosDosParesNaoNegativos` | src/utils/calcularHoras.ts:9-16 | in ascending order no counted pair subtracts time |
| `CalcularHoras.HorasNaoNegativas` | src/utils/calcularHoras.ts:4-18 | for every input the hours are non-negative and a whole number of minutes |
| `CalcularHoras.MinutosDosParesLimitados` | src/utils/calcularHoras.ts:9-16 | counted pairs do not overlap: their minutes fit within the first-to-last span |
| `CalcularHoras.HorasLimitadasPeloIntervalo` | src/utils/calcularHoras.ts:4-18 | punches inside a window never add up to more hours than the window's whole minutes |
| `CalcularHoras.HorasIndependemDaOrdem` | src/utils/calcularHoras.ts:4-18 | with distinct instants, reordering the input does not change the hours |
| `CalcularHoras.MinutosDeTres` | src/utils/calcularHoras.ts:10-16 | on three punches the loop looks at exactly the pairs (0, 1) and (1, 2) |
| `CalcularHoras.TresEmOrdem` | src/utils/calcularHoras.ts:4-18 | three punches in order are paid for exactly their two adjacent pairs |
| `CalcularHoras.QuatroEmOrdem` | src/utils/calcularHoras.ts:4-18 | four punches in order are paid for exactly their three adjacent pairs |
| `CalcularHoras.EntradaRepetidaDescartada` | src/utils/calcularHoras.ts:10-16 | of two clock-ins before a clock-out only the later one is paid |
| `CalcularHoras.EntradaFinalNaoConta` | src/utils/calcularHoras.ts:10-16 | a last clock-in without a clock-out adds nothing |
| `CalcularHoras.EntradasAninhadas` | src/utils/calcularHoras.ts:10-16 | for in, in, out, out only the inner pair is paid, not the span from the first clock-in |
| `CalcularHoras.ExemploEntradaRepetida` | src/utils/calcularHoras.ts:4-18 | in 09:00, in 10:00, out 18:00 gives 8 hours |
| `CalcularHoras.ExemploEntradaFinal` | src/utils/calcularHoras.ts:4-18 | in 09:00, out 12:00, in 13:00 gives 3 hours |
| `CalcularHoras.ExemploUmPar` | src/utils/calcularHoras.ts:4-18 | in 09:00, out 17:30 gives 8.5 hours |
| `CalcularHoras.ExemploEntradasAninhadas` | src/utils/calcularHoras.ts:4-18 | in 08:00, in 09:00, out 12:00, out 17:00 gives 3 hours |
| `CalcularHoras.EmpateDependeDaOrdem` | src/utils/calcularHoras.ts:6-16 | with a clock-in and a clock-out at the same instant, two orders of the same punches give different results |
| `CalcularHoras.ExemploEmpate` | src/utils/calcularHoras.ts:4-18 | in 09:00, out 09:00, out 10:00 gives 0 hours; out 09:00, in 09:00, out 10:00 gives 1 hour |
| `CalcularHoras.ArredondarJs` | src/utils/calcularHoras.ts:22 | `Math.round` gives the nearest integer, with halves rounded up |
| `CalcularHoras.HorasEMinutos` | src/utils/calcularHoras.ts:20-22 | the hour field is the whole hours below the value; the minute field is the nearest integer to the leftover fraction of an hour times 60, halves rounded up, so it lies between 0 and 60, inclusive |
| `CalcularHoras.FormatarHoras` | src/utils/calcularHoras.ts:20-24 | the text is the layout of some hours h and minutes m where h is the whole hours below the value and m is the leftover fraction times 60 rounded to the nearest integer |
| `CalcularHoras.FormatarMinutosInteiros` | src/utils/calcularHoras.ts:20-24 | for a whole number of minutes the text shows minutes div 60 hours and minutes mod 60 minutes |
| `CalcularHoras.ExemploOitoEMeia` | src/utils/calcularHoras.ts:20-24 | 8.5 hours is shown as "8h 30m" |
| `CalcularHoras.ExemploUmMinuto` | src/utils/calcularHoras.ts:20-24 | one minute is shown as "0h 01m", with the minutes padded to two digits |
| `CalcularHoras.TextoDeUmAlgarismo` | src/utils/calcularHoras.ts:23 | single-digit hours and minutes print the hours bare and the minutes with one leading zero |
| `CalcularHoras.FormatarHorasSessentaMinutos` | src/utils/calcularHoras.ts:20-24 | as written, 0.9999 hours is shown as "0h 60m" |
| `CalcularHoras.FormatarHorasCorrigido` | src/utils/calcularHoras.ts:20-24 | corrected: the text shows the total rounded to the nearest minute, split into hours and minutes 0 to 59 |
| `CalcularHoras.FormatarHorasCorrigidoConcorda` | src/utils/calcularHoras.ts:20-24 | on every whole number of minutes the corrected formatter agrees with the one as written |
| `CalcularHoras.FormatarHorasCorrigidoExemplo` | src/utils/calcularHoras.ts:20-24 | corrected, 0.9999 hours is shown as "1h 00m" |
| `ParseDateLocal.IndiceSeparador` | src/utils/parseDateLocal.ts:6 | the index found is the first `-` or `T`, or the end of the text when there is none |
| `ParseDateLocal.Dividir` | src/utils/parseDateLocal.ts:6 | `split(/[-T]/)` always gives at least one piece; characterised by `DividirConcat` and `DividirAnoMesDia` |
| `ParseDateLocal.Peca` | src/utils/parseDateLocal.ts:6-7 | `Number` of piece k, or absent past the last piece; no contract of its own, its absent case is where `ParseDateToLocalStart` applies the `?? 1` defaults (`SoAno`, `MesEDiaZero`) |
| `ParseDateLocal.DividirConcat` | src/utils/parseDateLocal.ts:6 | splitting at a separator splits the list of pieces |
| `ParseDateLocal.ParseDateToLocalStart` | src/utils/parseDateLocal.ts:5-8 | the date is at 00:00:00.000 |
| `ParseDateLocal.ParseDateToLocalEnd` | src/utils/parseDateLocal.ts:13-16 | the end has the same year, month and day as the start, at 23:59:59.999, and falls after the start |
| `ParseDateLocal.ParseTresPecas` | src/utils/parseDateLocal.ts:5-16 | three digit pieces become the year, the month minus one, and the day |
| `ParseDateLocal.DividirAnoMesDia` | src/utils/parseDateLocal.ts:6 | `yyyy-MM-dd` splits into its three digit pieces |
| `ParseDateLocal.ParseAnoMesDia` | src/utils/parseDateLocal.ts:5-16 | `yyyy-MM-dd` gives year yyyy, month index MM - 1 and day dd, at the start and at the end of the day |
| `ParseDateLocal.SufixoTIgnorado` | src/utils/parseDateLocal.ts:5-16 | a `T…` time suffix after the three pieces changes neither date |
| `ParseDateLocal.SoAno` | src/utils/parseDateLocal.ts:6-7 | a missing month reads as January and a missing day as the 1st |
| `ParseDateLocal.MesEDiaZero` | src/utils/parseDateLocal.ts:6-7 | the defaults apply only to absent pieces: "2024-00-00" gives month index -1 and day 0 |
| `ParseDateLocal.ParseDeFormatarData` | src/utils/parseDateLocal.ts:5-16 | reading a zero-padded `yyyy-MM-dd` gives back its numbers, with the month counted from 0 |
| `VerificarPontoEsquecido.Autorizado` | src/app/api/admin/verificar-ponto-esquecido/route.ts:16-21 | the guard: no secret or an empty one lets every request through, else only the exact header; no contract of its own, characterised by `AutorizadoSoComCabecalhoExato` |
| `VerificarPontoEsquecido.AutorizadoSoComCabecalhoExato` | src/app/api/admin/verificar-ponto-esquecido/route.ts:16-21 | with a secret set, the request passes exactly when the header is "Bearer " followed by the secret; a missing header or the bare secret is refused |
| `VerificarPontoEsquecido.JanelaDoDia` | src/app/api/admin/verificar-ponto-esquecido/route.ts:34-36 | the window runs from today's 00:00:00 to today's 23:59:59, and its start is before its end |
| `VerificarPontoEsquecido.JanelaPerdeUltimoSegundo` | src/app/api/admin/verificar-ponto-esquecido/route.ts:34-36 | the window starts where `parseDateToLocalStart` puts the day's start, but ends before `parseDateToLocalEnd` does |
| `VerificarPontoEsquecido.RegistrosDe` | src/app/api/admin/verificar-ponto-esquecido/route.ts:49-54 | an employee's list never holds more entries than there are punches |
| `VerificarPontoEsquecido.UsuariosEmOrdem` | src/app/api/admin/verificar-ponto-esquecido/route.ts:49-54 | every key of the `Map` is the id of some punch |
| `VerificarPontoEsquecido.Grupos` | src/app/api/admin/verificar-ponto-esquecido/route.ts:49-54 | the `porUsuario` map: each key in `UsuariosEmOrdem` to its list; no contract of its own, characterised by `AgruparPorUsuario`, `UsuarioPresente` and `SomaDosTamanhos` |
| `VerificarPontoEsquecido.UltimaDe` | src/app/api/admin/verificar-ponto-esquecido/route.ts:49-58 | the last punch found for an employee is one of their punches |
| `VerificarPontoEsquecido.UltimaDeEhAUltima` | src/app/api/admin/verificar-ponto-esquecido/route.ts:49-58 | the last punch found for an employee sits at some position of the list, and no later punch is theirs |
| `VerificarPontoEsquecido.UsuarioPresente` | src/app/api/admin/verificar-ponto-esquecido/route.ts:49-58 | an id is a key exactly when it has punches; then its list ends with its last punch |
| `VerificarPontoEsquecido.UltimaDeAusente` | src/app/api/admin/verificar-ponto-esquecido/route.ts:49-54 | an employee has no last punch exactly when none of the punches is theirs |
| `VerificarPontoEsquecido.UsuariosSemRepeticao` | src/app/api/admin/verificar-ponto-esquecido/route.ts:49-54 | each id becomes a key once |
| `VerificarPontoEsquecido.GruposPasso` | src/app/api/admin/verificar-ponto-esquecido/route.ts:50-54 | one punch appends its entry to its id's list and adds the id as the last key when it is new |
| `VerificarPontoEsquecido.AgruparPorUsuario` | src/app/api/admin/verificar-ponto-esquecido/route.ts:49-54 | the grouping loop builds exactly the per-employee lists, with keys in first-arrival order |
| `VerificarPontoEsquecido.SomaDosTamanhos` | src/app/api/admin/verificar-ponto-esquecido/route.ts:49-54 | the lists' lengths add up to the number of punches, so every punch lands in exactly one list |
| `VerificarPontoEsquecido.RegistrosOrdenadosDe` | src/app/api/admin/verificar-ponto-esquecido/route.ts:43-54 | when the query returns ascending instants, each employee's list is ascending too |
| `VerificarPontoEsquecido.RegistroVemDeMarcacao` | src/app/api/admin/verificar-ponto-esquecido/route.ts:50-53 | every list entry is the type and instant of one of that employee's punches |
| `VerificarPontoEsquecido.SinalizarEsquecidos` | src/app/api/admin/verificar-ponto-esquecido/route.ts:56-62 | the flagging loop gives the ids whose lists end in a clock-in, in key order, and only those |
| `VerificarPontoEsquecido.SinalizadosSse` | src/app/api/admin/verificar-ponto-esquecido/route.ts:56-62 | an id is flagged exactly when it is a key whose list ends in a clock-in |
| `VerificarPontoEsquecido.SinalizadosSemRepeticao` | src/app/api/admin/verificar-ponto-esquecido/route.ts:56-62 | flagging keys that do not repeat yields ids that do not repeat |
| `VerificarPontoEsquecido.Esquecidos` | src/app/api/admin/verificar-ponto-esquecido/route.ts:56-62 | the `esquecidos` list of the day's punches; no contract of its own, characterised by `EsquecidoSse`, `SemMarcacaoNaoSinalizado` and `EsquecidosSemRepeticao` |
| `VerificarPontoEsquecido.EsquecidoSse` | src/app/api/admin/verificar-ponto-esquecido/route.ts:49-62 | an employee is flagged exactly when their last punch in the window is a clock-in |
| `VerificarPontoEsquecido.SinalizadoSseListaTerminaEmEntrada` | src/app/api/admin/verificar-ponto-esquecido/route.ts:49-62 | an employee is flagged exactly when their grouped list ends in a clock-in |
| `VerificarPontoEsquecido.SemMarcacaoNaoSinalizado` | src/app/api/admin/verificar-ponto-esquecido/route.ts:49-62 | an employee with no punch in the window is never flagged |
| `VerificarPontoEsquecido.EsquecidosSemRepeticao` | src/app/api/admin/verificar-ponto-esquecido/route.ts:49-62 | no employee is flagged twice |
| `VerificarPontoEsquecido.MensagemContagem` | src/app/api/admin/verificar-ponto-esquecido/route.ts:76 | the message is the flagged count in decimal, which reads back as that count, followed by exactly " funcionário(s) sem bater ponto de saída" |
| `VerificarPontoEsquecido.VerificarPontoEsquecido` | src/app/api/admin/verificar-ponto-esquecido/route.ts:13-77 | a wrong header gives 401 when a secret is set; a missing or empty service key gives 500; a failed query gives 500 with its message; otherwise the handler flags exactly `Esquecidos` of the day's punches (`null` read as none); with none flagged it answers "Nenhum ponto esquecido" and skips the employee query; with some flagged it queries exactly those ids, returns the rows (`null` read as none) and counts the flagged ids in the message |
| `ExportarFolha.NomeArquivo` | src/components/folha/ExportarFolha.tsx:47 | the name is "folha-pagamento-", then the period with every `/` turned into `-`, then the extension; it holds no `/` when the extension holds none |
| `ExportarFolha.NomeArquivoSemBarra` | src/components/folha/ExportarFolha.tsx:47 | a period without `/` is kept as it is |
| `ExportarFolha.Linhas` | src/components/folha/ExportarFolha.tsx:32-40 | the item lines make four calls per item |
| `ExportarFolha.SomaTotalPagar` | src/components/folha/ExportarFolha.tsx:32-38 | `totalGeral`, the sum of the items' payments; no contract of its own, characterised by `SomaTotalPagarConcat` and `TotaisConcordam` |
| `ExportarFolha.DocumentoPdf` | src/components/folha/ExportarFolha.tsx:13-48 | the jsPDF call log: header, item lines, total and save; no contract of its own, characterised by `LinhaDoItem`, `NomeDoItemNoPdf` and `TotalGeralNoPdf` |
| `ExportarFolha.ExportarPdf` | src/components/folha/ExportarFolha.tsx:13-48 | the method makes exactly the calls of `DocumentoPdf`: the header, each item's line at its height, the grand total and the save |
| `ExportarFolha.LinhaDoItem` | src/components/folha/ExportarFolha.tsx:32-40 | item k's four cells are calls 4k to 4k + 3 of the lines, at height 44 + 6k |
| `ExportarFolha.NomeDoItemNoPdf` | src/components/folha/ExportarFolha.tsx:34-37 | item k's name is drawn cut to at most 35 characters at (14, 44 + 6k), and its payment at x = 144 on the same line |
| `ExportarFolha.TotalGeralNoPdf` | src/components/folha/ExportarFolha.tsx:42-47 | the grand total is the sum of the payments (0 for no items), drawn below every item line; the last call saves the PDF |
| `ExportarFolha.SomaTotalPagarConcat` | src/components/folha/ExportarFolha.tsx:32-40 | the total of two item lists together is the sum of their totals |
| `ExportarFolha.ExportarExcel` | src/components/folha/ExportarFolha.tsx:50-62 | the workbook has the sheet "Folha", one row per item and the `.xlsx` name; the four column headers when there is an item, and no header row for an empty payroll, since `json_to_sheet` takes them from the rows' keys |
| `ExportarFolha.PlanilhaDevolveItens` | src/components/folha/ExportarFolha.tsx:51-58 | each row reads back as its item, in order, with nothing lost or rounded |
| `ExportarFolha.TotaisConcordam` | src/components/folha/ExportarFolha.tsx:32-58 | the PDF's grand total is the sum of the spreadsheet's "Total a Pagar" column |
| `ExportarFolha.MesmoNomeBase` | src/components/folha/ExportarFolha.tsx:47-61 | both files share the same name up to the extension |
| `Texto.NatParaTexto` | src/utils/calcularHoras.ts:23 | the decimal notation of a number is a non-empty digit string with no leading zero, except "0" itself |
| `Texto.IntParaTexto` | src/utils/calcularHoras.ts:23 | `${h}` of an integer: for i >= 0 a digit string without a leading zero that reads back as i; for i < 0 a `-` followed by such a digit string that reads back as -i |
| `Texto.ValorDecimal` | src/utils/parseDateLocal.ts:6 | `Number` of a digit string; no contract of its own, characterised by `ValorDeNatParaTexto` and `ValorDePadStart` |
| `Texto.ValorDeNatParaTexto` | src/utils/calcularHoras.ts:23 | reading back the decimal notation of n gives n |
| `Texto.PadStart` | src/utils/calcularHoras.ts:23 | padding keeps the text as the suffix, fills the front with the pad character and reaches the width |
| `Texto.ValorDePadStart` | src/utils/parseDateLocal.ts:6 | zero-padding a digit string keeps its value |
| `Texto.Prefixo` | src/components/folha/ExportarFolha.tsx:34 | `substring(0, n)` keeps the first n characters, or all of a shorter text |
| `Texto.TrocarCaractere` | src/components/folha/ExportarFolha.tsx:47 | the replacement changes every `de` character to `para` and nothing else |
| `Alternancia.PeloBotaoSseAlternada` | src/components/RegistrarPontoButton.tsx:22-23 | button punches with no punch before them are exactly the lists that alternate clock-in, clock-out, starting with a clock-in |
| `Alternancia.TipoApos` | src/components/RegistrarPontoButton.tsx:22-23 | in a run of button punches, position i is a clock-in exactly when i is even, flipped when the punch before the run was a clock-in |
| `Alternancia.ParesAlternados` | src/utils/calcularHoras.ts:10-16 | on an alternating list the adjacent-pair scan pays exactly the pairs (2k, 2k + 1) |
| `Alternancia.ReconciliadorContaTodosOsPares` | src/utils/calcularHoras.ts:4-18 | for button punches with no punch before them, in time order, every clock-in is paid up to the clock-out after it |
| `Alternancia.UltimaEntradaSseImpar` | src/app/api/admin/verificar-ponto-esquecido/route.ts:58-59 | a run of button punches ends in a clock-in exactly when it is non-empty and its length is odd, or even when the punch before it was a clock-in |
| `Alternancia.SinalizadoSseImpar` | src/app/api/admin/verificar-ponto-esquecido/route.ts:49-62 | an employee whose punches of the day were all made through the button is flagged exactly when they punched that day and the count is odd, or even when the punch before the day (the week's last one, src/app/(funcionario)/funcionario/page.tsx:61) was a clock-in |

## Left out

- The Supabase client and HTTP layer are not modelled. The punch query's outcome, the employee rows and the
  insert's outcome are parameters.
- The query's own filtering (`gte`/`lte` on the window) and its ordering are not modelled. The handler works on
  whatever punch list it is given. `RegistrosOrdenadosDe` assumes the ascending order the query asks for.
- The clock (`new Date()`) is not modelled. Today's local date is the parameter `hoje` of `JanelaDoDia` and
  `JanelaPerdeUltimoSegundo` only. The handler `VerificarPontoEsquecido` takes the punch query's result as
  given, and nothing in the model ties that result to the window.
- Time zones, `toISOString` and `parseISO` are not modelled. Instants are integers of milliseconds.
- JavaScript's `Date` normalisation of out-of-range fields (month -1, day 0) is not modelled. A `Date` is the
  record of its constructor arguments.
- `ParseDateLocal.ParseDateToLocalStart`: only texts whose first three pieces are plain digit strings are
  modelled. `Number` of any other piece gives `NaN` (an invalid `Date`) or a number the model does not
  represent, such as 7 for " 7", 1000 for "1e3", 16 for "0x10" or 3.5 for "3.5".
- `ParseDateLocal.ParseDateToLocalEnd`: same restriction as `ParseDateToLocalStart`.
- Floating point is not modelled. Hours and money are `real`, so `totalMinutos / 60` and the payroll sums are
  exact.
- `toFixed(2)` and the `'.'`-to-`','` replace are not modelled. They stay as the `Numero` and `Moeda` cells.
- The browser geolocation API, its options (high accuracy, 10 s timeout) and its asynchrony are reduced to the
  `Geolocalizacao` outcome.
- React rendering is not modelled: the disabled button, the label text and the concurrent clicks that `loading`
  is meant to prevent. Toasts are returned, not shown. `console.error` is not modelled.
- `RegistrarPonto.RegistrarPontoButton.HandleRegistrar`: any exception is modelled as the insert error;
  other exceptions in the `try` block are not.
- `Texto.Prefixo`: JavaScript's `substring` and `padStart` count UTF-16 code units, while a Dafny string is a
  sequence of Unicode scalar values. A name with a character outside the Basic Multilingual Plane, such as an
  emoji, is cut at a different place than the model says, and JavaScript can split its surrogate pair.
- jsPDF and XLSX internals are not modelled: fonts, page size, pagination of long lists, file writing. The
  model records the calls and the workbook value.
- The `created_at` column of `marcacoes` is not modelled; no core function reads it.
- The payroll generation routine that builds the `ItemFolha` list is not part of this model.
- Employee provisioning routes, realtime hooks and the other screens are not part of this model.

## Findings

| source | as written | input that shows it | evidently intended | confidence | as-written member | corrected member |
|---|---|---|---|---|---|---|
| src/utils/calcularHoras.ts:20-24 | `formatarHoras` floors the hours and then rounds the fraction of an hour to minutes on its own, so the minutes can round up to 60 | `formatarHoras(0.9999)` gives "0h 60m" | round the total to whole minutes first, then split it, which gives "1h 00m"; the defect is latent, because the only caller (src/app/(funcionario)/funcionario/page.tsx:179,185) passes reconciler output, whole minutes over 60, on which both agree (`CalcularHoras.FormatarHorasCorrigidoConcorda`) | medium; not executed | `CalcularHoras.FormatarHorasSessentaMinutos` | `CalcularHoras.FormatarHorasCorrigido` |
