# WebScraper_IBGE core in Dafny

A scraper for the municipal data pages of the Brazilian statistics institute (IBGE).

## What it does

1. It fetches the catalog of municipalities for a list of states.
2. It queues the municipalities in catalog order and takes them from the queue one at a time. For each one it:
   - builds the address of the municipality's "panorama" page from a slug of its name;
   - fetches the page under a retry policy;
   - extracts key/value lines from the page's summary block (`div.topo`) and list tables (`table.lista`).
3. It accumulates those lines in a record list.
4. It writes the record list, sorted by municipality and then line, as `chave;valor;` lines of `resultado.txt`.

## The two drivers

The repository has two drivers. Both are modelled.

- **The class `Execute`** (module `Execution`, file `execute.dfy`).
  - It works through `DataFetcherService` (module `DataFetcher`).
  - It deletes the old file before starting.
  - After every municipality it appends the whole sorted record list to the file.
- **The top-level script `Program.cs`** (class `Script.Program`).
  - It fetches with its own retry policy.
  - It keeps only the last state's catalog list.
  - It writes the file once, at the end.

## How the source becomes Dafny

The drivers are imperative, and the model keeps that form:

- `fila`, `dict`, `municipios` and the output file are fields that the methods reassign;
- the queue, catalog, extraction and output loops are `while` and `for` loops;
- each loop is proved against a specification function on values:
  - `Pipeline.Drain` and `Pipeline.Collect` for the queue loops;
  - `DataFetcher.Catalog` and `Script.Fetch` for the catalog loops;
  - `Extraction.Extracted` and the scan functions for the extractor;
  - `Output.Snapshot` for the output;
  - `Retry.Policy` for the retry loop;
- the properties are lemmas about those functions.

## Representation choices

- **The output file** is `Option<seq<string>>`, a sequence of lines, `None` while the file does not exist.
- **A fetched page** is its parsed tree: a `Node` holding the tag, the class attribute, `InnerText` and the children.
- **`Descendants()`** is the pre-order listing without the node itself.
- **`SelectNodes("//tag[@class='c']")`** is the list of matching descendants of the document node, or `None` when there are none.
- **The remote servers** are functions from a URL and an attempt number to a returned value or a thrown `Fault`.
- **The Unicode tables** behind `ToLower`, `Normalize(FormD)` and `GetUnicodeCategory` are function-valued parameters (`Slug.Unicode`).
- **The Polly policy** `WaitAndRetryAsync(3, n => 3^n s)` is `Retry.Attempts`/`Retry.Policy`. The method `Retry.Execute` is its loop.
  - At most 1 + 3 attempts are made.
  - Every `FlurlHttpException` is retried.
  - The waits 3, 9 and 27 s are returned as a list instead of being slept.

## Behaviour the model keeps from the code

Some of what the code does is easy to misread. The model follows the code:

- **Retries:** the policy makes up to four attempts (one plus three retries), not three in all.
- **`IsTransientError` is never consulted.** A 404 is retried like a 503 (`Retry.RetryIgnoresTransience`).
- **`Execute` appends the whole accumulated list after every municipality**, not just the new records. This happens even when the page could not be fetched. After k municipalities the file is k snapshots (`Pipeline.SnapshotsExtend`, `Pipeline.DrainEndsWithSnapshot`). Each snapshot on its own has no two records sharing both indices (`Pipeline.DrainSorted`), but the file as a whole repeats earlier records, so only the script's single snapshot meets that invariant (`Pipeline.CollectStrictlySorted`).
- **`Program.cs` assigns `municipios` once per state.** With more than one state only the last state's list survives (`Script.FetchDropsEarlierStates`). Only one state is configured.
- **A page with a summary block but no list table aborts the run.** `foreach` over the null of `SelectNodes` throws outside the `try` (`Extraction.ExtractedMissingTable`). After this:
  - `Execute` writes nothing more;
  - `Program.cs` never writes the file at all.

## Model

| member | source | states |
|---|---|---|
| Execution.Execute.constructor | Execute.cs:9-21 | the run starts with an empty queue, an empty record list and an empty catalog, over the four states mg, pr, sc, rs |
| Execution.Execute.ProcessarMunicipio | Execute.cs:59-153 | a page that cannot be fetched adds no record; otherwise the extracted records are appended to `dict`, or the missing-table exception escapes with `dict` unchanged |
| Execution.Execute.EscreverNoArquivo | Execute.cs:49-57 | the file (created if missing) gains the whole record list, sorted by municipality then line, one `chave;valor;` line per record |
| Execution.Execute.Enfileirar | Execute.cs:32-33 | the catalog is appended to the queue in catalog order |
| Execution.Execute.ProcessarEEscrever | Execute.cs:37-43 | one dequeued municipality is processed and then the snapshot is appended, exactly as one `Step` |
| Execution.Execute.Esvaziar | Execute.cs:35-44 | the queue is drained front to back as `Drain` describes; the loop ends with the queue empty unless an exception escapes; the queue left is always a suffix of the old one, and after an exception it is exactly the municipalities after the dequeued one that raised it, every one before which ran through (`LeftOfQueue`) |
| Execution.Execute.IniciarExecucao | Execute.cs:23-47 | the file is deleted first; a failed catalog ends the run with nothing processed; otherwise the old queue and then the whole catalog are processed in order from a deleted file, a completed run leaves the queue empty, and a crashed run leaves exactly the municipalities after the one that raised the exception |
| DataFetcher.DataFetcherService.constructor | DataFetcherService.cs:18-21 | the service keeps the client it is given |
| DataFetcher.DataFetcherService.ObterMunicipios | DataFetcherService.cs:40-57 | the result is the states' lists concatenated in the order of `estados`, or the first state's exception that survives its retries |
| DataFetcher.DataFetcherService.ObterDadosMunicipio | DataFetcherService.cs:59-69 | the page is the first attempt that succeeds under the policy, or the last exception |
| DataFetcher.CatalogAllOrNothing | DataFetcherService.cs:44-51 | the catalog is returned exactly when every state's request succeeds; otherwise it is the exception of the first failing state |
| DataFetcher.CatalogStopsAtFailure | DataFetcherService.cs:44-52 | states after a failed one are never requested |
| DataFetcher.CatalogAppend | DataFetcherService.cs:42-54 | the catalog of `a + b` is the catalog of `a` followed by that of `b` |
| DataFetcher.CatalogCount | DataFetcherService.cs:42-54 | the count is the sum of the per-state counts |
| Retry.DelaySchedule | DataFetcherService.cs:29-34 | the waits are 3, 9, 27 seconds, each three times the previous one |
| Retry.AttemptsSpec | DataFetcherService.cs:27-34 | the run ends at the attempt numbered by the count of waits; every earlier attempt threw a `FlurlHttpException`; a handled exception is returned only when the 3 retries are spent; wait i is 3^(i+1) seconds |
| Retry.Execute | DataFetcherService.cs:63-66 | the retry loop yields exactly the policy's outcome and waits |
| Retry.PolicyFirstSuccess | DataFetcherService.cs:59-69 | the value returned is that of the first attempt that does not throw, if it is within the four attempts |
| Retry.OtherExceptionNotRetried | DataFetcherService.cs:28 | an exception other than `FlurlHttpException` propagates at once with no wait |
| Retry.TransientStatuses | Program.cs:12-23 | `IsTransientError` holds exactly for a present status 408, 502, 503 or 504 |
| Retry.RetryIgnoresTransience | Program.cs:25-29 | a 404, which is not transient, is still retried after 3 seconds |
| Text.TrimSpec | Execute.cs:103 | `Trim` removes white space from both ends and nothing else |
| Text.TrimEmptyIffBlank | Execute.cs:108 | a trimmed register is empty exactly when the text is blank |
| Text.Collapse | Execute.cs:114 | `Regex.Replace(s, @"\s+", " ")` leaves no two white-space characters in a row, only ' ' as white space, and keeps whether the first character is white space |
| Text.CollapseBlank | Execute.cs:114 | a non-empty run made only of white space becomes exactly one ' ' |
| Text.CollapseAppend | Execute.cs:114 | a string cut after a visible character collapses as its two parts do, so each run is replaced in place; with `CollapseBlank` this fixes the result for every input |
| Text.CollapseIdempotent | Execute.cs:114 | collapsing white space twice is collapsing once |
| Text.CollapseKeepsVisible | Execute.cs:114 | collapsing keeps every non-white-space character, in order |
| Text.CollapseKeepsLast | Execute.cs:114 | collapsing keeps a final non-white-space character |
| Text.RemoveAllAbsent | Execute.cs:115 | removing `" &nbsp;"` from a value without it changes nothing |
| Text.RemoveAllNotIdempotent | Execute.cs:115 | removing `" &nbsp;"` once can create a new occurrence: `" &nb" + " &nbsp;" + "sp;"` becomes `" &nbsp;"` |
| Text.RemoveAllChar | Execute.cs:67 | `Replace("'", "")` leaves no apostrophe |
| Text.ReplaceChar | Execute.cs:67 | `Replace(" ", "-")` keeps the length and changes exactly the spaces |
| Html.Forest | Execute.cs:98 | the pre-order listing contains every root |
| Html.FilterMatching | Execute.cs:94 | exactly the nodes with this tag and exact class are kept |
| Html.SelectNodesSpec | Execute.cs:94 | `SelectNodes` is null exactly when nothing matches, and otherwise lists exactly the matching descendants |
| Html.InForest | Execute.cs:98 | a node is in a forest's listing exactly when it is a root or below one |
| Html.NestedVisitsSkipChildren | Execute.cs:98-100 | the doubly nested `Descendants()` loop visits only nodes at least two levels below a matched node |
| Html.NestedVisitsReachGrandchildren | Execute.cs:98-100 | every node at least two levels below a matched node is visited |
| Html.VisitsCount | Execute.cs:123-127 | under a list of trees, a node `j` levels below a root is visited at least `j` times, and exactly `j` times when no node value repeats |
| Html.NestedVisitsCount | Execute.cs:98-100 | a node `k` levels below a matched node is examined at least `k - 1` times, and exactly `k - 1` times when no node value repeats below it |
| Slug.ToLower | Execute.cs:66 | lower-casing maps each character and keeps the length |
| Slug.StripMarks | Program.cs:257-259 | only characters of the input that are not non-spacing marks are kept |
| Slug.StripMarksAppend | Program.cs:257-259 | stripping works piece by piece, keeping the order |
| Slug.StripMarksCounts | Program.cs:257-259 | each non-mark character is kept exactly as often as it occurs, and marks are all dropped |
| Slug.StripMarksWithoutMarks | Program.cs:257-259 | a text without marks is kept whole |
| Slug.RemoverAcentuacao | Program.cs:255-260 | the result has only characters of the FormD decomposition that are not non-spacing marks |
| Slug.PreSlug | Program.cs:115 | before accents are stripped the slug has no apostrophe and no space |
| Slug.PanoramaUrlShape | Program.cs:116 | every page address starts with the site prefix and ends with `/panorama` |
| Slug.UrlDeterminesSlug | Execute.cs:66-68 | within one state, equal addresses mean equal slugs |
| Extraction.EmitWellFormed | Execute.cs:108-116 | a line emitted from two non-blank registers has a non-empty collapsed key and a non-empty value, neither starting with white space |
| Extraction.VisitKeepsNumbered | Execute.cs:102-119 | one node of the scan keeps the counter equal to the line count, the numbering 1, 2, ..., one municipality index and trimmed registers |
| Extraction.ScanNodesKeepsNumbered | Execute.cs:100-120 | the inner loop keeps the same invariant and only appends lines |
| Extraction.ScanItemsKeepsNumbered | Execute.cs:98-121 | the doubly nested loop keeps the same invariant and only appends lines |
| Extraction.ScanTablesKeepsNumbered | Execute.cs:123-149 | the table loop keeps the same invariant and only appends lines |
| Extraction.ExtractedLines | Execute.cs:86-143 | a page's lines start with `Nome do município` / slug as line 1, are numbered 1, 2, ... under one municipality index, and every later line is well formed |
| Extraction.VisitTraced | Execute.cs:100-119 | one node of the scan loads a register only from a cell with the label or value class, and a line is emitted only from both registers |
| Extraction.ScanNodesTraced | Execute.cs:100-119 | every line the inner loop emits has as key the collapsed text of a label cell and as value the collapsed text of a value cell without `" &nbsp;"`, both from the listing or from the registers it started with |
| Extraction.ScanItemsTraced | Execute.cs:98-119 | the same for the doubly nested loop over the descendants of the items |
| Extraction.ScanTablesTraced | Execute.cs:123-146 | the same for the table loop, with the registers carried over from the summary block |
| Extraction.ExtractedProvenance | Execute.cs:94-146 | every line of a page after the name line pairs the text of a `topo__titulo`/`lista__nome` cell the loops visit with the text of a visited `topo__valor`/`lista__valor` cell |
| Extraction.ExtractedUnmarked | Execute.cs:94-146 | a page whose visited nodes include no label cell, or no value cell, yields the name line alone |
| Extraction.ScanNodesUnmarked | Execute.cs:100-119 | a listing with no label or value cell adds no line and leaves the registers as they were |
| Extraction.ExtractedWithoutTopo | Execute.cs:94-96 | without a `div.topo` the page yields the name line alone, whatever tables it has |
| Extraction.ExtractedMissingTable | Execute.cs:123 | with a `div.topo` but no `table.lista` extraction aborts with the null-reference exception |
| Extraction.ScanDescendants | Execute.cs:100-120 | the inner loop on `chave`, `valor`, `contador` and the local list computes `ScanNodes` |
| Extraction.ScanEachDescendants | Execute.cs:98-121 | the doubly nested loop computes `ScanItems` |
| Extraction.Extract | Execute.cs:86-150 | the extraction code yields exactly `Extracted`: name line, summary scan, then table scan with the registers carried over, or the abort |
| Scenarios.TwoRegions | Execute.cs:94-149 | a page with one summary block and one table yields the summary scan followed by the table scan |
| Scenarios.SummaryAndTable | Execute.cs:86-149 | the usual layout yields the name line, the summary pair as line 2 and the table pair as line 3 |
| Scenarios.ShallowPairSkipped | Execute.cs:98-100 | a pair directly under the summary block is never seen |
| Scenarios.DeepPairTwice | Execute.cs:98-100 | a pair two wrappers deep is emitted twice, as lines 2 and 3 |
| Scenarios.RegistersCarryOver | Execute.cs:63 | a summary key left without a value pairs with the first table value |
| Output.InsertPerm | Execute.cs:52-53 | inserting adds exactly the one record |
| Output.InsertSorted | Execute.cs:52-53 | inserting into a sorted list keeps it sorted |
| Output.OrderSorted | Execute.cs:52-53 | the file order is sorted by municipality, then line |
| Output.OrderPerm | Execute.cs:51-53 | the file holds every record of the list, as often as the list does |
| Output.OrderStable | Execute.cs:52-53 | records with equal keys keep their relative order (the LINQ sort is stable) |
| Output.OrderOfSorted | Execute.cs:52-53 | a list already in key order is written in the order it was collected |
| Output.SnapshotLines | Execute.cs:51-54 | a snapshot has one line per record and contains the line of every record |
| Output.LineRoundTrip | Execute.cs:54 | a line `chave;valor;` reads back as its key and value when the key has no `;` |
| Output.LineAmbiguous | Execute.cs:54 | a key containing `;` makes two different records write the same line |
| Pipeline.IndexOfSpec | Execute.cs:89 | `IndexOf` is -1 exactly for a municipality not in the catalog, and otherwise its first position |
| Pipeline.IndexOfDistinct | Execute.cs:89 | in a catalog without repeated records each municipality's index is its position |
| Pipeline.UnitRecordsShape | Execute.cs:72-92 | a municipality adds no record exactly when its page could not be fetched; otherwise its records open with the name line and are numbered 1, 2, ... under its index |
| Pipeline.DrainAppend | Execute.cs:35-44 | draining a queue in two parts is draining the first, then the second from where it left off |
| Pipeline.DrainCrashed | Execute.cs:35-44 | after an escaped exception nothing more is processed or written |
| Pipeline.DrainStopsAt | Execute.cs:35-44 | the municipality that raises the exception is the last one processed |
| Pipeline.CrashesAtUnique | Execute.cs:35-44 | at most one municipality of a queue is the one whose exception ends the run, and the run ends in the state that municipality leaves |
| Pipeline.DrainAdvance | Execute.cs:35-44 | one pass of the queue loop advances the drain by one municipality, or ends it |
| Pipeline.DrainFileGrows | Execute.cs:43 | the file only gains lines at its end, and after a municipality it has at least as many lines as records |
| Pipeline.DrainSorted | Execute.cs:35-44 | for a catalog without repeated records the record list stays sorted by municipality, then strictly by line, so no two records share both indices |
| Pipeline.CollectStrictlySorted | Program.cs:226-250 | for a catalog without repeated records processed from an empty list, the script's gathered records are strictly in file order and its single snapshot lists them once each, in collection order |
| Pipeline.SnapshotsExtend | Execute.cs:43 | for a catalog without repeated records, each snapshot extends the previous one, so the file repeats earlier records once per later municipality |
| Pipeline.DrainGathers | Program.cs:238-250 | writing after every municipality does not change what is gathered: same records, same stopping point |
| Pipeline.DrainEndsWithSnapshot | Execute.cs:43 | after a nonempty run the file of `Execute` ends with the single snapshot `Program.cs` writes for the same records |
| Pipeline.CollectAborted | Program.cs:238-250 | after an escaped exception nothing more is gathered |
| Pipeline.CollectAppend | Program.cs:238-250 | gathering a queue in two parts is gathering the first, then the second |
| Pipeline.CollectStopsAt | Program.cs:238-250 | the municipality that raises the exception ends the gathering with the records gathered before it |
| Pipeline.CollectAdvance | Program.cs:238-250 | one pass of the script's queue loop advances the gathering by one municipality, or ends it |
| Script.FetchKeepsLastState | Program.cs:86-94 | the catalog loop fails exactly when the service's catalog would, with the same exception, but keeps only the last state's list |
| Script.FetchOneState | Program.cs:76-94 | with the one configured state the loop yields the service's catalog |
| Script.FetchDropsEarlierStates | Program.cs:92 | with two states the earlier state's municipalities are lost |
| Script.FetchStopsAt | Program.cs:86-94 | states after a failed request are never requested |
| Script.Program.constructor | Program.cs:69-82 | the script starts with an empty queue, list and catalog over the single state mg |
| Script.Program.ObterMunicipios | Program.cs:86-94 | the loop reassigns `municipios` as `Fetch` describes |
| Script.Program.ProcessarMunicipio | Program.cs:101-214 | a page that cannot be fetched adds nothing; otherwise the extracted records are appended, or the exception escapes with `dict` unchanged |
| Script.Program.Finalizar | Program.cs:216-236 | the file is created afresh and holds exactly the sorted snapshot of the record list |
| Script.Program.Enfileirar | Program.cs:98-99 | the catalog is appended to the queue in order |
| Script.Program.Esvaziar | Program.cs:238-250 | the queue is drained front to back as `Collect` describes, ending empty unless an exception escapes; after an exception the queue holds exactly the municipalities after the dequeued one that raised it (`LeftOfGathering`) |
| Script.Program.Run | Program.cs:69-252 | a failed catalog request ends the script with nothing changed; otherwise the queue is processed as `Collect` describes; the file is replaced by the sorted snapshot only when no exception escapes; after an exception the queue holds exactly the municipalities after the one that raised it |

## Left out

- **Logging, the `Stopwatch`, `Console.ReadLine` and the log-only `Finalizar` of `Execute`** (Execute.cs:155-164): they affect no modelled state.
- **Real waiting:** the retry waits are returned as a list of seconds and never slept.
- **HTTP transport, JSON deserialisation and the Flurl client configuration** (Program.cs:39-67): a request is an abstract function from URL and attempt number to a value or a fault.
- **`LoadHtml` and XPath evaluation:** a fetched page is given as its parsed tree, and `InnerText` as a field of each node.
- Execution.Execute.ProcessarMunicipio: does not model a `LoadHtml` failure inside the `try`, because parsing is outside the model. Only fetch failures are caught. The same holds for Script.Program.ProcessarMunicipio.
- **Unicode normalisation, `GetUnicodeCategory` and culture-sensitive `ToLower`:** these are uninterpreted parameters (`Slug.Unicode`). Extensions.cs is not part of this model; it wraps the same `Normalize` call.
- **Municipio.cs:** the record is reduced to `id`, `nome` and the state code `microrregiao.mesorregiao.UF.sigla`. The core reads only `nome` and the state code (Execute.cs:66-67). `id` is kept only to stand in, in equality, for the fields that were dropped.
- **Record equality used by `IndexOf`** (Execute.cs:89, 113, 140): the generated C# equality compares `id`, `nome`, the whole `microrregiao` chain and `RegiaoImediata` (Municipio.cs:50-58). The model's datatype compares only `id`, `nome` and the state code, which is coarser. Two catalog entries that agree on those three fields but differ elsewhere get the same `IndexMunicipio` in the model but different ones in C#.
- **Integer widths:** the `long` record fields, the `int` line counter `contador` (Execute.cs:62, Program.cs:106) and the `int` that `IndexOf` returns are modelled as unbounded `int`. No realistic run overflows them.
- **The `Where(x => x != null)` filter** is the identity: no null record is ever added.
- **The `ArgumentNullException` checks of `Program.cs`** (lines 103, 110-112, 149, 211) are taken not to fire. `municipios`, `web`, `doc` and `dict` are initialised before use. The `municipio` tested at lines 103 and 110 comes from the deserialised list (Program.cs:92), and that list is taken to hold no `null` element. A JSON `null` in it would make the check throw and end the run, as `Abort.NullReference` does.
- **Null catalog fields** (Execute.cs:66-67, Program.cs:114-115): every catalog entry is taken to have a non-null `nome` and a complete `microrregiao.mesorregiao.UF.sigla` chain. `Municipio` holds plain strings and cannot represent a missing one. In the source, a null there throws `NullReferenceException` before the `try`. The unit is then already dequeued and the run ends, as with `Abort.NullReference`.
- **async/await:** it is modelled as sequential calls; the code awaits every task in order.
- **ServicesConfiguration.cs:** it is dependency-injection and logging setup only.
