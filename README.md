# Lucky-draw administration frontend, modelled in Dafny

The system is a small admin frontend for a lucky draw. Operators keep a list
of participants, and on the draw screen they search for a participant by
token or draw one at random among those who have not won yet in the
selected year. They then assign that participant one of five prize ranks
for the year. Winners are listed, grouped and exported per year, and
participants can be exported to CSV and imported back.

The model covers the logic of five source files:

- `Draw` (`src/components/DrawManagement.tsx`): the token lookup, the
  random pick among eligible participants, and the ordered assignment checks.
  The draw screen's state is the class `DrawPanel`. The winners-list
  invariant (`Consistent`) allows at most one record per participant and
  year, and at most one per 1st/2nd/3rd prize and year. A successful
  assignment keeps it, provided its record is appended before the next
  assignment is checked (see Left out).
- `Csv` (`src/utils/export.ts`): the text `exportToCSV` builds,
  `getNestedValue`, and `parseCSV`, plus a quote-aware reader (see
  Findings).
- `App` (`src/App.tsx`): the participant and winner lists as the class
  `AppState`, with one method per handler and the tab badges.
- `ParticipantView` (`src/components/ParticipantManagement.tsx`): the
  filters, the add/edit form as the class `ParticipantPanel`, export of the
  filtered list and the import fan-out.
- `WinnerView` (`src/components/WinnerManagement.tsx`): the year filter,
  grouping and counts per rank, the export rows, and the rank colours.

Four support modules complete the project:

- `Types` holds the records of `src/types.ts`.
- `Seqs` holds `filter`/`find`/`findIndex`/`reverse` and the subsequence
  and pairwise notions.
- `Text` holds the JavaScript string operations used: `split`, `join`,
  `trim` with the ECMAScript white-space set, ASCII `toLowerCase`,
  `includes` and `replace`.
- `Wrappers` holds `Option` and `Result`.

Store calls (`src/utils/api.ts`) are not modelled. The record a call
returns is a parameter of the handler that receives it. `confirm` answers
are booleans. `Math.random()` is a real `roll` in [0, 1). `Date.now()`,
`getFullYear()` and `toISOString()` are parameters, and locale time
formatting is a function parameter.

`exportToCSV` quotes every cell and doubles its quotes
(`src/utils/export.ts:8`), but `parseCSV` splits every line at every comma
and strips every quote (`src/utils/export.ts:34`). So export followed by
import returns the four fields only when no field holds a comma, quote or
line break. The model follows the code and records the gap under Findings. Surrounding spaces do survive the code as written, because
each cell is trimmed while it is still quoted.

## Model

| member | source | states |
|---|---|---|
| Csv.Step | src/utils/export.ts:24 | `current?.[key]` yields something only for an own property of an object, and then that property's value |
| Csv.Walk | src/utils/export.ts:24 | the empty path yields the start value; a non-empty path from a non-object yields `undefined` |
| Csv.GetNestedValue | src/utils/export.ts:23-25 | the lookup never yields `undefined` |
| Csv.NestedValueOfKey | src/utils/export.ts:23-25 | a dot-free path yields the property's value, or the empty string when the property is missing or falsy |
| Csv.NestedValueOfPath | src/utils/export.ts:24 | `key.rest` is looked up by following `key` and then `rest` |
| Csv.Stringify | src/utils/export.ts:8 | a string stringifies to itself; `undefined` and objects to non-empty text with no line break, comma or quote |
| Csv.QuoteCell | src/utils/export.ts:8 | a cell starts and ends with a quote and holds every character of the value except quotes, and no other |
| Csv.Cells | src/utils/export.ts:6-8 | one quoted cell per header; a missing or falsy property gives the cell `""` |
| Csv.ExportLines | src/utils/export.ts:4-9 | the header line first, then one line per row |
| Csv.RowLines | src/utils/export.ts:6-9 | one data line per row, in row order: the comma join of that row's cells |
| Csv.ExportToCsv | src/utils/export.ts:4-10 | the text starts with the comma-joined headers |
| Csv.ExportLineStructure | src/utils/export.ts:4-10 | without line breaks in values, the text splits into 1 + |data| lines: the comma-joined headers, then row i on line i + 1 with one cell per header |
| Csv.ImportedId | src/utils/export.ts:36 | the id is `imported_`, the clock reading's digits, `_`, then the position's digits |
| Csv.ImportedIdsDistinct | src/utils/export.ts:33-36 | two positions of one import never share an id (for clock readings with as many digits) |
| Csv.Column | src/utils/export.ts:37-40 | column k is the line's k-th value when the line has one, else empty |
| Csv.CleanField | src/utils/export.ts:34 | a cleaned field holds no quote and no character the raw field lacks |
| Csv.RecordOf | src/utils/export.ts:35-41 | token, name and phone are columns 0, 1 and 2; the id holds the line's position; a line with fewer than two fields gives no token and name; the year is column 3 when present and non-empty, else the current year |
| Csv.CommaFields | src/utils/export.ts:34 | one field per comma-separated piece, in order, each the piece cleaned; no field holds a comma or a quote |
| Csv.FourPieceLine | src/utils/export.ts:34 | a hand-written line of four comma-free pieces, such as `T1, Ann ,555,`, reads as the four pieces, each trimmed and stripped of quotes |
| Csv.DataLines | src/utils/export.ts:28-32 | exactly the non-blank lines after the first, in order: they hold no line break, form a subsequence of those lines, and every non-blank one is kept |
| Csv.ParseWith | src/utils/export.ts:31-43 | the records are exactly the records of the data lines that have a token and a name, in line order, the k-th data line's with id `imported_<now>_<k>` |
| Csv.KeptRecords | src/utils/export.ts:43 | a record survives the token-and-name filter exactly when it is in the list and passes the test |
| Csv.LineRecords | src/utils/export.ts:33-41 | one record per data line, in order, with the line's position in its id |
| Csv.ParseCsv | src/utils/export.ts:27-44 | as written: the same, exactly, for the comma splitter |
| Csv.HeaderLineDropped | src/utils/export.ts:28-31 | the lines after a first line are the body's lines |
| Csv.ParseIgnoresHeaderLine | src/utils/export.ts:29-31 | the first line, whatever it says, does not change the import |
| Csv.ParticipantHeaderLine | src/components/ParticipantManagement.tsx:64 | the participant export's header line is `tokenNo,name,phone,year` |
| Csv.ParticipantValue | src/components/ParticipantManagement.tsx:64-65 | the value exported under the j-th header is the participant's j-th field |
| Csv.ParticipantCell | src/utils/export.ts:6-8 | the j-th cell of a participant's line quotes its j-th field |
| Csv.ParticipantCells | src/utils/export.ts:6-8 | a participant's line has exactly the four quoted fields, in header order |
| Csv.ParticipantsSingleLine | src/utils/export.ts:6-9 | participants without line breaks export values without line breaks |
| Csv.ParticipantLine | src/utils/export.ts:9 | such a participant's export line is a single non-blank line |
| Csv.ParticipantExportLines | src/utils/export.ts:4-10 | a participant export without line breaks has 1 + n lines: the header line, then participant i's comma-joined cells on line i + 1 |
| Csv.ParticipantQuoteCells | src/utils/export.ts:6-8 | the cells of a participant's export row are the quoted token, name, phone and year, in that order |
| Csv.ExportedDataLines | src/utils/export.ts:28-32 | the data lines read from a participant export without line breaks are the participants' export lines, one each, in order |
| Csv.ParseWithRoundTrip | src/utils/export.ts:27-44 | if a reader gives back each export line's four fields, importing the export returns the participants in order, each with the id of its position |
| Csv.CleanQuoted | src/utils/export.ts:34 | a quoted quote-free value is neither trimmed nor left with a quote |
| Csv.CleanQuotedPlain | src/utils/export.ts:34 | cleaning an exported quote-free cell gives the value back |
| Csv.CommaFieldsOfPlainLine | src/utils/export.ts:34 | the comma splitter reads a plain participant's export line back as its four fields |
| Csv.CommaFieldsOfPlainCells | src/utils/export.ts:34 | the comma splitter reads a line of quoted plain cells back as the cells' values |
| Csv.ExportParseRoundTrip | src/utils/export.ts:4-44 | round trip as written: fields without comma, quote or line break, with token, name and year present, come back unchanged and in order |
| Csv.ImportedFieldsPlain | src/utils/export.ts:34-39 | no imported token, name or phone holds a comma or a quote |
| Csv.CommaInNameLost | src/utils/export.ts:34 | a participant whose name holds a comma has no imported record with that name after export and import |
| Csv.CommaInNameExample | src/utils/export.ts:34 | the participant T1 / "Doe, Jane" / 555 / 2024 does not survive export and import |
| Csv.ReadQuoted | src/utils/export.ts:8 | reading a quoted field consumes a prefix: what is left is a suffix of the input, strictly shorter when the input is not empty |
| Csv.AfterComma | src/utils/export.ts:8 | there is a rest exactly when the line holds a comma; the rest is a shorter suffix |
| Csv.QuotedFields | src/utils/export.ts:34 | the quote-aware reader gives at least one field per line |
| Csv.ReadQuotedEscaped | src/utils/export.ts:8 | reading an escaped value and its closing quote gives the value and what follows |
| Csv.LeadingField | src/utils/export.ts:34 | the first field read from a line leaves no more text than the line had |
| Csv.LeadingFieldOfCell | src/utils/export.ts:8 | a quoted cell followed by text not starting with a quote reads back as the value, leaving that text |
| Csv.QuoteCells | src/utils/export.ts:8 | one quoted cell per field |
| Csv.QuotedFieldsOfCell | src/utils/export.ts:8 | a lone quoted cell reads back as its value |
| Csv.QuotedFieldsOfCellThen | src/utils/export.ts:8-9 | a quoted cell and a comma read back as the value, then the rest's fields |
| Csv.QuotedFieldsOfJoin | src/utils/export.ts:6-9 | the quote-aware reader inverts comma-joined quoted cells, for any field contents |
| Csv.ParseCsvQuoted | src/utils/export.ts:27-44 | intended: the import with the quote-aware reader is exactly the records of the data lines that have a token and a name, in order |
| Csv.QuotedFieldsOfParticipantLine | src/utils/export.ts:6-9 | a participant's export line reads back as its four fields |
| Csv.QuotedExportParseRoundTrip | src/utils/export.ts:4-44 | round trip with quoting: fields without line breaks, with token, name and year present, come back unchanged, commas and quotes included |
| Draw.Consistent | src/components/DrawManagement.tsx:59-74 | a consistent list has no two records of one participant in one year and no two records of one 1st/2nd/3rd prize in one year |
| Draw.FindByToken | src/components/DrawManagement.tsx:26 | the result is the first participant whose token equals the trimmed input exactly; none exactly when no token matches |
| Draw.Available | src/components/DrawManagement.tsx:37-39 | eligible participants are an order-preserving subsequence: exactly those without a record in the year; empty exactly when every participant has one |
| Draw.PickIndex | src/components/DrawManagement.tsx:46 | `floor(roll * n)` is a valid position among n |
| Draw.Assign | src/components/DrawManagement.tsx:53-81 | the checks in order: no selection; the participant already has a record in the year, reporting its first record's rank; a taken 1st/2nd/3rd prize. Success exactly when all pass, with the record of the selection, rank, year and time |
| Draw.UnlimitedRankNeverTaken | src/components/DrawManagement.tsx:70-74 | Consolation and Special are refused only when the participant already won that year |
| Draw.ErrorMessage | src/components/DrawManagement.tsx:55-72 | every refusal shows a non-empty message |
| Draw.AssignKeepsConsistency | src/components/DrawManagement.tsx:59-83 | a successful assignment whose stored record is appended keeps the winners list consistent |
| Draw.LimitedRankTakenAfterAssign | src/components/DrawManagement.tsx:60-74 | after a stored 1st/2nd/3rd prize, assigning it again that year fails: rank taken for another participant, already won for the same one |
| Draw.AppendOtherYear | src/components/DrawManagement.tsx:60-70 | a record of another year adds no record and holds no rank in the year |
| Draw.OtherYearSameRefusal | src/components/DrawManagement.tsx:60-66 | a participant who already won in the year is refused with the same rank after a record of another year is appended |
| Draw.OtherYearUnaffected | src/components/DrawManagement.tsx:60-74 | a record of another year changes no assignment decision |
| Draw.RecentWinners | src/components/DrawManagement.tsx:207 | at most five records, the latest first |
| Draw.DrawPanel.constructor | src/components/DrawManagement.tsx:16-20 | empty token, no selection, 1st Prize, current year, no error |
| Draw.DrawPanel.SetTokenInput | src/components/DrawManagement.tsx:108 | only the token input changes |
| Draw.DrawPanel.SetYear | src/components/DrawManagement.tsx:144 | only the year changes |
| Draw.DrawPanel.SetRank | src/components/DrawManagement.tsx:154 | only the rank changes |
| Draw.DrawPanel.SearchParticipant | src/components/DrawManagement.tsx:25-34 | the selection becomes the token match; the error is cleared, or set to the not-found message when there is none |
| Draw.DrawPanel.RandomPick | src/components/DrawManagement.tsx:36-51 | selects the eligible participant at the rolled position and copies its token, clearing the error; when none is eligible only the error changes. Any new selection has no record in the year |
| Draw.DrawPanel.AssignWinner | src/components/DrawManagement.tsx:53-87 | on success emits exactly the assigned record and clears selection, token and error; on refusal emits nothing, shows the refusal and keeps the selection |
| App.ReplaceById | src/App.tsx:43-45 | same length and ids; records with the returned id become it, the others are unchanged |
| App.ReplaceByIdProperties | src/App.tsx:41-46 | an unknown id changes nothing, and repeating an edit changes nothing more |
| App.WithoutParticipant | src/App.tsx:51 | an order-preserving subsequence holding exactly the participants with another id |
| App.WithoutWinnersOf | src/App.tsx:52 | an order-preserving subsequence holding exactly the winners of other participants |
| App.WithoutWinner | src/App.tsx:65 | an order-preserving subsequence holding exactly the winners with another id |
| App.CascadeKeepsReferences | src/App.tsx:48-53 | after the cascade, no participant or winner refers to the deleted id, and every winner still refers to a listed participant |
| App.DeletesKeepConsistency | src/App.tsx:52 | both winner deletes keep the winners list consistent |
| App.AppState.constructor | src/App.tsx:24-33 | the lists are the loaded lists |
| App.AppState.Tabs | src/App.tsx:69-88 | three tabs; the badges are the two list lengths, and the draw tab has none |
| App.AppState.AddParticipant | src/App.tsx:36-39 | the returned participant is appended; winners unchanged |
| App.AppState.EditParticipant | src/App.tsx:41-46 | participants become the replacement by id; winners unchanged |
| App.AppState.DeleteParticipant | src/App.tsx:48-54 | if confirmed, the participant and its winners go; otherwise nothing changes |
| App.AppState.AddWinner | src/App.tsx:57-60 | the returned winner is appended; participants unchanged |
| App.AppState.DeleteWinner | src/App.tsx:62-67 | if confirmed, the winners with the id go; participants never change |
| ParticipantView.MatchesSearch | src/components/ParticipantManagement.tsx:34-35 | the empty term matches everyone; a match needs a token or name at least as long as the term |
| ParticipantView.MatchesYear | src/components/ParticipantManagement.tsx:36 | the empty filter keeps every year; any other keeps that year only |
| ParticipantView.FilteredParticipants | src/components/ParticipantManagement.tsx:33-38 | an order-preserving subsequence holding exactly the participants that pass search and year filter |
| ParticipantView.SearchMeaning | src/components/ParticipantManagement.tsx:34-35 | the search holds exactly when the lowercased term occurs in the lowercased token or name |
| ParticipantView.OccursIffContains | src/components/ParticipantManagement.tsx:34-35 | `includes` on lowercased texts holds exactly when the term occurs at some position |
| ParticipantView.SearchIgnoresCaseAndPhone | src/components/ParticipantManagement.tsx:34-35 | the search ignores the term's case and never depends on the phone |
| ParticipantView.EmptySearchKeepsAll | src/components/ParticipantManagement.tsx:33-38 | empty filters keep the whole list; a year filter alone keeps exactly that year |
| ParticipantView.ExportHoldsFiltered | src/components/ParticipantManagement.tsx:63-66 | the export has the header line `tokenNo,name,phone,year`, then exactly one line per filtered participant: line k is the k-th shown participant's comma-joined cells, the shown participants keep the list's order, and each is listed and passes the search and year filters |
| ParticipantView.Merge | src/components/ParticipantManagement.tsx:43 | the sent record keeps the edited id and carries the form's four fields |
| ParticipantView.MergeProperties | src/components/ParticipantManagement.tsx:43 | an untouched form sends the record back as it was; only the edited record's id matters |
| ParticipantView.RequestAll | src/components/ParticipantManagement.tsx:76 | one request per record, in order |
| ParticipantView.ImportFile | src/components/ParticipantManagement.tsx:73-76 | as written: the requests are exactly what `parseCSV` returns, in order, each with token and name |
| ParticipantView.ImportFileQuoted | src/components/ParticipantManagement.tsx:73-76 | intended: the requests are exactly what the quote-aware import returns, in order, each with token and name |
| ParticipantView.ParticipantPanel.constructor | src/components/ParticipantManagement.tsx:19-28 | form hidden and empty with the current year, no filters, not editing |
| ParticipantView.ParticipantPanel.Shown | src/components/ParticipantManagement.tsx:33-38 | the shown list is the filtered list under the panel's filters |
| ParticipantView.ParticipantPanel.OpenForm | src/components/ParticipantManagement.tsx:110 | the form is shown; nothing else changes |
| ParticipantView.ParticipantPanel.SetSearchTerm | src/components/ParticipantManagement.tsx:127 | only the search term changes |
| ParticipantView.ParticipantPanel.SetYearFilter | src/components/ParticipantManagement.tsx:133 | only the year filter changes |
| ParticipantView.ParticipantPanel.SetFormField | src/components/ParticipantManagement.tsx:163-185 | only the typed form field changes |
| ParticipantView.ParticipantPanel.Submit | src/components/ParticipantManagement.tsx:40-50 | editing sends the merged record, otherwise the form is sent as new; then the form is reset and hidden and editing ends |
| ParticipantView.ParticipantPanel.Edit | src/components/ParticipantManagement.tsx:52-61 | the participant is being edited, its four fields fill the form, and the form is shown |
| ParticipantView.ParticipantPanel.Cancel | src/components/ParticipantManagement.tsx:202-206 | the form is hidden and reset, and editing ends |
| WinnerView.FilteredWinners | src/components/WinnerManagement.tsx:17 | an order-preserving subsequence holding exactly the records of the year |
| WinnerView.Group | src/components/WinnerManagement.tsx:19-21 | an order-preserving subsequence holding exactly the records whose field equals the label |
| WinnerView.WinnersByPrize | src/components/WinnerManagement.tsx:19-21 | as written: exactly the records whose `prize` equals the rank |
| WinnerView.WinnersByRank | src/components/WinnerManagement.tsx:19-21 | as intended: exactly the records whose `rank` equals the rank |
| WinnerView.NoPrizeEmptyGroups | src/components/WinnerManagement.tsx:20 | as written, records without `prize` give empty groups and five zero counts |
| WinnerView.NoneLabelled | src/components/WinnerManagement.tsx:20 | records without the grouped field fall in no group |
| WinnerView.HitsOnce | src/components/WinnerManagement.tsx:80-81 | with distinct labels a record is counted once if its field is among them, otherwise not at all |
| WinnerView.SumSizesStep | src/components/WinnerManagement.tsx:80-81 | the counts split into the first record's hits plus the rest's counts |
| WinnerView.SumSizesOfEmpty | src/components/WinnerManagement.tsx:80-81 | no records, zero counts |
| WinnerView.SumSizesCountsLabelled | src/components/WinnerManagement.tsx:79-90 | the groups of distinct labels are disjoint: their sizes add up to the number of records whose field is a label |
| WinnerView.RankLabelsDistinct | src/components/WinnerManagement.tsx:15 | the five labels are distinct |
| WinnerView.PrizeCountsBounded | src/components/WinnerManagement.tsx:79-90 | the five displayed counts add up to at most the number of records of the year |
| WinnerView.RankCountsComplete | src/components/WinnerManagement.tsx:79-90 | grouped by rank, the five counts add up to exactly the number of records of the year |
| WinnerView.RankCountsCompleteFor | src/components/WinnerManagement.tsx:79-90 | the same for any distinct labels covering every rank |
| WinnerView.ExportRow | src/components/WinnerManagement.tsx:24-31 | the object has every export header as a property; its rank property is `undefined` exactly when the field it reads is absent |
| WinnerView.ExportedValue | src/components/WinnerManagement.tsx:24-31 | the value under each export header is the snapshot's token, name or phone, the rank column's text (empty when absent), the year or the formatted time |
| Csv.ValueUnder | src/utils/export.ts:23-24 | the text exported under a dot-free header is the property's own text, or empty when it is falsy |
| WinnerView.ExportedCell | src/components/WinnerManagement.tsx:24-33 | each exported cell quotes that field |
| WinnerView.ExportedCells | src/components/WinnerManagement.tsx:24-33 | a record's cells are its six quoted fields, in header order |
| WinnerView.ExportedRankEmpty | src/components/WinnerManagement.tsx:28 | as written, a record without `prize` exports the empty rank cell `""` |
| WinnerView.ExportedRankIntended | src/components/WinnerManagement.tsx:28 | intended: the rank cell quotes the record's `rank` |
| WinnerView.ExportRows | src/components/WinnerManagement.tsx:24 | one export object per record, in order |
| WinnerView.ExportWinners | src/components/WinnerManagement.tsx:23-35 | as written: the text starts with the header line |
| WinnerView.ExportWinnersIntended | src/components/WinnerManagement.tsx:23-35 | intended: the text starts with the header line |
| WinnerView.WinnerRowsSingleLine | src/components/WinnerManagement.tsx:24-31 | records without line breaks export values without line breaks |
| WinnerView.ExportRowsLines | src/components/WinnerManagement.tsx:33-34 | the export has the header line, then exactly one line per record with its six quoted fields |
| WinnerView.ShownSingleLine | src/components/WinnerManagement.tsx:17 | the records of the year keep the no-line-break property of the whole list |
| WinnerView.ExportWinnersLines | src/components/WinnerManagement.tsx:23-35 | as written: one line per record of the year, in order, holding token, name, phone, the `prize` text (empty when absent), year and formatted time |
| WinnerView.ExportWinnersIntendedLines | src/components/WinnerManagement.tsx:23-35 | intended: the same lines with the record's `rank` in the rank column |
| WinnerView.RankColor | src/components/WinnerManagement.tsx:37-46 | any text that is not a rank gets the gray default, and gray is returned exactly for texts other than the four non-gray ranks, so 2nd Prize shares the default |
| WinnerView.DeleteRequest | src/components/WinnerManagement.tsx:147-150 | a delete is requested exactly when confirmed, for that record's id |

## Left out

- Store calls (`src/utils/api.ts`) are not part of this model. Fetches, posts and their failures are out of scope. Each handler receives the record the store returned, and the model assumes a stored winner carries the draft's participant, rank, year and time (`Draw.Records`).
- The asynchronous load with `Promise.all` and the `loading` flag: there is no rule in them to state. `App.AppState.constructor` starts from the loaded lists.
- `Math.random`: the roll is a parameter in [0, 1). Uniformity of the pick is not stated.
- Clock and locale: `Date.now()`, `getFullYear()` and `toISOString()` are parameters. `toLocaleString` and its relatives are a `formatTime` parameter.
- `confirm` and `alert` dialogs are booleans, or are left out. The alert in the import's `catch` is left out because `parseCSV` on a string does not throw.
- Browser I/O is left out: `Blob`, object URLs, the hidden download link, `FileReader` and the file input. The export is modelled up to the text handed to `Blob`, and the import from the text the reader delivers.
- JSX, class names, icons, tab switching and the fixed year lists of the dropdowns are left out.
- `Text.Lower`: folds ASCII letters only, not the full Unicode case mapping of `toLowerCase`.
- `Csv.Stringify`: covers strings, objects and `undefined`, the only values the exports pass. Numbers and booleans are not modelled.
- `Csv.GetNestedValue`: does not model lookups that reach inherited `Object.prototype` properties or own properties of strings (`length`, indices), and neither does `WinnerView.RankColor`, for the same reason. The screens pass only fixed header names and the five rank labels.
- Draw.AssignKeepsConsistency: assumes each stored record is appended before the next assignment is checked. `assignWinner` calls `onAddWinner` without awaiting it and clears the selection at once (`src/components/DrawManagement.tsx:83-84`), while the `winners` list only grows when `await addWinner` returns (`src/App.tsx:57-60`). Two assignments made in that window are both checked against the same stale list, so they can store two records for one participant and year, or two for one limited prize. The same holds for `Draw.LimitedRankTakenAfterAssign`. Interleaved handlers are not modelled.
- Csv.ImportedIdsDistinct: requires the two clock readings to print with as many digits. Readings of different lengths can collide, as `imported_1_23` and `imported_12_3` would; with the per-line `Date.now()` of `src/utils/export.ts:36` that needs the clock to gain a digit during one import.
- Csv.ParseCsv: uses one `now` and one `currentYear` for the whole import. The code evaluates `Date.now()` and `getFullYear()` anew for each line inside `map` (`src/utils/export.ts:36` and `:40`), so records of one import can carry different timestamps, or different years across New Year. The same holds for `Csv.ParseWith`, `Csv.ParseCsvQuoted` and `Csv.RecordOf`.
- The header row `parseCSV` computes and never uses is left out. `Csv.ParseIgnoresHeaderLine` states that it has no effect.

## Findings

| source | as written | input that shows it | evidently intended | confidence | as-written member | corrected member |
|---|---|---|---|---|---|---|
| src/utils/export.ts:34 | `parseCSV` splits every line at every comma and removes every quote, ignoring the quoting that `exportToCSV` writes | participant with token T1, name "Doe, Jane", phone 555, year 2024: its name comes back as "Doe", its phone as "Jane" | quoted fields are read whole, a doubled quote stands for one quote, so export then import returns every field | not executed | Csv.CommaInNameLost | Csv.QuotedExportParseRoundTrip |
| src/components/WinnerManagement.tsx:20 | groups and counts winners by `w.prize`, a field the draw never writes (it writes `rank`) | any record the draw creates, e.g. rank "1st Prize" with no `prize`: every group is empty and every count is 0 | group by `rank`, so the five counts add up to the year's records | not executed | WinnerView.NoPrizeEmptyGroups | WinnerView.RankCountsComplete |
| src/components/WinnerManagement.tsx:28 | the export's rank column reads `w.prize` | the same record exports `""` in its rank column | the rank column holds `rank` | not executed | WinnerView.ExportedRankEmpty | WinnerView.ExportWinnersIntendedLines |

The handlers model the code as written, and each has its corrected
counterpart beside it:

- `ParticipantView.ImportFile` reads files with `Csv.ParseCsv`;
  `ParticipantView.ImportFileQuoted` reads them with `Csv.ParseCsvQuoted`.
- `WinnerView.ExportWinners` reads the rank column from `prize`;
  `WinnerView.ExportWinnersIntended` reads it from `rank`.
- `WinnerView.WinnersByPrize` groups by `prize`; `WinnerView.WinnersByRank`
  groups by `rank`, and the complete counts are stated for it.

