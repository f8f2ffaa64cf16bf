# String tables and report extraction for a solar design tool

This project models two parts of a Streamlit tool that turns a Helioscope design report
into a set of PDF drawing pages.

**The string-table engine.** `fill_table_page5` takes a table with one row per inverter,
`["INV", i + 1] + ["-"] * total_strings`. It fills that table with the number of panels on
each string. It runs in three steps:

1. It builds a column visitation order: string slot 0 of every MPPT group, then slot 1 of
   every group, and so on, with five slots per group.
2. It writes the base string length into the first `no_of_col_to_be_filled` visited
   columns of every inverter row.
3. It then adds one panel at a time to the integer cells, sweeping in that order, until the
   integer cells add up to the panel count.

The base string length is the `k` in 5..17 that leaves the smallest remainder of the panel
count. Two pages call the engine:

- the design-report page, which derives every argument from the parsed report and first
  rejects zero counts;
- the manual String Table page, which takes them from its form.

**Report post-processing.**

- `extract_components_from_pdf` gathers the "Inverter:", "Module:" and "String:" captures
  of every page, and `parse_helioscope_data` counts them.
- `extract_helioscope_data` works from the matches of its component and loss patterns. It:
  - builds the component records and the system-loss records;
  - picks the primary inverter, strings and module records;
  - stores the system summary, the inverter schedule and the string-table entry in the
    session, or returns `None` when one of those statements raises.
- The panel schedule of the design-report page holds three rows per inverter.

Modules:

| file | module | what it holds |
|---|---|---|
| `seqs.dfy` | `Seqs` | the distinctness predicate |
| `table.dfy` | `Table` | cells, the table, its integer total, the fresh table |
| `visit_order.dfy` | `ColumnOrder` | the column visitation order |
| `panels_per_string.dfy` | `PanelsPerString` | the base string length and the remainder |
| `fill.dfy` | `StringFill` | `fill_table_page5` as methods, specified by functions |
| `fill_facts.dfy` | `FillFacts` | what the fill does: totals, fairness, untouched cells |
| `allocation.dfy` | `Allocation` | the corrected engine, which reports what the original hides |
| `string_table_pages.dfy` | `StringTablePages` | the design-report and manual String Table pages |
| `components.dfy` | `ReportComponents` | per-page aggregation and the parsed summary |
| `text.dfy` | `Text` | `strip`, ASCII `lower`, `in`, `int` and `float` on the pattern's digits |
| `helioscope.dfy` | `Helioscope` | `extract_helioscope_data` after the matches are collected |
| `panel_schedule.dfy` | `PanelSchedule` | the inverter rows of the panel schedule |

How the engine's state is modelled:

- A cell is `Text(s)` or `Num(n)`. This mirrors the program's `isinstance(cell, int)` test.
- The engine's outcome is `Returned(table)`, or `Diverges` when its `while` loop never ends.
- The top-up loop is specified without loops. `Positions` lists the integer cells one sweep
  meets, in order. The returned table is the filled table after the first `d` increments of
  that list repeated round after round (`ApplyCycle`), where `d` is the number of panels
  still missing.

## Model

Sources: `app_phase2_combined_v4_final.py` is the later version of the tool, and `app.py` is
the original version.

| member | source | states |
|---|---|---|
| PanelsPerString.Key | app_phase2_combined_v4_final.py:1145 | the key of the `min`, `abs(n - x * (n // x))`, is `n mod x` |
| PanelsPerString.BestPanelsPerString | app_phase2_combined_v4_final.py:1145 | the base length lies in 5..17; its remainder is at most that of every candidate; and it is strictly smaller than that of every smaller candidate, so ties go to the smallest |
| PanelsPerString.Remainder | app_phase2_combined_v4_final.py:1146 | `0 <= remainder < best`, `remainder == n mod best`, and no candidate in 5..17 leaves less |
| PanelsPerString.MultipleOfFive | app_phase2_combined_v4_final.py:1145-1146 | any multiple of five gets strings of five with no remainder |
| PanelsPerString.DivisibleCandidate | app_phase2_combined_v4_final.py:1145-1146 | when some candidate divides the count, the remainder is zero and the base length is a divisor no larger than that candidate |
| ColumnOrder.VisitOrder | app_phase2_combined_v4_final.py:502-507 | every visited column is below `total_strings` |
| ColumnOrder.BuildOrder | app_phase2_combined_v4_final.py:502-507 | the nested loops build the visitation order; no column appears twice; a column appears exactly when it is below `total_strings` and below `5 * no_of_mppt` |
| ColumnOrder.VisitOrderMembers | app_phase2_combined_v4_final.py:503-507 | a column is visited if and only if the table has it and it lies in one of the MPPT groups |
| ColumnOrder.VisitOrderDistinct | app_phase2_combined_v4_final.py:503-507 | no column is visited twice |
| ColumnOrder.VisitOrderPermutation | app_phase2_combined_v4_final.py:1149 | with `no_of_mppt * 5` string columns, the order is a permutation of all of them |
| ColumnOrder.TwoGroupOrder | app.py:231-235 | with two MPPT groups and at least ten string columns, the order is exactly 0, 5, 1, 6, 2, 7, 3, 8, 4, 9 |
| Table.InitialTable | app_phase2_combined_v4_final.py:1154 | the fresh table has `n` rows of `width + 2` cells: "INV", the ordinal `i + 1`, then "-" in every string cell |
| Table.Total | app_phase2_combined_v4_final.py:513 | the `sum(...)` the loop compares with the panel count: the integer cells from index 2 of every row; its meaning is stated by Table.TotalOfCounts and Table.TotalBump |
| Table.TotalOfCounts | app_phase2_combined_v4_final.py:513 | text cells and the label columns add nothing: a table with no integer string cell holds 0 panels, and one with no negative count holds a non-negative total |
| Table.InitialTotal | app_phase2_combined_v4_final.py:1154 | a fresh table holds no panels |
| Table.TotalBump | app_phase2_combined_v4_final.py:516-517 | incrementing an integer string cell adds one panel to the total |
| StringFill.FillTable | app_phase2_combined_v4_final.py:498-520 | the method returns what `FillSpec` says fill_table_page5 returns, or `Diverges` exactly when its loop never ends; `remainder` is not read |
| StringFill.SetColumns | app_phase2_combined_v4_final.py:508-512 | the first loop writes `k` into the first `min(cols, len(order))` visited columns of the inverter rows, and nothing else |
| StringFill.TopUp | app_phase2_combined_v4_final.py:513-520 | the `while` loop returns the filled table when it already holds enough panels, runs for ever when a sweep finds no integer cell, and otherwise returns the table after the missing panels were dealt out cyclically |
| StringFill.Sweep | app_phase2_combined_v4_final.py:514-519 | one sweep increments a prefix of the integer cells in sweep order, one panel each; it stops exactly when the total reaches the panel count, or it covers every cell |
| StringFill.SweepColumn | app_phase2_combined_v4_final.py:515-519 | the rows of one column are visited top to bottom, with the same early return |
| StringFill.VisitCell | app_phase2_combined_v4_final.py:516-517 | only an integer cell is incremented, and the total grows by one exactly then |
| StringFill.FillSpec | app_phase2_combined_v4_final.py:498-520 | the reference definition of what fill_table_page5 returns: the top-up outcome of the filled table; its properties are stated by FillFacts.TopUpTotal, FillFacts.TopUpFair, FillFacts.FreshFill and FillFacts.FreshUntouched |
| StringFill.TopUpOutcome | app_phase2_combined_v4_final.py:513-520 | the reference definition of the `while` loop's result; StringFill.TopUp is proved equal to it, and FillFacts.TopUpTotal and FillFacts.TopUpFair state what it means |
| StringFill.Filled | app_phase2_combined_v4_final.py:508-512 | the fill phase keeps the table's shape |
| FillFacts.FilledColumns | app_phase2_combined_v4_final.py:508-512 | the filled columns are the first `min(cols, len(order))` visited columns |
| FillFacts.FilledCell | app_phase2_combined_v4_final.py:508-512 | after the fill phase, a cell holds `k` exactly when it is in an inverter row and a filled column; every other cell, TAG and `#` included, is unchanged |
| FillFacts.PositionsMembers | app_phase2_combined_v4_final.py:514-516 | a sweep meets exactly the integer cells of visited columns in inverter rows |
| FillFacts.PositionsDistinct | app_phase2_combined_v4_final.py:514-516 | a sweep meets no cell twice |
| FillFacts.TopUpTotal | app_phase2_combined_v4_final.py:513-520 | the loop diverges if and only if panels are missing and no visited cell holds an integer; otherwise the returned total is the panel count, or the larger filled total |
| FillFacts.TopUpFair | app_phase2_combined_v4_final.py:514-519 | when the sweep cells all start at `k`, each ends at `k + d / m` or one more, and the cells with one more are the first `d mod m` in sweep order (`m` is the number of sweep cells) |
| FillFacts.TopUpCell | app_phase2_combined_v4_final.py:514-517 | the loop never lowers a cell; it keeps every text cell, the label columns, the rows past the inverters and the unvisited columns |
| FillFacts.FreshFilledTotal | app_phase2_combined_v4_final.py:508-512 | on a fresh table the fill phase places `filled columns * n * k` panels |
| FillFacts.FreshPositions | app_phase2_combined_v4_final.py:508-516 | on a fresh table a sweep meets exactly the filled cells, each holding `k` |
| FillFacts.FreshFill | app_phase2_combined_v4_final.py:498-520 | a fresh table diverges if and only if panels are wanted and no cell was filled; otherwise the total is the larger of the panel count and the filled total |
| FillFacts.FreshFair | app_phase2_combined_v4_final.py:513-519 | on a fresh table the extra panels are spread round-robin, as in TopUpFair |
| FillFacts.FreshUntouched | app_phase2_combined_v4_final.py:508-519 | on a fresh table, every string cell outside the filled columns is still "-" at the end, and the TAG and `#` cells are as built |
| Allocation.Allocate | app_phase2_combined_v4_final.py:498-520 | same two phases; succeeds exactly when fill_table_page5 would return a table holding the panel count, with that table; otherwise reports the overfilled total or the missing integer cell, each if and only if that case occurs |
| ReportComponents.ExtractComponents | app.py:22-40 | each of the three lists is the concatenation, in page order, of that kind's captures on every page |
| ReportComponents.FlattenAppend | app.py:22-38 | reading two runs of pages concatenates their captures |
| ReportComponents.FlattenMembers | app.py:22-38 | a string is in a list if and only if some page captured it for that kind |
| ReportComponents.FlattenCount | app.py:22-38 | each list is as long as all that kind's captures together |
| ReportComponents.FlattenFirst | app.py:22-38 | the first entry of each list is the first capture of the earliest page that has one |
| ReportComponents.ParseHelioscopeData | app.py:43-53 | each count is the length of its list of captures; each model is the first capture, or "" when the list is empty |
| ReportComponents.ParsedFromPages | app.py:43-53 | each count is the number of captures of its kind on all pages; each model is the first capture, or "" when there is none |
| StringTablePages.DesignColumns | app.py:536 | the column count lies in 1..7; it uses at most the strings there are, and seven or one more column would exceed them |
| StringTablePages.DesignParameters | app.py:503-548 | each of the three ValueErrors is raised if and only if its count is the first one that is zero; otherwise it gives `max(10, strings)` columns, a base length in 5..17 with its remainder, 1..7 columns to fill and two MPPT groups |
| StringTablePages.DesignStringTable | app.py:503-549 | the page rejects exactly the invalid reports, with the same error; otherwise its table comes from fill_table_page5, holds `max(panels, cols * inverters * k)` panels, and keeps the labels and every string column from the eleventh on as built |
| StringTablePages.DesignFill | app.py:227-248 | with two groups, at least ten columns and 1..7 filled columns, a fresh table always returns, with the total above and the later columns untouched |
| StringTablePages.FreshLabelled | app_phase2_combined_v4_final.py:508-519 | when the filled columns all lie before `unused`, the labels and every later string cell stay as built |
| StringTablePages.ManualColumns | app_phase2_combined_v4_final.py:1147 | the column count lies in 0..7 and is zero if and only if fewer strings are used than there are inverters |
| StringTablePages.ManualStringTable | app_phase2_combined_v4_final.py:1145-1164 | the page never returns if and only if fewer strings are used than there are inverters; otherwise its total is `max(panels, min(cols, 5 * mppt) * inverters * k)` |
| StringTablePages.ManualFill | app_phase2_combined_v4_final.py:1149-1164 | on the page's fresh table the fill diverges if and only if no column is filled and panels are wanted |
| StringTablePages.ManualHangExample | app_phase2_combined_v4_final.py:1147 | two inverters and one string used: no column is filled and the page never returns |
| StringTablePages.OvershootExample | app_phase2_combined_v4_final.py:513-520 | with fewer than five panels, one group and as many strings as inverters, the table holds five panels per inverter, more than the panel count |
| StringTablePages.SmallBest | app_phase2_combined_v4_final.py:1145 | below five panels the base length is five |
| StringTablePages.CorrectedManualColumns | app_phase2_combined_v4_final.py:1147 | the corrected count lies in 1..7 and agrees with the page's count whenever that is not zero |
| StringTablePages.CorrectedManualStringTable | app_phase2_combined_v4_final.py:1145-1164 | the corrected page always returns: a table holding exactly the panel count, or the overfill report with its filled total, which exceeds the panel count |
| StringTablePages.CorrectedFill | app_phase2_combined_v4_final.py:1147-1164 | with at least one column to fill, the page's fresh table never diverges, and the fill places `min(cols, 5 * mppt) * n * k` panels |
| Text.StripStart | app_phase2_combined_v4_final.py:668 | `lstrip` leaves no leading white space |
| Text.StripEnd | app_phase2_combined_v4_final.py:668 | `rstrip` leaves a prefix with no trailing white space |
| Text.Strip | app_phase2_combined_v4_final.py:668-672 | `strip` leaves no white space at either end |
| Text.StripInfix | app_phase2_combined_v4_final.py:668-672 | the input is the stripped text with runs of white space before and after it |
| Text.StripKeeps | app_phase2_combined_v4_final.py:670-671 | text whose ends are not white space is its own `strip` |
| Text.StripIdempotent | app_phase2_combined_v4_final.py:682 | stripping twice is stripping once |
| Text.Lower | app_phase2_combined_v4_final.py:680 | `lower` keeps the length |
| Text.LowerFacts | app_phase2_combined_v4_final.py:680 | after `lower` no ASCII capital is left, other characters are kept, and `lower` is idempotent |
| Text.Contains | app_phase2_combined_v4_final.py:680 | `sub in s`: the empty string is in every string, and nothing longer than `s` is in it |
| Text.ContainsIff | app_phase2_combined_v4_final.py:680 | `sub in s` holds if and only if `sub` occurs at some position of `s` |
| Text.LowerContains | app_phase2_combined_v4_final.py:680 | lower-casing keeps every occurrence: when `sub` is in `s`, the lower-cased `sub` is in the lower-cased `s` |
| Text.ContainsInfix | app_phase2_combined_v4_final.py:689-691 | a text contains everything written inside it |
| Text.NatToString | app.py:588 | the rendering of a count is a non-empty digit run with no leading zero |
| Text.DigitsValue | app_phase2_combined_v4_final.py:710 | `int()` on a run of `m` decimal digits gives a value below `10^m` |
| Text.DigitsOfNat | app.py:588 | reading back a count's rendering gives the count |
| Text.NatOfDigits | app_phase2_combined_v4_final.py:710 | a digit run without a leading zero is the rendering of its `int` value |
| Text.NatToStringInjective | app.py:588 | different counts render differently |
| Text.CountOf | app_phase2_combined_v4_final.py:712 | a character occurs at most `len(s)` times, and occurs zero times if and only if no character of `s` is it |
| Text.FloatParses | app_phase2_combined_v4_final.py:712 | when `float()` accepts a value of the pattern's alphabet: a non-empty digit run always parses; an accepted text is non-empty and has no comma |
| Helioscope.ToComponent | app_phase2_combined_v4_final.py:667-673 | one component record, every group stripped; what stripping keeps is stated by Helioscope.StripShaped |
| Helioscope.ComponentsOf | app_phase2_combined_v4_final.py:666-673 | the reference definition of `components`, one record per match; Helioscope.BuildComponents is proved equal to it and Helioscope.ComponentsShaped states its shape |
| Helioscope.BuildComponents | app_phase2_combined_v4_final.py:666-673 | one record per match, in match order, each group stripped |
| Helioscope.StripShaped | app_phase2_combined_v4_final.py:670-671 | stripping keeps a matched count and value as they were |
| Helioscope.ComponentsShaped | app_phase2_combined_v4_final.py:661-673 | every record has a digit count and a value of digits, dots and commas |
| Helioscope.IsLoss | app_phase2_combined_v4_final.py:680 | the keyword test; a label shorter than "loss" never passes |
| Helioscope.KeywordAnyCase | app_phase2_combined_v4_final.py:680 | the test ignores case: a label holding any casing of "loss" or "degradation" passes |
| Helioscope.ToLoss | app_phase2_combined_v4_final.py:681-684 | one loss record: the value followed by a single "%", and a label no longer than the matched one |
| Helioscope.SystemLosses | app_phase2_combined_v4_final.py:676-685 | "SYSTEM LOSSES": at most one record per match, each a percentage; membership and order are stated by Helioscope.LossesMembers and Helioscope.LossesAppend |
| Helioscope.FilterLosses | app_phase2_combined_v4_final.py:679-684 | the loop builds exactly the system-loss list |
| Helioscope.LossesAppend | app_phase2_combined_v4_final.py:679-684 | the filter works match by match, so discovery order and repetitions are kept |
| Helioscope.LossesMembers | app_phase2_combined_v4_final.py:679-684 | a record is present if and only if some match passes the keyword test and makes it: the stripped label and the value with "%" |
| Helioscope.LossSource | app_phase2_combined_v4_final.py:680-684 | every record comes from a match that passes the test |
| Helioscope.LossKept | app_phase2_combined_v4_final.py:680-684 | every match passing the test has its record in the list |
| Helioscope.LossesSingle | app_phase2_combined_v4_final.py:680-684 | one match gives one record when it passes the test, none otherwise |
| Helioscope.LossesLength | app_phase2_combined_v4_final.py:679-684 | no more records than matches; none when no match passes; one per match when all pass |
| Helioscope.FirstIndex | app_phase2_combined_v4_final.py:689-691 | `None` if and only if no label contains the key; otherwise the position of a match with no match before it |
| Helioscope.FirstWith | app_phase2_combined_v4_final.py:689-691 | the record found has the shape the pattern guarantees |
| Helioscope.PrimaryRecords | app_phase2_combined_v4_final.py:688-692 | the three primary records, each of pattern shape |
| Helioscope.FloorDiv | app_phase2_combined_v4_final.py:720 | `a // b` is the number of whole `b`s in `a` |
| Helioscope.StoreSummary | app_phase2_combined_v4_final.py:695-705 | the block raises if and only if a module is found without an inverter; it then stores nothing; otherwise it stores the summary of the two; it writes no other entry |
| Helioscope.StoreSchedule | app_phase2_combined_v4_final.py:708-713 | the block raises if and only if an inverter's value is rejected by `float`; otherwise it stores the inverter's count, description and value; it writes no other entry |
| Helioscope.StoreStringTable | app_phase2_combined_v4_final.py:716-721 | with strings and an inverter, the block raises if and only if the module is missing or the inverter count is zero, in that order; otherwise it replaces the entry by the counts, the floor of strings over inverters, and no "no_of_mppt" key |
| Helioscope.Store | app_phase2_combined_v4_final.py:686-729 | the primary records are stored whatever happens next, and data returned are the losses and the component records |
| Helioscope.ExtractHelioscopeData | app_phase2_combined_v4_final.py:633-729 | the early-returning method agrees with the staged specification `Store` on the stripped records and the filtered losses |
| Helioscope.ExtractedIff | app_phase2_combined_v4_final.py:695-729 | data are returned if and only if no block raises; they are then the losses and the component records |
| Helioscope.MissingModuleFails | app_phase2_combined_v4_final.py:708-729 | strings and an inverter without a module give `None`; the summary and the string-table entry keep their old values; when the inverter's value is a number, the failure is the missing module and the inverter schedule is already stored, otherwise the failure is the value and the schedule is unchanged |
| Helioscope.ZeroInvertersFails | app_phase2_combined_v4_final.py:716-729 | an inverter count of zero gives `None` from the division, with the string-table entry unchanged |
| Helioscope.StringTableReplaced | app_phase2_combined_v4_final.py:716-721 | when data are returned after finding strings and an inverter, the string-table entry is the counts, the floor of strings over inverters, and no "no_of_mppt" key |
| Helioscope.StringTableKept | app_phase2_combined_v4_final.py:716-721 | in every other case the string-table entry keeps its old value |
| Helioscope.SummaryStored | app_phase2_combined_v4_final.py:695-705 | the summary is replaced if and only if a module and an inverter are found; it then shows their values in kW, their descriptions and counts, and empty racking fields |
| Helioscope.ScheduleStored | app_phase2_combined_v4_final.py:708-713 | the schedule is replaced if and only if an inverter is found whose value is a number; it then has the inverter's count as its number of rows |
| PanelSchedule.InverterRows | app.py:584-593 | the nested loops give three rows per inverter; row `3i + j` is phase `j` of inverter `i` |
| PanelSchedule.RowOf | app.py:584-593 | every row is phase `k mod 3` of inverter `k / 3` |
| PanelSchedule.Circuits | app.py:592 | the circuits are numbered 1 to three times the inverter count, in row order |
| PanelSchedule.FirstRowsOnly | app.py:588-591 | exactly the first row of each inverter has a description, the breaker "50" and the phase "3"; every row has the load "30000" |
| PanelSchedule.Descriptions | app.py:588 | the first row of inverter `i` reads "INVERTER i+1", and no two rows name the same inverter |

## Left out

- Reading the PDF (`fitz.open`, `get_text`, `PdfReader.extract_text`) is left out. The
  model starts from what the patterns match, given as sequences of captures. A component
  match is assumed to have the shape its pattern guarantees: `\d+` for the count and
  `[\d.,]+` for the value, with ASCII digits only.
- The regular expressions themselves are left out, so the matches are inputs. This covers
  the component, loss and labelled-line patterns, and the project, production and weather
  patterns. The project, production and weather entries of the returned dictionary are not
  modelled; the report holds only the losses and the components.
- The Streamlit pages, forms, widgets and navigation, and any output of PDF, Excel or CSV,
  are left out. So are `lru_cache` and the JSON round trip between the two parsing
  functions. `st.error` becomes a `Failure` cause.
- The session's initial entries are a parameter of the extraction, not the defaults the
  program installs.
- Helioscope.StoreSchedule: the `kw` entry keeps the value's text instead of the float
  `float()` makes of it. Floating point is not modelled; only whether `float()` accepts the
  text is.
- Text.Lower: `lower()` folds ASCII letters only, because Unicode case mapping is not
  modelled. Text.LowerFacts, Text.LowerContains and Helioscope.KeywordAnyCase inherit this.
- Text.NatOfDigits: `int()` is modelled on ASCII digits only. The `\d` of Python patterns
  also matches other Unicode digits, which the model excludes through the shape assumption.
  Text.DigitsValue inherits this. (`str(n)`, the subject of Text.DigitsOfNat, writes ASCII
  digits anyway.)
- StringFill.FillTable: the table is passed in and returned, not changed in place. The
  callers rebind `data` to the result, so nothing observable is lost. The aliasing of the
  caller's list is not modelled.
- StringTablePages.DesignColumns: `int(num_strings / num_inverters)` is a float division
  truncated toward zero. It is modelled as exact integer division, which agrees with it for
  counts below 2^53.
- StringFill.FillTable: in `app.py` the panel count is a module global. The pages assign
  it (`app.py:503`, `app.py:834`) and fill_table_page5 reads it (`app.py:241`,
  `app.py:246`). Here it is an explicit parameter, as the later version makes it.
- Other pages are not part of this model: the labels, the MultiIndex headers, and the
  manual page's `no_of_string` field, which only feeds a displayed product. So are the
  0.575 kW sizing, the column-width scaling and `panels_in_1_inverter`, which use floating
  point.
- Consequences of the code that a reader might not expect:
  - `min` keeps the first least remainder, so 100 panels get strings of 5, not 10
    (PanelsPerString.MultipleOfFive).
  - The returned table does not always hold exactly the panel count (see Findings).
  - The remainder is computed with `//`, which floors. Dafny's division floors for a
    positive divisor too, so the two agree.
  - The design-report page builds `max(10, num_strings)` columns but passes two MPPT
    groups, so at most ten columns are ever visited there (ColumnOrder.TwoGroupOrder).

## Findings

| source | as written | input that shows it | evidently intended | confidence | as-written member | corrected member |
|---|---|---|---|---|---|---|
| app_phase2_combined_v4_final.py:1147 | `min(7, int(no_of_strings_used / num_inverters))` is 0 when fewer strings are used than there are inverters; with no integer cell the `while` at 513-519 never ends | 2 inverters, 1 string used, 10 panels, 1 MPPT | at least one column filled, as `max(1, ...)` ensures on the design-report page (`app.py:536`) | high, not executed | StringTablePages.ManualHangExample | StringTablePages.CorrectedManualStringTable |
| app_phase2_combined_v4_final.py:513-520 | when the fill phase alone places more panels than wanted, the loop does not run and the table is returned with the larger total | 3 panels, 1 inverter, 1 string used, 1 MPPT: strings of 5, total 5 | a table holding exactly the panel count, or a reported failure | high, not executed | StringTablePages.OvershootExample | Allocation.Allocate |
