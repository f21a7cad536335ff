# Bank statement converters, modelled in Dafny

The system turns Italian bank statements (PDF) into a semicolon-separated CSV with the four
columns `Data;Descrizione;Uscite;Entrate`. A small web front end (`app.py`) picks one converter
per bank and document type through a fixed routing table, and cleans the file name the user asks
for. Each converter under `script/` reads either the PDF text layer (a list of lines) or the
tables pdfplumber finds (a list of rows of optional cells). It recognises transaction lines with a
regular expression, glues continuation lines to the record they follow, drops furniture (page
headers, balances, totals), and normalises amounts and descriptions.

This project models, for every converter, the part that runs after the PDF has been read:

- the line and row recognisers, written as hand-made matchers that take every run whole, as the
  source's patterns do;
- the scanning loops, as methods proved equal to a left fold (`Scan.Fold`) or a filter
  (`Scan.FilterMap`) of a one-step function;
- the amount conversions between Italian text (`1.234,56`), Python's `float()` and the
  `f"{x:,.2f}"` formatting, with a round trip proved;
- the CSV rows each converter writes;
- in `app.py`: the file-name sanitiser, the routing table and the lists the start-up block
  derives from it.

Shared modules:

- `Wrappers` and `Scan` (wrappers.dfy): `Option`, `Result` and the fold/filter/search
  combinators, with their laws.
- `PyText` (pytext.dfy): the `str` methods the scripts use (`strip`, `replace`, `split`,
  `startswith`, `in`, `upper`/`lower`), plus regex fragments (`\s+`, `\d{2}/\d{2}/\d{2}`).
- `Amounts` (amounts.dfy): `float()` on text, `.2f` rounding and the Italian number layout.
- `Csv` (csv.dfy): the header, the written rows, and the single-line clean-up of descriptions.

Some things the source does are written here as explicit results:

- A crash reachable from a modelled input becomes a `Result` failure (`Raise`). Examples are
  a regex match on a missing cell, a `strip()` on `None`, or indexing past a short row.
- A value Python would print in a surprising way keeps that form. For example, a negative
  zero is written as `-0,00`.

Where the code departs from the system's stated design, the model follows the code:

- The design expects exactly one of Uscite and Entrate to be non-zero. The code does not ensure
  it: a zero amount is written as "0,00" beside a "0" column. In the Qonto converter an amount
  with both a thousands '.' and a decimal ',' is rejected by `float()` and written as "0,00"
  (`EcQonto.GroupedAmountDegrades`).
- The movement-list converter for Credit Agricole books a minus-signed amount under Entrate and
  an unsigned one under Uscite (`MCreditAgricole.SignRouting`).

## Model

| member | source | states |
|---|---|---|
| EcBpm.MatchBoundary | script/EcBPM.py:40-47 | a match starts with a dd/mm/yy date that becomes the record date; the amount is a non-empty run of digits, dots and commas; the description is non-empty and ends the line |
| EcBpm.DatesEnd | script/EcBPM.py:41-43 | the three dates, each followed by whitespace, are found only on a line that opens with a date, and the rest begins inside the line |
| EcBpm.MatchAmount | script/EcBPM.py:44-46 | the optional minus, the amount and the description after the dates: the date is the line's first eight characters, the amount is a non-empty numeral run, the description ends the line |
| EcBpm.CutPageInfo | script/EcBPM.py:22-30 | the page-change cut gives a stripped text that no longer holds " INDEX:" |
| EcBpm.CleanDescription | script/EcBPM.py:18-32 | a cleaned description is always stripped |
| EcBpm.CleanPlain | script/EcBPM.py:18-32 | a description without " pagina", " INDEX:" or the page marker is only stripped |
| EcBpm.CleanCutsIndex | script/EcBPM.py:29-32 | when no page marker is left after the cut, cleaning is the cut alone and leaves no " INDEX:" |
| EcBpm.Open | script/EcBPM.py:80-91 | a record opened on a boundary carries its date and cleaned description; a minus sign puts the amount under Uscite and "0" under Entrate, no sign the reverse |
| EcBpm.KindOf | script/EcBPM.py:67-95 | a text line is the stripped, non-blank line, flagged exactly when it holds a skip phrase; a boundary line opens the record `Open` describes |
| EcBpm.KindsAppend | script/EcBPM.py:64 | classifying lines distributes over concatenation |
| EcBpm.ScanLine | script/EcBPM.py:65-95 | one pass of the loop is the step function `Step` on the scanner state, and a stop line leaves no open record |
| EcBpm.ExtractTransactionsFromText | script/EcBPM.py:34-98 | the loop with its `break` computes `Extract`: the fold of `Step` over the line kinds, closed by emitting the open record |
| EcBpm.Finish | script/EcBPM.py:64-66 | once the scan has stopped, the remaining lines change nothing |
| EcBpm.ProcessPdf | script/EcBPM.py:100-117 | the CSV is the header and one row per extracted record, each description made one stripped line without newlines |
| EcBpm.OpenedBoundaries | script/EcBPM.py:77-91 | the records opened before the first stop line are, one for one, the records `Open` makes of the boundaries met |
| EcBpm.ScanExtends | script/EcBPM.py:64-97 | from any running state, the output is the records already closed or open plus one per later boundary, each only extended by continuation text |
| EcBpm.RecordPerBoundary | script/EcBPM.py:76-97 | exactly one record per boundary line before the first stop line, in order, with that line's date and its amount in the column its sign selects; its description starts with the cleaned boundary description |
| EcBpm.StopEndsScan | script/EcBPM.py:70-75 | nothing after a stop line reaches the output |
| EcBpm.StopIgnoresRest | script/EcBPM.py:70-75 | for lines: everything after a stop line is ignored |
| EcBpm.StopEmits | script/EcBPM.py:70-75 | a stop line during the scan emits the open record and ends the output there |
| EcBpm.NeutralDropped | script/EcBPM.py:64-95 | a line whose step leaves the state unchanged can be removed without changing the output |
| EcBpm.BlankIgnored | script/EcBPM.py:67-69 | a line that strips to nothing changes nothing |
| EcBpm.ContinuationAppends | script/EcBPM.py:92-95 | a non-boundary line without a skip phrase is glued to the open record after one space, and nothing else changes |
| EcBpm.StepText | script/EcBPM.py:93-95 | the state-level form of the same continuation step |
| EcBpm.SkipIgnored | script/EcBPM.py:94 | a line holding a skip phrase never reaches any description |
| EcBpm.BoundaryLineIsLine | script/EcBPM.py:40-47 | a line written in the statement layout has no line break |
| EcBpm.MatchBoundaryAt | script/EcBPM.py:40-47 | on a line whose dates, single blanks, sign, amount run and spaced description lie at the usual places, the pattern returns exactly those pieces |
| EcBpm.BoundaryLineMatches | script/EcBPM.py:40-47 | every line written as `date date date [-]amount description` is recognised, with exactly its parts (the pattern is complete for its layout) |
| MBpm.AfterAmount | script/mBPM.py:37-40 | the tail `\s+EUR\s+\S+\s+(.+)$` after the amount gives a stripped description |
| MBpm.MatchBoundary | script/mBPM.py:34-41 | a match starts with a dd/mm/yyyy date that becomes the record date; the amount is an optional minus and a numeral run; the description is stripped |
| MBpm.DatesEnd | script/mBPM.py:35-36 | the two dates, each followed by whitespace, are found only on a line that opens with a date |
| MBpm.MatchAmount | script/mBPM.py:37-40 | the amount and tail after the dates keep the line's date, a signed numeral and a stripped description |
| MBpm.GroupLines | script/mBPM.py:42-63 | the first loop computes `Grouped`: the fold of the step function over the line kinds, closed by emitting the open record |
| MBpm.GroupLine | script/mBPM.py:44-61 | one pass of the first loop is the step function on the (records, open record) state |
| MBpm.PriceRecords | script/mBPM.py:65-87 | the second loop keeps exactly the records whose amount `float()` accepts, in order, each priced by `Priced` |
| MBpm.PriceRecord | script/mBPM.py:67-86 | one pass of the second loop: dots removed, comma made a point, `float()`; a rejected amount skips the record |
| MBpm.ParseTransactions | script/mBPM.py:26-87 | both loops together compute the filtered, priced records of the grouped lines |
| MBpm.ProcessPdf | script/mBPM.py:89-100 | the CSV is the header and one row per priced record |
| MBpm.ColumnsSign | script/mBPM.py:73-78 | a value below zero goes to Uscite as its magnitude in `1.234,56` form; zero and positive values go to Entrate; the other column is "0,00" |
| MBpm.CanonicalAmount | script/mBPM.py:18-24 | an amount already written as `format_amount` writes it comes out unchanged (round trip through `float()`), in the column its sign selects |
| MBpm.NegativeZero | script/mBPM.py:73-78 | "-0,00" is not below zero: it lands in Entrate, printed with its sign |
| MBpm.OutputRecords | script/mBPM.py:65-87 | there are never more output records than grouped ones; each has a one-line stripped description and at least one column equal to "0,00"; every record with a parseable amount is written |
| MBpm.PricedComplete | script/mBPM.py:69-72 | only a `float()` failure drops a record |
| MBpm.ScanGrows | script/mBPM.py:43-63 | from any state, the output is the records already there plus one per later boundary, each only extended by continuation text |
| MBpm.RecordPerBoundary | script/mBPM.py:47-63 | exactly one record per boundary line, in order, with its date and amount text; its description starts with the boundary's description |
| MBpm.BlankIgnored | script/mBPM.py:44-46 | a line that strips to nothing changes nothing |
| MBpm.ContinuationAppends | script/mBPM.py:59-61 | any other non-boundary line is glued to the open record after one space, with no phrase filter |
| MBpm.LeadingTextIgnored | script/mBPM.py:59-61 | lines before the first boundary contribute nothing |
| MBpm.AfterAmountLayout | script/mBPM.py:37-40 | a tail written as ` EUR field description` gives back exactly the description |
| MBpm.BoundaryLineIsLine | script/mBPM.py:34-41 | a line written in the statement layout has no line break |
| MBpm.BoundaryLineMatches | script/mBPM.py:34-41 | every line written as `date date amount EUR field description` is recognised, with exactly its parts |
| MBpm.BoundaryLineKind | script/mBPM.py:44-58 | such a line opens a record in the scan |
| MBpm.BoundaryLineStripped | script/mBPM.py:44 | such a line is already stripped |
| MBpm.MatchBoundaryAt | script/mBPM.py:34-41 | on a line whose pieces lie at the usual places, the pattern returns exactly those pieces |
| EcCreditAgricole.ConvertDate | script/EcCreditAgricole.py:6-16 | a text that does not split into three parts at '.' is returned unchanged |
| EcCreditAgricole.ConvertDateParts | script/EcCreditAgricole.py:6-16 | a text of exactly three dot-free parts joined by '.' has the dots turned into '/', and the year gets the prefix "20" exactly when it has two characters |
| EcCreditAgricole.ConvertShortDate | script/EcCreditAgricole.py:6-16 | a dd.mm.yy date becomes dd/mm/20yy, a ten-character dd/mm/yyyy date |
| EcCreditAgricole.GroupDigits | script/EcCreditAgricole.py:30 | removing the thousands dots of a grouped numeral leaves a non-empty digit string |
| EcCreditAgricole.ReformatNumber | script/EcCreditAgricole.py:24-37 | a blank amount gives "0"; an amount `float()` rejects after the separator swap is returned unchanged |
| EcCreditAgricole.EuToPyValid | script/EcCreditAgricole.py:30 | the separator swap turns a valid amount `d.ddd,cc` into the plain decimal `dddd.cc` |
| EcCreditAgricole.ReformatValid | script/EcCreditAgricole.py:24-37 | a valid amount is printed in canonical `1.234,56` form with the value it denotes |
| EcCreditAgricole.GroupIsGrouped | script/EcCreditAgricole.py:33-34 | the thousands grouping `format` writes is the grouping `is_valid_number` accepts |
| EcCreditAgricole.CanonicalShape | script/EcCreditAgricole.py:33-34 | the canonical text is the grouped whole part, a comma and two cent digits, with nothing around it |
| EcCreditAgricole.CanonicalIsValid | script/EcCreditAgricole.py:39-45 | the canonical text is a valid amount, denotes the value it was printed from, and reformatting it changes nothing (idempotence) |
| EcCreditAgricole.ReformatKeepsValid | script/EcCreditAgricole.py:24-45 | a valid amount cell is reformatted into a valid amount |
| EcCreditAgricole.Cleaned | script/EcCreditAgricole.py:73 | one cleaned cell per cell of the row |
| EcCreditAgricole.Close | script/EcCreditAgricole.py:77-80 | with no open record, closing adds nothing |
| EcCreditAgricole.ProcessExtractedRows | script/EcCreditAgricole.py:65-107 | the loop computes `Extract`, the fold of the row step over the rows, including the IndexError a short date row raises |
| EcCreditAgricole.Stuck | script/EcCreditAgricole.py:83-89 | once a row has raised, the whole run raises |
| EcCreditAgricole.ProcessPdf | script/EcCreditAgricole.py:109-125 | a raised error is passed on; otherwise the CSV is the header and one row per record, descriptions made one stripped line |
| EcCreditAgricole.OpenWellFormed | script/EcCreditAgricole.py:91-99 | a record opened from a date row with valid amount cells is well formed |
| EcCreditAgricole.StepGood | script/EcCreditAgricole.py:72-103 | every row step keeps the invariant that closed records are well formed and not balances and the open record is well formed |
| EcCreditAgricole.CloseGood | script/EcCreditAgricole.py:104-106 | the final close keeps that invariant |
| EcCreditAgricole.OpenRowGood | script/EcCreditAgricole.py:76-99 | the invariant across a row with a first cell |
| EcCreditAgricole.ContinuationGood | script/EcCreditAgricole.py:100-103 | the invariant across a continuation row |
| EcCreditAgricole.ExtractWellFormed | script/EcCreditAgricole.py:65-107 | every emitted record has a dd/mm/yyyy date, amounts that are "0" or valid canonical amounts, and no opening or closing balance as description |
| EcCreditAgricole.BlankRowIgnored | script/EcCreditAgricole.py:73-75 | a row whose cells are all missing or blank changes nothing |
| EcCreditAgricole.FirstCellCloses | script/EcCreditAgricole.py:76-80 | a row with a first cell always closes the open record: the record is appended to the output unless its description is SALDO FINALE or SALDO INIZIALE, and dropped if it is |
| EcCreditAgricole.RejectedRowDetaches | script/EcCreditAgricole.py:76-82 | after a first cell that is not a date, continuation rows are ignored until the next date row |
| EcCreditAgricole.ContinuationAppends | script/EcCreditAgricole.py:100-103 | a row with five empty cells and a sixth appends that text to the open description after a space |
| EcCreditAgricole.DateRowOpens | script/EcCreditAgricole.py:81-99 | a date row with valid amounts and no balance label opens a record with the dd/mm/20yy date, the sixth cell, and each amount canonical or "0" |
| EcCreditAgricole.InvalidAmountDetaches | script/EcCreditAgricole.py:83-103 | a date row with a non-empty amount cell that is not a valid amount closes the open record and opens none, so the continuation rows after it are ignored |
| EcCreditAgricole.ShortDateRowRaises | script/EcCreditAgricole.py:83-89 | a date row with fewer than five cells raises IndexError at the amounts; one with exactly five cells whose amounts pass raises IndexError at the description |
| EcCreditAgricole.Opened | script/EcCreditAgricole.py:81-99 | a record a row opens carries the row's sixth cell as description, which is not a balance label |
| EcCreditAgricole.HeadedStep | script/EcCreditAgricole.py:72-99 | across a blank row or a row with a first cell, the records closed so far grow by exactly the record that row opens |
| EcCreditAgricole.HeadedPrefix | script/EcCreditAgricole.py:65-99 | without continuation rows, after any prefix that raised nothing the records closed so far are the records opened by its rows, in order |
| EcCreditAgricole.OneRecordPerDateRow | script/EcCreditAgricole.py:65-107 | without continuation rows, a run that raises nothing outputs exactly one record per date row with valid amounts and no balance label, in row order |
| MCreditAgricole.FormatNumber | script/mCreditAgricole.py:18-29 | an amount `float()` rejects after the separator swap is returned unchanged |
| MCreditAgricole.FormatNumberCanonical | script/mCreditAgricole.py:18-29 | the canonical `1.234,56` text, signed or not, is a fixed point of `format_number` |
| MCreditAgricole.TailAmount | script/mCreditAgricole.py:37 | group 3 of the tail is never empty |
| MCreditAgricole.FirstTail | script/mCreditAgricole.py:37 | the lazy `(.+?)` stops at a position where the tail `\s+(-?[\d\.,]+)\s*$` matches |
| MCreditAgricole.FirstTailLeast | script/mCreditAgricole.py:37 | no tail starts before the one the lazy group stops at |
| MCreditAgricole.MatchLine | script/mCreditAgricole.py:37-43 | a matched line starts with a dd/mm/yy date, which is the record date, and the description group is non-empty |
| MCreditAgricole.LineRecord | script/mCreditAgricole.py:39-57 | a line gives a record exactly when the pattern matches, with the matched date and the stripped description |
| MCreditAgricole.ExtractTransactions | script/mCreditAgricole.py:31-58 | the loop keeps, in order, the record of every matching line and nothing else |
| MCreditAgricole.StampAmount | script/mCreditAgricole.py:79-83 | a stamp-duty amount is found only on a line starting with "Impostadibollo", and is non-empty |
| MCreditAgricole.Window | script/mCreditAgricole.py:65-71 | the summary window holds at most ten lines |
| MCreditAgricole.WindowDate | script/mCreditAgricole.py:72-78 | the summary date is "" or a dd/mm/yy date |
| MCreditAgricole.Summary | script/mCreditAgricole.py:60-92 | at most one summary record; none without the heading; when present it is the stamp duty, booked under Uscite with "0" under Entrate |
| MCreditAgricole.SummaryWindowOf | script/mCreditAgricole.py:65-71 | the first loop, with its `break`, returns the window from the first heading line |
| MCreditAgricole.SummaryDate | script/mCreditAgricole.py:72-78 | the second loop returns the date of the first dated line of the window, "" when none |
| MCreditAgricole.FirstStamp | script/mCreditAgricole.py:79-82 | the third loop stops at the first stamp line of the window, or at its end when there is none |
| MCreditAgricole.ExtractSummaryTransaction | script/mCreditAgricole.py:60-92 | the three loops together compute `Summary` |
| MCreditAgricole.SummaryFound | script/mCreditAgricole.py:80-91 | the first stamp line of the window gives the one summary record, with the window date and the formatted amount |
| MCreditAgricole.SummaryMissing | script/mCreditAgricole.py:80-92 | without a stamp line in the window there is no summary record |
| MCreditAgricole.ProcessPdf | script/mCreditAgricole.py:94-112 | the CSV is the header, the line records, then the summary record, with descriptions made one stripped line |
| MCreditAgricole.TailShape | script/mCreditAgricole.py:37 | a tail is blanks, then non-blanks, then blanks to the end of the line |
| MCreditAgricole.NoTailBefore | script/mCreditAgricole.py:37 | no tail starts before a blank that is followed by more text |
| MCreditAgricole.TailInRun | script/mCreditAgricole.py:37 | inside one run of blanks, where the tail starts does not matter |
| MCreditAgricole.LineLayout | script/mCreditAgricole.py:37-43 | every line written as `date blanks description blanks [-]amount [blanks]` is recognised with exactly that date, description and amount |
| MCreditAgricole.LayoutMatches | script/mCreditAgricole.py:37-43 | the same, for a line given by its slices |
| MCreditAgricole.MatchLineAt | script/mCreditAgricole.py:37 | with the date, the blank run and the first tail known, the match and its groups are determined |
| MCreditAgricole.LayoutTail | script/mCreditAgricole.py:37 | blanks, a sign, a numeral and trailing blanks form a tail whose amount is the sign and numeral |
| MCreditAgricole.TailRuns | script/mCreditAgricole.py:37 | a tail given by the ends of its runs, and its amount |
| MCreditAgricole.TailOfRuns | script/mCreditAgricole.py:37 | the same, from whole runs |
| MCreditAgricole.MatchComplete | script/mCreditAgricole.py:37 | a date, blanks and a later tail are enough for the line to match (completeness) |
| MCreditAgricole.MatchSound | script/mCreditAgricole.py:37-43 | a matched line is a date, blanks, the description, then a tail whose amount is group 3 (soundness) |
| MCreditAgricole.BlankDescriptionAccepted | script/mCreditAgricole.py:37-42 | a date, exactly three blanks and an amount still match: backtracking gives `.+?` a single blank, so the record's description is empty |
| MCreditAgricole.SignRouting | script/mCreditAgricole.py:40-52 | every extracted record comes from a matched line and books that line's amount by its sign (minus-signed under Entrate without its sign, unsigned under Uscite, the other column "0"), and every matched line contributes its record so booked |
| MCreditAgricole.WindowAt | script/mCreditAgricole.py:68-71 | the window begins at the first heading line and holds at most ten lines |
| MCreditAgricole.SummaryIffStamp | script/mCreditAgricole.py:65-92 | there is a summary record exactly when one of the ten lines from the first heading holds the stamp duty |
| MCreditAgricole.SummaryNonEmpty | script/mCreditAgricole.py:79-92 | the summary record exists exactly when the window holds a stamp line |
| MCreditAgricole.StampInWindow | script/mCreditAgricole.py:68-82 | with a heading, the window holds a stamp line exactly when the ten lines from it do |
| EcIntesa.ClassifyTokens | script/EcIntesa.py:68-85 | the token loop keeps, in word order, each stripped word that is non-blank, holds a digit and whose box centre lies in the debit band (tried first) or the credit band, tagged with that column |
| EcIntesa.ClassifiedSound | script/EcIntesa.py:69-84 | every kept token comes from a word that passes all three tests, with its stripped text and the band's column |
| EcIntesa.ClassifiedComplete | script/EcIntesa.py:69-84 | every word that passes the tests is kept |
| EcIntesa.ClassifiedOrdered | script/EcIntesa.py:84-85 | tokens come out in strictly increasing word order, so the sort by order changes nothing |
| EcIntesa.Merged | script/EcIntesa.py:88-102 | merging never yields more amounts than there are tokens |
| EcIntesa.MergedCons | script/EcIntesa.py:90-102 | one pass of the merge loop: a token glued to a next token of the same column that starts with ',' is joined with it, and the text is emitted only when it has the `^\d+(?:\.\d+)*,\d{2}$` shape |
| EcIntesa.MergeTokens | script/EcIntesa.py:87-102 | the `while` loop with its two-step advance computes `Merged` |
| EcIntesa.MergedPairs | script/EcIntesa.py:98-102 | every emitted pair has its amount in one column and "0" in the other |
| EcIntesa.MergedSingles | script/EcIntesa.py:90-102 | when no token starts with ',', merging is a plain filter of the tokens with the amount shape |
| EcIntesa.MergeSplitAmount | script/EcIntesa.py:93-100 | the split OCR reading "1.234" then ",56" in the debit band becomes the single debit "1.234,56" |
| EcIntesa.SplitAmountShape | script/EcIntesa.py:66 | "1.234,56" has the amount shape |
| EcIntesa.ProcessPage | script/EcIntesa.py:54-103 | one page's pass is classification followed by the merge |
| EcIntesa.OcrAmountsNext | script/EcIntesa.py:103 | each page appends its amounts after those of the earlier pages |
| EcIntesa.ExtractOcrAmounts | script/EcIntesa.py:28-105 | the page loop concatenates the pages' amounts in page order |
| EcIntesa.OcrAmountsPairs | script/EcIntesa.py:98-103 | every OCR pair has one amount and one "0" |
| EcIntesa.ExtractTableRows | script/EcIntesa.py:133-144 | the row loop computes `TableRows`, including the TypeError a missing date cell raises |
| EcIntesa.TableStuck | script/EcIntesa.py:138 | once a row has raised, the table pass raises |
| EcIntesa.TableRowsOk | script/EcIntesa.py:135-144 | without a missing date cell the pass keeps exactly the rows of three or more cells whose first cell is a dd.mm.yyyy date, in order |
| EcIntesa.TableRowsRaise | script/EcIntesa.py:136-138 | a single row of three or more cells with a missing first cell makes the pass raise TypeError |
| EcIntesa.KeptRowsClean | script/EcIntesa.py:138-143 | a kept row's date matches the pattern and its description, when present, is one stripped line |
| EcIntesa.Combined | script/EcIntesa.py:159-168 | as many records as the shorter of the two lists |
| EcIntesa.Combine | script/EcIntesa.py:160-168 | record i takes date and description from table row i and amounts from OCR pair i; the longer list's tail is dropped |
| EcIntesa.ProcessPdf | script/EcIntesa.py:149-175 | a TypeError of the table pass is passed on; otherwise the CSV is the header and the combined records |
| EcQonto.MarkerAt | script/EcQONTO.py:56 | a marker `([+-])\s*([\d.,]+)\s*EUR` found at an index starts with its '+' or '-' sign, holds a non-empty amount text and ends just after "EUR" |
| EcQonto.FirstMarker | script/EcQONTO.py:58 | `search` reports a marker that really starts at the index it gives |
| EcQonto.Removed | script/EcQONTO.py:72 | `sub("", …)` never lengthens the text |
| EcQonto.PricedAll | script/EcQONTO.py:57-75 | one priced record per grouped record, in order |
| EcQonto.GroupLines | script/EcQONTO.py:30-54 | the first loop computes `Grouped`: the fold of the step function over the line kinds, closed by emitting the open record |
| EcQonto.PriceAll | script/EcQONTO.py:57-75 | the second loop prices every record in place |
| EcQonto.ExtractTransactions | script/EcQONTO.py:26-76 | both loops together compute `ExtractSpec` |
| EcQonto.ProcessPdf | script/EcQONTO.py:78-90 | the CSV is the header and one row per record |
| EcQonto.DateLineShape | script/EcQONTO.py:33-46 | a matched date line is a d/m date of one or two digits each, whitespace, then the description group, which never starts with whitespace |
| EcQonto.DateLineHead | script/EcQONTO.py:33 | the first group is a day/month at the head of the line, and the second ends the line |
| EcQonto.DateLineGap | script/EcQONTO.py:33 | between the two groups lies a non-empty run of whitespace |
| EcQonto.DateLineParses | script/EcQONTO.py:33 | every line written as `d/m whitespace rest` is recognised, with exactly those groups (completeness) |
| EcQonto.DateLineOpens | script/EcQONTO.py:40-49 | such a line opens a record with that date and description |
| EcQonto.DateLineNotFurniture | script/EcQONTO.py:38 | such a line is never taken for page furniture |
| EcQonto.ScanExtends | script/EcQONTO.py:34-54 | from any state, the output is the records already there plus one per later date line, each only extended by continuation text |
| EcQonto.RecordPerDateLine | script/EcQONTO.py:34-54 | one record per date line, in order, with that line's date, both amounts "0", and a description that starts with the date line's text |
| EcQonto.StartsOpen | script/EcQONTO.py:44-49 | a record opened on a date line has "0" in both columns |
| EcQonto.FurnitureIgnored | script/EcQONTO.py:35-39 | a blank line, a "Dal giorno…" or "TESA…" line and a page counter `\d+/\d+` change nothing |
| EcQonto.ContinuationAppends | script/EcQONTO.py:50-52 | any other line is glued to the open record after one space |
| EcQonto.FirstMarkerLeast | script/EcQONTO.py:58 | `search` finds the leftmost marker: none starts before it |
| EcQonto.FirstMarkerIs | script/EcQONTO.py:58 | the leftmost marker is the one `search` reports |
| EcQonto.FirstMarkerNone | script/EcQONTO.py:58-59 | with no marker anywhere, `search` reports none |
| EcQonto.RemovedNoMarker | script/EcQONTO.py:72 | with no marker, `sub` changes nothing |
| EcQonto.RemovedUpTo | script/EcQONTO.py:72 | `sub` keeps the text before the first marker and goes on after its end |
| EcQonto.FirstMarkerDecides | script/EcQONTO.py:57-75 | the leftmost marker fills Entrate ('+') or Uscite ('-') with the formatted amount and the other column with "0,00"; every marker leaves the description, which is stripped and made one line |
| EcQonto.NoMarkerKeeps | script/EcQONTO.py:57-75 | without a marker the record keeps its "0" columns and only its description is made one line |
| EcQonto.CommaToDot | script/EcQONTO.py:61 | the comma swap turns `d,ff` into `d.ff` |
| EcQonto.DecimalComma | script/EcQONTO.py:61-63 | an amount `d,ff` is read as the decimal d.ff |
| EcQonto.GroupedAmountDegrades | script/EcQONTO.py:61-65 | an amount holding both a '.' and a ',' (such as "1.234,56") reaches `float()` with two points, is rejected, and is written as "0,00" |
| EcQonto.TwoPointsRejected | script/EcQONTO.py:62-65 | an amount text with two points is rejected by `float()` |
| EcQonto.OutputRecords | script/EcQONTO.py:26-76 | one output record per grouped record, with its date and a one-line stripped description; without a marker both columns stay "0", with one a column is "0,00" |
| EcBuffetti.ParseEu | script/EcBuffetti.py:25-37 | a blank text, and any text float() rejects after the dots are dropped and the comma becomes a point, read as 0.0 |
| EcBuffetti.FormatParseEu | script/EcBuffetti.py:25-45 | `format_eu(parse_eu(x)) == x` for every canonical amount x, negative ones included |
| EcBuffetti.DocstringExample | script/EcBuffetti.py:27-41 | the docstrings' example "3.793,67" survives the round trip |
| EcBuffetti.BlankAmount | script/EcBuffetti.py:29-31 | a blank amount cell is written as "0,00" |
| EcBuffetti.ProcessRows | script/EcBuffetti.py:47-75 | the loop yields the record of every kept row, in order, and nothing else |
| EcBuffetti.Written | script/EcBuffetti.py:84-87 | the header Data;Descrizione;Entrate;Uscite, then one row per record in that column order |
| EcBuffetti.ProcessPdf | script/EcBuffetti.py:77-88 | the output is the written header and records of `process_rows` |
| EcBuffetti.RowKept | script/EcBuffetti.py:55-64 | a row is kept exactly when it has at least seven cells, its stripped first cell begins with dd/mm/yyyy, and its one-line description is neither balance label |
| EcBuffetti.RecordShape | script/EcBuffetti.py:59-62 | a record's date is the stripped first cell and starts with a date; its description is one stripped line |
| EcBuffetti.AmountsFromCells | script/EcBuffetti.py:65-73 | Entrate comes from the fifth cell and Uscite from the seventh; a canonical amount passes through unchanged, a blank one becomes "0,00" |
| EcBuffetti.CellAmountOf | script/EcBuffetti.py:65-68 | a blank cell reads as zero and a canonical one as its own value |
| EcBuffetti.OneRecordPerRow | script/EcBuffetti.py:54-74 | every record comes from an input row, every kept row's record is in the output, and there are never more records than rows |
| EcSella.Description | script/EcSELLA.py:29-30 | the cleaned description is stripped and holds no newline |
| EcSella.CleanedRow | script/EcSELLA.py:25-33 | a kept row was present and keeps its five cells |
| EcSella.Reformatted | script/EcSELLA.py:60-61 | reformatting keeps the row's length |
| EcSella.WrittenRow | script/EcSELLA.py:62 | csv.writer writes one field per cell |
| EcSella.SellaTable | script/EcSELLA.py:56-62 | the five-column header, then one reformatted row per kept row |
| EcSella.Contents | script/EcSELLA.py:22-26 | the value of the table is the value of each row list, or None for a missing row |
| EcSella.Values | script/EcSELLA.py:33 | the value of the kept rows is the value of each row list |
| EcSella.FilterRow | script/EcSELLA.py:26-33 | one row is kept exactly when its cleaned value exists, and the list then holds the cleaned description in cell 2; otherwise it is untouched |
| EcSella.FilterStep | script/EcSELLA.py:25-33 | one pass keeps the loop invariant: the kept lists are distinct, hold the cleaned rows seen so far, visited rejected rows are unchanged, and rows not yet visited are unchanged |
| EcSella.FilterValidRows | script/EcSELLA.py:22-34 | the kept lists are distinct input rows of five cells, and what they hold is the cleaned value of every kept row, in order; afterwards every input row list holds its cleaned value if kept and is exactly as it was if rejected |
| EcSella.WriteRows | script/EcSELLA.py:58-62 | the written table is the header and each kept row reformatted, and each kept row list ends up holding its reformatted value |
| EcSella.ReformatRow | script/EcSELLA.py:60-61 | the two amount cells of the row list are overwritten with their reformatted text, nothing else changes |
| EcSella.ProcessPdf | script/EcSELLA.py:49-63 | the written table is the header and each kept, cleaned row reformatted, computed from the rows as they were on entry |
| EcSella.TableOf | script/EcSELLA.py:58-62 | the rows written one by one form the whole table |
| EcSella.RowKept | script/EcSELLA.py:26-31 | a row is kept exactly when it has five cells, both date cells are non-empty dd dd dd once stripped, and its description is neither balance label |
| EcSella.MissingRowDropped | script/EcSELLA.py:26-27 | a missing row is skipped |
| EcSella.CleanedCells | script/EcSELLA.py:29-32 | cleaning overwrites the description cell alone, with one stripped line |
| EcSella.BlankAmountCell | script/EcSELLA.py:37-38 | a missing or blank amount is written as "0" |
| EcSella.UnreadableAmountCell | script/EcSELLA.py:39-44 | an amount float() rejects is written stripped but otherwise as it was |
| EcSella.CanonicalAmountCell | script/EcSELLA.py:39-47 | a canonical amount, with any blanks around it, is written as itself |
| EcSella.ZeroIsNotCanonical | script/EcSELLA.py:37-47 | the "0" written for a blank cell would be reformatted to "0,00": the formatter is not idempotent |
| EcSella.WrittenFiveCells | script/EcSELLA.py:60-62 | a five-cell row is written as its first three cells and its two reformatted amounts |
| EcSella.WrittenKeptRow | script/EcSELLA.py:29-62 | a kept row is written as its two dates, its cleaned description and its two reformatted amounts |
| EcSella.KeptRowsInOrder | script/EcSELLA.py:25-34 | every written row comes from a kept input row, every kept row is written, and never more than the input rows |
| EcSondrio.CleanDescription | script/EcSONDRIO.py:38-40 | the description is missing exactly when its cell was |
| EcSondrio.AmountCell | script/EcSONDRIO.py:43-44 | an amount is never empty and always stripped |
| EcSondrio.ProcessRows | script/EcSONDRIO.py:25-48 | the loop yields the entry of every kept row, in order, and nothing else |
| EcSondrio.ProcessPdf | script/EcSONDRIO.py:50-61 | the header Data;Descrizione;Uscite;Entrate, then one row per entry |
| EcSondrio.DescriptionIsSingleLine | script/EcSONDRIO.py:39-40 | replacing backslash-n before newline, as this converter does, gives the same one-line text as the reverse order used elsewhere |
| EcSondrio.RowKept | script/EcSONDRIO.py:33-46 | a row is kept exactly when it has seven cells, a non-empty first cell starting with dd/mm/yyyy, no balance label and no '%' in either amount |
| EcSondrio.EntryShape | script/EcSONDRIO.py:35-47 | an entry holds the stripped date, the one-line description (missing when the cell was) and the two amounts stripped, "0" when blank |
| EcSondrio.WrittenDescriptionIsOneLine | script/EcSONDRIO.py:40-60 | a written description is one stripped line with no backslash-n left |
| EcSondrio.BalanceRowDropped | script/EcSONDRIO.py:41-42 | a balance row is dropped whatever its amounts |
| EcSondrio.PercentageRowDropped | script/EcSONDRIO.py:43-46 | a row with a '%' in its debit or credit cell is dropped |
| EcSondrio.OneEntryPerRow | script/EcSONDRIO.py:32-47 | every entry comes from an input row, every kept row's entry is in the output, and never more entries than rows |
| MSondrio.NumeralEnd | script/mSONDRIO.py:50 | a match of `[0-9.]+,[0-9]+` is non-empty and lies within the text |
| MSondrio.SearchNumeral | script/mSONDRIO.py:50 | `re.search` reports the leftmost index where the pattern matches, and none when it matches nowhere |
| MSondrio.ExtractNumericValue | script/mSONDRIO.py:49-53 | the result is "0" or a whole numeral: digits and dots, a comma, then digits |
| MSondrio.MatchIsNumeral | script/mSONDRIO.py:50-52 | the text `group(1)` returns is a whole numeral |
| MSondrio.NumeralPlaced | script/mSONDRIO.py:50 | a numeral that stands at an index, not followed by a digit, is matched there in full |
| MSondrio.ExtractNumeral | script/mSONDRIO.py:49-53 | a cell that is exactly a numeral is returned unchanged |
| MSondrio.ExtractIdempotent | script/mSONDRIO.py:49-53 | extracting twice gives what extracting once gives |
| MSondrio.EmptyCellGivesZero | script/mSONDRIO.py:53 | a text with no numeral gives "0" |
| MSondrio.CanonicalIsNumeral | script/mSONDRIO.py:50 | every non-negative canonical amount is a numeral of the pattern |
| MSondrio.CanonicalAmountCell | script/mSONDRIO.py:49-55 | a cell holding a canonical amount followed by anything that does not start with a digit (" EUR", say) yields exactly that amount |
| MSondrio.NegativeAmountCell | script/mSONDRIO.py:49-55 | the sign of a negative amount is lost: "-x" yields "x" |
| MSondrio.EmitRow | script/mSONDRIO.py:35-56 | one pass of the loop, step by step, has the outcome `RowOutcome` describes |
| MSondrio.ProcessPdf | script/mSONDRIO.py:24-57 | the output is the header and every written row in order, or the first exception raised |
| MSondrio.ThenStep | script/mSONDRIO.py:56 | writing a row at once or after the rest is decided gives the same output |
| MSondrio.EmittedStep | script/mSONDRIO.py:35-56 | the rows from an index on give that row's outcome, then the later rows' |
| MSondrio.RowWritten | script/mSONDRIO.py:36-56 | a row is written exactly when it has at least seven cells, the cells the loop reads are present, and its stripped first cell is exactly dd/mm/yyyy |
| MSondrio.WrittenColumns | script/mSONDRIO.py:40-56 | a written row holds the stripped date, the one-line description, and the numerals of the fifth and seventh cells, each "0" or a numeral |
| MSondrio.RowRaises | script/mSONDRIO.py:38-48 | a row raises exactly when it has seven cells and its first cell is missing, or it is dated and its description or an amount cell is missing |
| MSondrio.EmittedKept | script/mSONDRIO.py:35-56 | when no row raises, the written rows are the kept rows in order |
| MSondrio.EmittedRaises | script/mSONDRIO.py:35-56 | the run raises exactly when some row raises |
| App.DropForbidden | app.py:13 | the first `re.sub` leaves none of `\ / * ? : " < > \|` and never lengthens the name; a name without them is unchanged |
| App.Collapse | app.py:15 | `re.sub(r'\s+', ' ', …)` starts with one blank where the name starts with whitespace, and with the name's first character otherwise |
| App.CollapseShape | app.py:15 | after collapsing, every whitespace character is a single blank with no whitespace after it, and no forbidden character is brought in |
| App.ConsCollapsed | app.py:15 | a character put in front of a collapsed text keeps it collapsed unless two blanks meet |
| App.CollapseFixed | app.py:15 | collapsing an already collapsed text changes nothing |
| App.SliceCollapsed | app.py:15 | stripping keeps a collapsed, clean text collapsed and clean |
| App.Cleaned | app.py:13-15 | the cleaned name has no forbidden character, collapsed whitespace and no blank at either end |
| App.Sanitize | app.py:9-23 | the result has no forbidden character, collapsed whitespace, no leading or trailing whitespace, is never empty, and ends in ".csv" in any case |
| App.FallbackShape | app.py:17-18 | the fallback keeps a cleaned name's shape and is never empty |
| App.SuffixShape | app.py:21-22 | appending ".csv" keeps the name clean and makes it end in ".csv" |
| App.FallbackName | app.py:17-22 | a name that cleans to nothing, "." or ".." becomes "output.csv" |
| App.SuffixOnlyWhenMissing | app.py:15-22 | ".csv" is appended exactly when the cleaned name does not already end in it, and the stem before it never ends in whitespace |
| App.SanitizeIdempotent | app.py:9-23 | sanitizing a sanitized name changes nothing |
| App.ScriptKeysAreKeys | app.py:30-41 | the key list is exactly the key set of SCRIPT_MAP, each key once |
| App.LessAsymmetric | app.py:45-50 | Python's `<` on strings is asymmetric |
| App.LessTotal | app.py:45-50 | any two different strings are ordered one way or the other |
| App.Insert | app.py:45-50 | inserting adds exactly one element and keeps every other |
| App.InsertOrdered | app.py:45-50 | inserting into an ordered list keeps it ordered |
| App.Sort | app.py:45-50 | sorting is a permutation |
| App.SortOrdered | app.py:45-50 | the sorted list is ordered |
| App.StrictlyIncreasing | app.py:45 | an ordered list without repeats is strictly increasing |
| App.Banks | app.py:45 | `set(k[0] for k in keys)` holds each bank of the keys once, and nothing else |
| App.AllBanksSpec | app.py:45-52 | `all_banche` is strictly increasing, names exactly the banks of the keys, and is empty only when there are no keys |
| App.SortMembers | app.py:45-50 | sorting keeps exactly the elements it was given |
| App.SortDistinct | app.py:45 | sorting a list without repeats gives a list without repeats |
| App.TwiceCounted | app.py:45 | an element found at two places is counted at least twice |
| App.MultiplicityOne | app.py:45 | in a list without repeats every element occurs once |
| App.CollectDocs | app.py:46-48 | the `setdefault(...).append` loop makes one list per bank of the keys, holding its document types in key order |
| App.CollectStep | app.py:48 | one pass appends the type to its bank's list, creating the list when the bank is new |
| App.FilterMapNone | app.py:48 | a bank not yet seen has collected nothing |
| App.SortDocs | app.py:49-50 | the second loop sorts every bank's list and keeps the bank set |
| App.DocsByBank | app.py:46-50 | `available_docs_by_bank` has a list for exactly the banks of the keys, each the sorted list of its types |
| App.DocsOfSpec | app.py:46-50 | each bank's list is ordered, a permutation of the types paired with it, and holds exactly those types |
| App.OfferedPairsAreKeys | app.py:30-50 | every bank and document type the form offers is a key of SCRIPT_MAP |
| Amounts.Digits | script/EcQONTO.py:10 | the decimal digits of a whole number read back as that number, with no leading zero |
| Amounts.CentsDigits | script/EcQONTO.py:10 | the two-place fraction is two digits worth the cents modulo 100 |
| Amounts.GroupChars | script/EcQONTO.py:10-11 | the grouped integer part holds only digits and the thousands dots |
| Amounts.Ungroup | script/EcBuffetti.py:32 | dropping the dots from a grouped integer part gives back its digits |
| Amounts.EuToPyOfFormat | script/EcBuffetti.py:32-33 | a canonical amount, with its dots dropped and its comma made a point, is the plain decimal literal of its value |
| Amounts.LiteralOneDot | script/EcQONTO.py:61-63 | float() rejects a number text with two points |
| Amounts.ParseFloatDecimal | script/EcBuffetti.py:35 | float() reads a signed literal `d.ff` as that exact decimal |
| Amounts.FormatParseRoundTrip | script/EcBuffetti.py:32-35 | float() of a canonical amount, rewritten to Python form, is its exact value in cents |
| Amounts.FormatFloatOfCents | script/EcQONTO.py:10-11 | formatting a two-place value gives the canonical text of its cents |
| Amounts.FormatCentsStripped | script/EcBuffetti.py:29 | a canonical amount has at least four characters and no blank at either end |
| Amounts.ZeroText | script/EcQONTO.py:10-11 | zero is written "0,00" and negative zero "-0,00" |
| PyText.Strip | script/EcBPM.py:67 | `str.strip()` leaves no whitespace at either end and never lengthens the text |
| PyText.Find | script/EcBPM.py:24-30 | the first occurrence of a pattern, present exactly when the text contains it |
| PyText.BeforeFirst | script/EcBPM.py:24-30 | `split(p)[0]` is the prefix before the first occurrence, without p, or the whole text |
| PyText.AfterLast | script/EcBPM.py:27 | `split(p)[-1]` is the suffix after the last occurrence, without p, or the whole text |
| PyText.SingleLine | script/EcBPM.py:109 | the clean-up leaves one stripped line with no newline and no backslash-n |
| PyText.ReplaceOrderCommutes | script/EcBPM.py:109 | replacing newlines and backslash-n by blanks gives the same text in either order |
| PyText.JoinSplit | script/EcCreditAgricole.py:9-14 | splitting a joined list on a separator none of its parts holds gives the parts back |
| PyText.SplitJoin | script/EcCreditAgricole.py:9-14 | joining the parts of a split gives the text back |
| Csv.RowRoundTrip | script/EcBPM.py:112-116 | a row of plain fields, joined with ';', splits back into those fields |
| Csv.FlattenDescriptions | script/EcBPM.py:108-109 | the clean-up loop computes `Flattened` |

## Left out

- Reading the PDF: pdfplumber's text and table extraction, page images, OCR (pytesseract, pdf2image, OpenCV thresholding), the temporary image directory and the executable paths. Each converter's input is a parameter instead: the lines of `text.splitlines()`, the table rows with optional cells, or the OCR words with their integer pixel boxes.
- The web layer of `app.py`: Flask routes, form validation, the `importlib` dispatch to a converter and the response headers of `run_script`. This is HTTP plumbing around the modelled parts.
- The command-line `__main__` blocks of every script, and the browser script under `static/`: I/O only.
- File and string-buffer I/O: a converter's output is the list of rows it writes, header first.
- The csv module's quoting and escaping (`QUOTE_NONE` with `escapechar`, `QUOTE_MINIMAL`). A written row is its list of fields; `Csv.RowRoundTrip` covers the `;`-join only for fields that need no quoting.
- The regular-expression engine: each pattern is a hand-written recogniser of the language it matches.
- Binary floating point. `float()` is read as the exact decimal the text denotes. `inf`, `nan`, exponents and digit underscores are treated as unreadable. The `.2f` rounding is modelled as round-half-up on that exact decimal, so a value with more than two decimals can round differently from Python. Precision loss for very large values is not modelled.
- Unicode: `upper()`/`lower()` change ASCII letters only, `\d` and `isdigit()` accept ASCII digits only, and whitespace is the set `str.isspace()` accepts in the Basic Multilingual Plane.
- App.SortDocs: visits the banks in an unspecified order rather than dictionary order, because the result does not depend on it.
- App.Sort: Python's sort is modelled as an insertion sort. Strings are totally ordered, so both give the one ordered permutation.
- EcSella.FilterValidRows: requires the table's row lists to be distinct objects, because the model updates rows in place and pdfplumber returns a fresh list per row; aliased rows are not modelled.
- EcSella.ProcessPdf: the same requirement, for the same reason.
- EcBuffetti.ProcessRows: table cells are taken to be present strings; a missing cell, on which the converter's `strip()` would raise, is not modelled.
