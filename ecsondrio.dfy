/** The Popolare di Sondrio statement converter (script/EcSONDRIO.py): every seven-cell table row
    whose first cell starts with a dd/mm/yyyy date becomes one entry, with its description taken
    from the last cell and its two amount cells copied as they are, unless the row is a balance
    row or carries a percentage. */
module EcSondrio {
  import opened Wrappers
  import opened Scan
  import opened PyText
  import opened Csv

  /** One table row as pdfplumber returns it: a list of cells, any of which may be missing. */
  type Row = seq<Option<string>>

  /** One processed row: `[data, descrizione, uscita, entrata]`, where the description is missing
      when its cell was. */
  datatype Entry = Entry(data: string, descrizione: Option<string>, uscita: string, entrata: string)

  /** `not data or not date_pattern.match(data.strip())` fails: a present, non-empty cell whose
      stripped text begins with `\d{2}/\d{2}/\d{4}`. */
  predicate DateCell(c: Option<string>) {
    c.Some? && c.value != "" && DateAt(Strip(c.value), 0, '/', true)
  }

  /** The description cell, cleaned when it holds text: literal backslash-n first, then newlines,
      become blanks, and the result is stripped. A missing or empty cell is left as it is. */
  function CleanDescription(c: Option<string>): (d: Option<string>)
    ensures d.None? <==> c.None?
  {
    if c.None? || c.value == "" then c
    else Some(Strip(ReplaceAll(ReplaceAll(c.value, "\\n", " "), "\n", " ")))
  }

  const BalanceLabels: seq<Option<string>> := [Some("Saldo iniziale"), Some("Saldo finale")]

  /** An amount cell: its stripped text, or "0" when the cell is missing or blank. */
  function AmountCell(c: Option<string>): (a: string)
    ensures a != "" && IsStripped(a)
  {
    if c.Some? && c.value != "" && Strip(c.value) != "" then Strip(c.value) else "0"
  }

  /** One pass of the loop in `process_rows`: the entry a row yields, or None when the row does not
      have exactly seven cells, its first cell is not a date, its description is a balance label,
      or either amount holds a '%'. */
  function RowEntry(row: Row): Option<Entry> {
    if |row| != 7 then None
    else if !DateCell(row[0]) then None
    else
      var d := CleanDescription(row[6]);
      if d in BalanceLabels then None
      else
        var u, e := AmountCell(row[2]), AmountCell(row[4]);
        if Contains(u, "%") || Contains(e, "%") then None
        else Some(Entry(Strip(row[0].value), d, u, e))
  }

  /** `process_rows`. */
  method ProcessRows(rows: seq<Row>) returns (processed: seq<Entry>)
    ensures processed == FilterMap(RowEntry, rows)
  {
    processed := [];
    var i := 0;
    while i < |rows|
      invariant 0 <= i <= |rows|
      invariant processed == FilterMap(RowEntry, rows[..i])
    {
      FilterMapTake(RowEntry, rows, i);
      var row := rows[i];
      i := i + 1;
      if |row| != 7 {
        continue;
      }
      var data := row[0];
      if data.None? || data.value == "" || !DateAt(Strip(data.value), 0, '/', true) {
        continue;
      }
      var descrizione := row[6];
      if descrizione.Some? && descrizione.value != "" {
        descrizione := Some(Strip(ReplaceAll(ReplaceAll(descrizione.value, "\\n", " "), "\n", " ")));
      }
      if descrizione == Some("Saldo iniziale") || descrizione == Some("Saldo finale") {
        continue;
      }
      var uscita := if row[2].Some? && row[2].value != "" && Strip(row[2].value) != "" then Strip(row[2].value) else "0";
      var entrata := if row[4].Some? && row[4].value != "" && Strip(row[4].value) != "" then Strip(row[4].value) else "0";
      if Contains(uscita, "%") || Contains(entrata, "%") {
        continue;
      }
      processed := processed + [Entry(Strip(data.value), descrizione, uscita, entrata)];
    }
    assert rows[..i] == rows;
  }

  /** What csv.writer writes for an entry: a missing description as an empty field. */
  function Written(e: Entry): Transaction {
    Transaction(e.data, CellText(e.descrizione), e.uscita, e.entrata)
  }

  /** `process_pdf` after table extraction: the header, then one written row per entry. */
  method ProcessPdf(rows: seq<Row>) returns (out: seq<seq<string>>)
    ensures |out| == |FilterMap(RowEntry, rows)| + 1 && out[0] == Header
    ensures forall k :: 0 <= k < |out| - 1 ==> out[k + 1] == Fields(Written(FilterMap(RowEntry, rows)[k]))
  {
    var processed := ProcessRows(rows);
    out := Table(seq(|processed|, k requires 0 <= k < |processed| => Written(processed[k])));
  }

  // ---------------------------------------------------------------------------------------------
  // Properties

  /** The cleaned description is the common one-line clean-up of the cell: doing the backslash-n
      replacement first or second makes no difference. */
  lemma DescriptionIsSingleLine(c: Option<string>)
    ensures CleanDescription(c) == if c.None? then None else Some(SingleLine(c.value))
  {
    if c.Some? {
      if c.value == "" {
        assert ReplaceAll("", "\n", " ") == "";
        assert ReplaceAll("", "\\n", " ") == "";
      } else {
        ReplaceOrderCommutes(c.value);
      }
    }
  }

  /** A row is kept exactly when it has seven cells, its first cell is a non-empty cell starting
      with a date once stripped, its cleaned description is not a balance label and neither amount
      holds a '%'. */
  lemma RowKept(row: Row)
    ensures RowEntry(row).Some? <==>
      |row| == 7 && DateCell(row[0])
      && CleanDescription(row[6]) != Some("Saldo iniziale") && CleanDescription(row[6]) != Some("Saldo finale")
      && !Contains(AmountCell(row[2]), "%") && !Contains(AmountCell(row[4]), "%")
  {
  }

  /** What a kept row becomes: the stripped date cell, the one-line description (missing when the
      cell was), and the two amount cells stripped but otherwise as they were, "0" when blank. */
  lemma EntryShape(row: Row)
    requires RowEntry(row).Some?
    ensures var e := RowEntry(row).value;
      e.data == Strip(row[0].value) && DateAt(e.data, 0, '/', true)
      && e.descrizione == (if row[6].None? then None else Some(SingleLine(row[6].value)))
      && e.uscita == (if row[2].None? || Strip(row[2].value) == "" then "0" else Strip(row[2].value))
      && e.entrata == (if row[4].None? || Strip(row[4].value) == "" then "0" else Strip(row[4].value))
  {
    DescriptionIsSingleLine(row[6]);
  }

  /** A written description is one stripped line. */
  lemma WrittenDescriptionIsOneLine(row: Row)
    requires RowEntry(row).Some?
    ensures var t := Written(RowEntry(row).value);
      IsStripped(t.descrizione) && NoChar(t.descrizione, '\n') && !Contains(t.descrizione, "\\n")
  {
    DescriptionIsSingleLine(row[6]);
  }

  /** A balance row is dropped, whatever its amounts. */
  lemma BalanceRowDropped(row: Row)
    requires |row| == 7 && row[6].Some?
    requires SingleLine(row[6].value) == "Saldo iniziale" || SingleLine(row[6].value) == "Saldo finale"
    ensures RowEntry(row).None?
  {
    DescriptionIsSingleLine(row[6]);
  }

  /** A row whose debit or credit cell holds a percentage is dropped. */
  lemma PercentageRowDropped(row: Row, k: nat)
    requires |row| == 7 && (k == 2 || k == 4) && row[k].Some? && Contains(Strip(row[k].value), "%")
    ensures RowEntry(row).None?
  {
    assert Strip(row[k].value) != "" by {
      var j :| 0 <= j <= |Strip(row[k].value)| - 1 && OccursAt(Strip(row[k].value), "%", j);
    }
    assert row[k].value != "";
  }

  /** One entry per kept row, in row order, and nothing else. */
  lemma OneEntryPerRow(rows: seq<Row>)
    ensures |FilterMap(RowEntry, rows)| <= |rows|
    ensures forall e :: e in FilterMap(RowEntry, rows) ==> exists i :: 0 <= i < |rows| && RowEntry(rows[i]) == Some(e)
    ensures forall i :: 0 <= i < |rows| && RowEntry(rows[i]).Some? ==> RowEntry(rows[i]).value in FilterMap(RowEntry, rows)
  {
    FilterMapSound(RowEntry, rows);
    FilterMapComplete(RowEntry, rows);
  }
}
