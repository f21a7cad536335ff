/** The Buffetti table converter (script/EcBuffetti.py): every table row whose first cell starts
    with a dd/mm/yyyy date becomes one record, with Entrate read from the fifth cell and Uscite
    from the seventh, both rewritten in canonical European form. */
module EcBuffetti {
  import opened Wrappers
  import opened Scan
  import opened PyText
  import opened Amounts
  import opened Csv

  const Zero := PyFloat(false, 0, 0)

  /** `parse_eu`: strip, then an empty text reads as 0.0; otherwise the thousands dots are dropped,
      the decimal comma becomes a point, and float() decides, with 0.0 where it raises. */
  function ParseEu(s: string): (r: PyFloat)
    ensures Strip(s) == "" ==> r == Zero
    ensures ParseFloat(EuToPy(Strip(s))).None? ==> r == Zero
  {
    var t := Strip(s);
    if t == "" then Zero
    else match ParseFloat(EuToPy(t))
      case Some(f) => f
      case None => Zero
  }

  /** `format_eu`: f"{value:,.2f}" with ',' and '.' swapped. */
  function FormatEu(v: PyFloat): string {
    FormatFloat(v)
  }

  /** Reading a canonical amount and printing it again gives the same text. */
  lemma FormatParseEu(neg: bool, c: nat)
    ensures FormatEu(ParseEu(FormatCents(neg, c))) == FormatCents(neg, c)
  {
    FormatCentsStripped(neg, c);
    FormatParseRoundTrip(neg, c);
    FormatFloatOfCents(neg, c);
  }

  /** The example from the docstring: "3.793,67" survives the round trip. */
  lemma DocstringExample()
    ensures FormatEu(ParseEu("3.793,67")) == "3.793,67"
  {
    assert Digits(3) == "3";
    assert Digits(37) == "37";
    assert Digits(379) == "379";
    assert Digits(3793) == "3793";
    assert Group("3793") == Group("3") + "." + "793";
    assert CentsDigits(379367) == "67";
    assert FormatCents(false, 379367) == "3.793,67";
    FormatParseEu(false, 379367);
  }

  /** An empty or blank amount cell reads as zero and prints as "0,00". */
  lemma BlankAmount(s: string)
    requires Strip(s) == ""
    ensures FormatEu(ParseEu(s)) == "0,00"
  {
    ZeroText();
  }

  // ---------------------------------------------------------------------------------------------
  // Rows

  const BalanceLabels: seq<string> := ["SALDO INIZIALE", "SALDO FINALE"]

  /** An amount cell as `process_rows` reads it: stripped, and 0.0 when that leaves nothing. */
  function CellAmount(cell: string): PyFloat {
    var t := Strip(cell);
    if t != "" then ParseEu(t) else Zero
  }

  /** One pass of the loop in `process_rows`: the record a row yields, or None when the row has
      fewer than seven cells, its stripped first cell does not start with dd/mm/yyyy, or its
      cleaned description is a balance label. */
  function RowRecord(row: seq<string>): Option<Transaction> {
    if |row| < 7 then None
    else
      var data := Strip(row[0]);
      if !DateAt(data, 0, '/', true) then None
      else
        var descr := SingleLine(Strip(row[2]));
        if descr in BalanceLabels then None
        else Some(Transaction(data, descr, FormatEu(CellAmount(row[6])), FormatEu(CellAmount(row[4]))))
  }

  function ProcessRowsSpec(rows: seq<seq<string>>): seq<Transaction> {
    FilterMap(RowRecord, rows)
  }

  /** `process_rows`. */
  method ProcessRows(rows: seq<seq<string>>) returns (transactions: seq<Transaction>)
    ensures transactions == ProcessRowsSpec(rows)
  {
    transactions := [];
    var i := 0;
    while i < |rows|
      invariant 0 <= i <= |rows|
      invariant transactions == FilterMap(RowRecord, rows[..i])
    {
      FilterMapTake(RowRecord, rows, i);
      var row := rows[i];
      i := i + 1;
      if |row| < 7 {
        continue;
      }
      if !DateAt(Strip(row[0]), 0, '/', true) {
        continue;
      }
      var dataValue := Strip(row[0]);
      var descr := SingleLine(Strip(row[2]));
      if descr == "SALDO INIZIALE" || descr == "SALDO FINALE" {
        continue;
      }
      var entrateStr := Strip(row[4]);
      var usciteStr := Strip(row[6]);
      var entrate := if entrateStr != "" then ParseEu(entrateStr) else Zero;
      var uscite := if usciteStr != "" then ParseEu(usciteStr) else Zero;
      transactions := transactions + [Transaction(dataValue, descr, FormatEu(uscite), FormatEu(entrate))];
    }
    assert rows[..i] == rows;
  }

  /** The header this profile writes: Entrate before Uscite. */
  const BuffettiHeader: seq<string> := ["Data", "Descrizione", "Entrate", "Uscite"]

  /** The rows csv.DictWriter writes under that header. */
  function Written(ts: seq<Transaction>): (rows: seq<seq<string>>)
    ensures |rows| == |ts| + 1 && rows[0] == BuffettiHeader
    ensures forall k :: 0 <= k < |ts| ==> rows[k + 1] == [ts[k].data, ts[k].descrizione, ts[k].entrate, ts[k].uscite]
  {
    [BuffettiHeader] + seq(|ts|, k requires 0 <= k < |ts| => [ts[k].data, ts[k].descrizione, ts[k].entrate, ts[k].uscite])
  }

  /** `process_pdf` after table extraction. */
  method ProcessPdf(rows: seq<seq<string>>) returns (out: seq<seq<string>>)
    ensures out == Written(ProcessRowsSpec(rows))
  {
    var transactions := ProcessRows(rows);
    out := Written(transactions);
  }

  // ---------------------------------------------------------------------------------------------
  // Properties

  /** A row is kept exactly when it has at least seven cells, its stripped first cell begins with
      dd/mm/yyyy (anything may follow the date), and its cleaned description is not a balance label. */
  lemma RowKept(row: seq<string>)
    ensures RowRecord(row).Some? <==>
      |row| >= 7 && DateAt(Strip(row[0]), 0, '/', true)
      && SingleLine(Strip(row[2])) != "SALDO INIZIALE" && SingleLine(Strip(row[2])) != "SALDO FINALE"
  {
  }

  /** A record's date is the stripped first cell, which starts with a date, and its description is
      one stripped line. */
  lemma RecordShape(row: seq<string>)
    requires RowRecord(row).Some?
    ensures DateAt(RowRecord(row).value.data, 0, '/', true) && RowRecord(row).value.data == Strip(row[0])
    ensures IsStripped(RowRecord(row).value.descrizione) && NoChar(RowRecord(row).value.descrizione, '\n')
  {
  }

  /** A kept row whose amount cells hold canonical amounts (or nothing) passes them through:
      Entrate is the fifth cell and Uscite the seventh, "0,00" when blank. */
  lemma AmountsFromCells(row: seq<string>, ne: bool, ce: nat, nu: bool, cu: nat)
    requires RowRecord(row).Some?
    requires Strip(row[4]) == "" || Strip(row[4]) == FormatCents(ne, ce)
    requires Strip(row[6]) == "" || Strip(row[6]) == FormatCents(nu, cu)
    ensures RowRecord(row).value.entrate == (if Strip(row[4]) == "" then "0,00" else FormatCents(ne, ce))
    ensures RowRecord(row).value.uscite == (if Strip(row[6]) == "" then "0,00" else FormatCents(nu, cu))
  {
    CellAmountOf(row[4], ne, ce);
    CellAmountOf(row[6], nu, cu);
  }

  lemma CellAmountOf(cell: string, neg: bool, c: nat)
    requires Strip(cell) == "" || Strip(cell) == FormatCents(neg, c)
    ensures FormatEu(CellAmount(cell)) == (if Strip(cell) == "" then "0,00" else FormatCents(neg, c))
  {
    if Strip(cell) == "" {
      ZeroText();
    } else {
      FormatParseEu(neg, c);
      FormatCentsStripped(neg, c);
    }
  }

  /** One record per kept row, in row order, and nothing else: every record comes from some row,
      and every kept row's record is in the output. */
  lemma OneRecordPerRow(rows: seq<seq<string>>)
    ensures |ProcessRowsSpec(rows)| <= |rows|
    ensures forall t :: t in ProcessRowsSpec(rows) ==> exists i :: 0 <= i < |rows| && RowRecord(rows[i]) == Some(t)
    ensures forall i :: 0 <= i < |rows| && RowRecord(rows[i]).Some? ==> RowRecord(rows[i]).value in ProcessRowsSpec(rows)
  {
    FilterMapSound(RowRecord, rows);
    FilterMapComplete(RowRecord, rows);
  }
}
