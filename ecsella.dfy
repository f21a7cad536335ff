/** The Sella table converter (script/EcSELLA.py): five-cell rows dated "dd dd dd" twice are kept,
    their description cell is cleaned in place, and the two amount cells are rewritten in place
    in canonical European form just before each row is written. Table rows are mutable arrays
    here, as they are mutable lists in the converter. */
module EcSella {
  import opened Wrappers
  import opened Scan
  import opened PyText
  import opened Amounts
  import opened Csv

  /** One table row as pdfplumber returns it: a list of cells, any of which may be missing. */
  type Cells = array<Option<string>>

  // ---------------------------------------------------------------------------------------------
  // Values

  /** `^\d{2}\s\d{2}\s\d{2}$` matched against a stripped cell (which cannot end in '\n'). */
  predicate IsSellaDate(s: string) {
    |s| == 8 && DateAt(s, 0, ' ', false)
  }

  /** A present, non-empty cell whose stripped text is a Sella date: `row[k] and date_regex.match(...)`. */
  predicate DateCell(c: Option<string>) {
    c.Some? && c.value != "" && IsSellaDate(Strip(c.value))
  }

  const BalanceLabels: seq<string> := ["SALDO INIZIALE A VS. CREDITO", "SALDO FINALE A VS. CREDITO"]

  /** `(row[2] or "")`, stripped and made single-line. */
  function Description(c: Option<string>): (d: string)
    ensures IsStripped(d) && NoChar(d, '\n')
  {
    SingleLine(Strip(CellText(c)))
  }

  /** What `filter_valid_rows` makes of one row, read as a value: the row with its description cell
      cleaned when it is kept, None when it is dropped. */
  function CleanedRow(r: Option<seq<Option<string>>>): (c: Option<seq<Option<string>>>)
    ensures c.Some? ==> r.Some? && |c.value| == |r.value| == 5
  {
    if r.None? || |r.value| != 5 then None
    else if !(DateCell(r.value[0]) && DateCell(r.value[1])) then None
    else
      var d := Description(r.value[2]);
      if d in BalanceLabels then None else Some(r.value[2 := Some(d)])
  }

  /** What a row holds once `filter_valid_rows` is done: kept rows carry the cleaned description,
      every other row is as it was. */
  function AfterFilter(r: seq<Option<string>>): seq<Option<string>> {
    match CleanedRow(Some(r))
    case Some(c) => c
    case None => r
  }

  /** `format_euro_number`: "0" for a missing or blank cell; the stripped text when float() rejects
      it after the European-to-Python rewrite; the canonical form otherwise. */
  function FormatEuroNumber(c: Option<string>): string
  {
    if c.None? || c.value == "" || Strip(c.value) == "" then "0"
    else
      var t := Strip(c.value);
      match ParseFloat(EuToPy(t))
      case None => t
      case Some(f) => FormatFloat(f)
  }

  /** A row after the second loop of `process_pdf`: cells 3 and 4 reformatted, the rest as they were. */
  function Reformatted(r: seq<Option<string>>): (s: seq<Option<string>>)
    ensures |s| == |r|
  {
    seq(|r|, j requires 0 <= j < |r| => if j == 3 || j == 4 then Some(FormatEuroNumber(r[j])) else r[j])
  }

  /** What csv.writer writes for a row: missing cells as empty fields. */
  function WrittenRow(r: seq<Option<string>>): (w: seq<string>)
    ensures |w| == |r|
  {
    seq(|r|, j requires 0 <= j < |r| => CellText(r[j]))
  }

  const SellaHeader: seq<string> := ["Data contabile", "Data valuta", "Descrizione", "Uscite", "Entrate"]

  /** The written output for the kept rows: the five-column header, then each row reformatted. */
  function SellaTable(vs: seq<seq<Option<string>>>): (out: seq<seq<string>>)
    ensures |out| == |vs| + 1 && out[0] == SellaHeader
    ensures forall k :: 0 <= k < |vs| ==> out[k + 1] == WrittenRow(Reformatted(vs[k]))
  {
    [SellaHeader] + seq(|vs|, k requires 0 <= k < |vs| => WrittenRow(Reformatted(vs[k])))
  }

  // ---------------------------------------------------------------------------------------------
  // The rows as mutable arrays

  /** The row arrays among the input rows. */
  function RowSet(rows: seq<Option<Cells>>): set<Cells> {
    set i | 0 <= i < |rows| && rows[i].Some? :: rows[i].value
  }

  /** Every row is its own list: no two entries of the table share one. */
  predicate Distinct(rows: seq<Option<Cells>>) {
    forall i, j :: 0 <= i < j < |rows| && rows[i].Some? && rows[j].Some? ==> rows[i].value != rows[j].value
  }

  /** What the rows hold right now. */
  function Contents(rows: seq<Option<Cells>>): (r: seq<Option<seq<Option<string>>>>)
    reads RowSet(rows)
    ensures |r| == |rows|
    ensures forall i :: 0 <= i < |rows| ==> r[i] == if rows[i].Some? then Some(rows[i].value[..]) else None
  {
    seq(|rows|, i requires 0 <= i < |rows| reads RowSet(rows) =>
      if rows[i].Some? then Some(rows[i].value[..]) else None)
  }

  function Values(valid: seq<Cells>): (r: seq<seq<Option<string>>>)
    reads set k | 0 <= k < |valid| :: valid[k]
    ensures |r| == |valid| && forall k :: 0 <= k < |valid| ==> r[k] == valid[k][..]
  {
    seq(|valid|, k requires 0 <= k < |valid| reads set k | 0 <= k < |valid| :: valid[k] => valid[k][..])
  }

  /** One pass of the loop in `filter_valid_rows` on a present row: a five-cell row with two date
      cells and no balance label gets its description cell cleaned and is kept. */
  method FilterRow(a: Cells) returns (kept: bool)
    modifies a
    ensures kept <==> CleanedRow(Some(old(a[..]))).Some?
    ensures a[..] == AfterFilter(old(a[..]))
  {
    ghost var r := a[..];
    if a.Length != 5 {
      return false;
    }
    if a[0].Some? && a[0].value != "" && a[1].Some? && a[1].value != ""
       && IsSellaDate(Strip(a[0].value)) && IsSellaDate(Strip(a[1].value)) {
      var description := SingleLine(Strip(CellText(a[2])));
      assert description == Description(r[2]);
      if description != "SALDO INIZIALE A VS. CREDITO" && description != "SALDO FINALE A VS. CREDITO" {
        a[2] := Some(description);
        assert a[..] == r[2 := Some(description)];
        return true;
      }
      assert CleanedRow(Some(r)).None?;
    }
    return false;
  }

  /** Every present row holds what `filter_valid_rows` leaves in it, given what it held before. */
  ghost predicate FilteredInPlace(rows: seq<Option<Cells>>, before: seq<Option<seq<Option<string>>>>)
    reads RowSet(rows)
  {
    |before| == |rows|
    && forall j :: 0 <= j < |rows| && rows[j].Some? ==> before[j].Some? && rows[j].value[..] == AfterFilter(before[j].value)
  }

  /** What the loop of `filter_valid_rows` keeps true after `i` rows: `valid` holds the kept rows
      among them, as arrays, no two the same, holding `vals`, the cleaned rows of `before`, the rows
      as they were on entry; `seen` holds the rows already visited; a visited row holds its cleaned
      text if it was kept and is as it was otherwise, and the rows not yet visited are as they were. */
  ghost predicate Filtered(rows: seq<Option<Cells>>, i: nat, valid: seq<Cells>, vals: seq<seq<Option<string>>>,
                           seen: set<Cells>, before: seq<Option<seq<Option<string>>>>)
    reads RowSet(rows), set k | 0 <= k < |valid| :: valid[k]
  {
    i <= |rows| == |before| && |valid| == |vals| && seen <= RowSet(rows)
    && (forall k :: 0 <= k < |valid| ==> valid[k] in seen && valid[k].Length == 5 && valid[k][..] == vals[k])
    && (forall k, l :: 0 <= k < l < |valid| ==> valid[k] != valid[l])
    && (forall j :: i <= j < |rows| && rows[j].Some? ==> rows[j].value !in seen && before[j] == Some(rows[j].value[..]))
    && (forall j :: i <= j < |rows| && rows[j].None? ==> before[j].None?)
    && (forall j :: 0 <= j < i && rows[j].Some? ==> before[j].Some? && rows[j].value[..] == AfterFilter(before[j].value))
    && vals == FilterMap(CleanedRow, before[..i])
  }

  /** One pass of the loop in `filter_valid_rows`: the row at `i` is filtered, and kept when it
      qualifies. */
  method FilterStep(rows: seq<Option<Cells>>, i: nat, valid: seq<Cells>, ghost vals: seq<seq<Option<string>>>,
                    ghost seen: set<Cells>, ghost before: seq<Option<seq<Option<string>>>>)
    returns (valid': seq<Cells>, ghost vals': seq<seq<Option<string>>>, ghost seen': set<Cells>)
    requires Distinct(rows) && i < |rows| && Filtered(rows, i, valid, vals, seen, before)
    modifies if rows[i].Some? then {rows[i].value} else {}
    ensures Filtered(rows, i + 1, valid', vals', seen', before)
  {
    FilterMapTake(CleanedRow, before, i);
    valid', vals', seen' := valid, vals, seen;
    var row := rows[i];
    if row.Some? {
      var a := row.value;
      assert a !in seen && a in RowSet(rows);
      assert forall j :: i < j < |rows| && rows[j].Some? ==> rows[j].value != a;
      var kept := FilterRow(a);
      assert CleanedRow(before[i]) == if kept then Some(a[..]) else None;
      if kept {
        vals' := vals + [a[..]];
        valid' := valid + [a];
      }
      seen' := seen + {a};
    }
  }

  /** `filter_valid_rows`: the kept rows, in order, are the very row lists of the input, each with
      its description cell overwritten by the cleaned text; every rejected row list is left as it
      was. */
  method FilterValidRows(rows: seq<Option<Cells>>) returns (valid: seq<Cells>)
    requires Distinct(rows)
    modifies RowSet(rows)
    ensures Values(valid) == FilterMap(CleanedRow, old(Contents(rows)))
    ensures forall k :: 0 <= k < |valid| ==> valid[k] in RowSet(rows) && valid[k].Length == 5
    ensures forall k, l :: 0 <= k < l < |valid| ==> valid[k] != valid[l]
    ensures FilteredInPlace(rows, old(Contents(rows)))
  {
    ghost var before := Contents(rows);
    ghost var vals: seq<seq<Option<string>>> := [];
    ghost var seen: set<Cells> := {};
    valid := [];
    var i: nat := 0;
    while i < |rows|
      invariant Filtered(rows, i, valid, vals, seen, before)
    {
      valid, vals, seen := FilterStep(rows, i, valid, vals, seen, before);
      i := i + 1;
    }
    assert before[..i] == before;
  }

  /** The second loop's body: the two amount cells of a row rewritten in place. */
  method ReformatRow(a: Cells)
    requires a.Length == 5
    modifies a
    ensures a[..] == Reformatted(old(a[..]))
  {
    a[3] := Some(FormatEuroNumber(a[3]));
    a[4] := Some(FormatEuroNumber(a[4]));
  }

  /** The second loop of `process_pdf`: each kept row written right after its two amount cells
      are reformatted in place. */
  method WriteRows(valid: seq<Cells>) returns (out: seq<seq<string>>)
    requires forall k :: 0 <= k < |valid| ==> valid[k].Length == 5
    requires forall k, l :: 0 <= k < l < |valid| ==> valid[k] != valid[l]
    modifies set k | 0 <= k < |valid| :: valid[k]
    ensures out == SellaTable(old(Values(valid)))
    ensures forall k :: 0 <= k < |valid| ==> valid[k][..] == Reformatted(old(valid[k][..]))
  {
    ghost var vs := Values(valid);
    out := [SellaHeader];
    var k := 0;
    while k < |valid|
      invariant 0 <= k <= |valid| && |out| == k + 1 && out[0] == SellaHeader
      invariant forall m :: k <= m < |valid| ==> valid[m][..] == vs[m]
      invariant forall m :: 0 <= m < k ==> out[m + 1] == WrittenRow(Reformatted(vs[m]))
      invariant forall m :: 0 <= m < k ==> valid[m][..] == Reformatted(vs[m])
    {
      var row := valid[k];
      assert forall m :: 0 <= m < |valid| && m != k ==> valid[m] != row;
      ReformatRow(row);
      assert row[..] == Reformatted(vs[k]);
      var written := WrittenRow(row[..]);
      assert written == WrittenRow(Reformatted(vs[k]));
      out := out + [written];
      k := k + 1;
    }
    TableOf(out, vs);
  }

  /** `process_pdf` after table extraction: the header, then each kept row with its two amount
      cells reformatted. */
  method ProcessPdf(rows: seq<Option<Cells>>) returns (out: seq<seq<string>>)
    requires Distinct(rows)
    modifies RowSet(rows)
    ensures out == SellaTable(FilterMap(CleanedRow, old(Contents(rows))))
  {
    var valid := FilterValidRows(rows);
    out := WriteRows(valid);
  }

  lemma TableOf(out: seq<seq<string>>, vs: seq<seq<Option<string>>>)
    requires |out| == |vs| + 1 && out[0] == SellaHeader
    requires forall m :: 0 <= m < |vs| ==> out[m + 1] == WrittenRow(Reformatted(vs[m]))
    ensures out == SellaTable(vs)
  {
  }

  // ---------------------------------------------------------------------------------------------
  // Properties

  /** A row is kept exactly when it is present, has five cells, both date cells are non-empty
      Sella dates once stripped, and its cleaned description is not a balance label. */
  lemma RowKept(r: seq<Option<string>>)
    ensures CleanedRow(Some(r)).Some? <==>
      |r| == 5 && DateCell(r[0]) && DateCell(r[1])
      && Description(r[2]) != "SALDO INIZIALE A VS. CREDITO" && Description(r[2]) != "SALDO FINALE A VS. CREDITO"
  {
  }

  /** A missing row is never kept. */
  lemma MissingRowDropped()
    ensures CleanedRow(None).None?
  {
  }

  /** Cleaning touches the description cell only: it becomes one stripped line, every other cell
      is as it was. */
  lemma CleanedCells(r: seq<Option<string>>)
    requires CleanedRow(Some(r)).Some?
    ensures var c := CleanedRow(Some(r)).value;
      c[0] == r[0] && c[1] == r[1] && c[3] == r[3] && c[4] == r[4]
      && c[2] == Some(Description(r[2])) && IsStripped(Description(r[2])) && NoChar(Description(r[2]), '\n')
  {
  }

  /** A missing or blank amount cell is written as "0". */
  lemma BlankAmountCell(c: Option<string>)
    requires c.None? || Strip(c.value) == ""
    ensures FormatEuroNumber(c) == "0"
  {
  }

  /** A cell float() cannot read, once rewritten, is written stripped but otherwise unchanged. */
  lemma UnreadableAmountCell(cell: string)
    requires Strip(cell) != "" && ParseFloat(EuToPy(Strip(cell))).None?
    ensures FormatEuroNumber(Some(cell)) == Strip(cell)
  {
  }

  /** A cell that already holds a canonical amount, with any surrounding blanks, is written as that
      amount: reformatting is the identity on the formatter's own output. */
  lemma CanonicalAmountCell(cell: string, neg: bool, c: nat)
    requires Strip(cell) == FormatCents(neg, c)
    ensures FormatEuroNumber(Some(cell)) == FormatCents(neg, c)
  {
    FormatCentsStripped(neg, c);
    FormatParseRoundTrip(neg, c);
    FormatFloatOfCents(neg, c);
  }

  /** "0", the formatter's answer for an empty cell, is not itself canonical: formatting it again
      gives "0,00". */
  lemma ZeroIsNotCanonical()
    ensures FormatEuroNumber(Some("0")) == "0,00"
  {
    StripKeepsStripped("0");
    assert EuToPy("0") == "0";
    assert ParseFloat("0") == Some(PyFloat(false, 0, 0));
    ZeroText();
  }

  /** A five-cell row is written as its first three cells and its two reformatted amounts. */
  lemma WrittenFiveCells(v: seq<Option<string>>)
    requires |v| == 5
    ensures WrittenRow(Reformatted(v))
         == [CellText(v[0]), CellText(v[1]), CellText(v[2]), FormatEuroNumber(v[3]), FormatEuroNumber(v[4])]
  {
    var u := Reformatted(v);
    assert u[0] == v[0] && u[1] == v[1] && u[2] == v[2];
    assert u[3] == Some(FormatEuroNumber(v[3])) && u[4] == Some(FormatEuroNumber(v[4]));
    var w := WrittenRow(u);
    assert |w| == 5 && w[0] == CellText(v[0]) && w[1] == CellText(v[1]) && w[2] == CellText(v[2]);
    assert w[3] == FormatEuroNumber(v[3]) && w[4] == FormatEuroNumber(v[4]);
  }

  /** What is written for a kept row: the two dates as they were, the cleaned description, and the
      two amounts reformatted, in the header's column order. */
  lemma WrittenKeptRow(r: seq<Option<string>>)
    requires CleanedRow(Some(r)).Some?
    ensures WrittenRow(Reformatted(CleanedRow(Some(r)).value))
         == [CellText(r[0]), CellText(r[1]), Description(r[2]), FormatEuroNumber(r[3]), FormatEuroNumber(r[4])]
  {
    CleanedCells(r);
    WrittenFiveCells(CleanedRow(Some(r)).value);
  }

  /** The written rows are the kept rows and nothing else, in table order: each comes from some
      input row that is kept, every kept row is written, and there are never more than rows. */
  lemma KeptRowsInOrder(rs: seq<Option<seq<Option<string>>>>)
    ensures |FilterMap(CleanedRow, rs)| <= |rs|
    ensures forall v :: v in FilterMap(CleanedRow, rs) ==> exists i :: 0 <= i < |rs| && CleanedRow(rs[i]) == Some(v)
    ensures forall i :: 0 <= i < |rs| && CleanedRow(rs[i]).Some? ==> CleanedRow(rs[i]).value in FilterMap(CleanedRow, rs)
  {
    FilterMapSound(CleanedRow, rs);
    FilterMapComplete(CleanedRow, rs);
  }
}
