/** The Popolare di Sondrio movement-list converter (script/mSONDRIO.py): every table row of at
    least seven cells whose stripped first cell is exactly a dd/mm/yyyy date is written at once,
    with the description from the third cell and the first numeral found in the fifth and seventh
    cells as Uscite and Entrate. A missing cell that the loop calls strip() on raises. */
module MSondrio {
  import opened Wrappers
  import opened Scan
  import opened PyText
  import opened Amounts
  import opened Csv

  /** One table row as pdfplumber returns it: a list of cells, any of which may be missing. */
  type Row = seq<Option<string>>

  // ---------------------------------------------------------------------------------------------
  // extract_numeric_value

  /** The regex class `[0-9.]`. */
  predicate IsNumeralChar(c: char) {
    IsDigit(c) || c == '.'
  }

  /** Whether `[0-9.]+,[0-9]+` matches at index `i`. Since ',' is outside `[0-9.]`, the first part
      can only end where the whole run of `[0-9.]` characters ends, so no backtracking is needed:
      the run must be non-empty and be followed by a comma and a digit. */
  predicate NumeralAt(s: string, i: nat)
    requires i <= |s|
  {
    var k := Run(s, i, IsNumeralChar);
    k >= 1 && i + k + 1 < |s| && s[i + k] == ',' && IsDigit(s[i + k + 1])
  }

  /** Where the match at `i` ends: the greedy `[0-9]+` takes every digit after the comma. */
  function NumeralEnd(s: string, i: nat): (e: nat)
    requires i <= |s| && NumeralAt(s, i)
    ensures i < e <= |s|
  {
    var k := Run(s, i, IsNumeralChar);
    i + k + 1 + Run(s, i + k + 1, IsDigit)
  }

  /** re.search from index `i` on: the leftmost index where the pattern matches. */
  function SearchNumeral(s: string, i: nat): (r: Option<nat>)
    requires i <= |s|
    ensures r.Some? ==> i <= r.value <= |s| && NumeralAt(s, r.value)
    ensures forall j :: i <= j <= |s| && (r.None? || j < r.value) ==> !NumeralAt(s, j)
    decreases |s| - i
  {
    if i == |s| then None
    else if NumeralAt(s, i) then Some(i)
    else SearchNumeral(s, i + 1)
  }

  /** A whole numeral of the pattern: digits and dots, a comma, then digits only. */
  predicate IsNumeral(a: string) {
    var p := Run(a, 0, IsNumeralChar);
    p >= 1 && p + 1 < |a| && a[p] == ',' && forall j :: p < j < |a| ==> IsDigit(a[j])
  }

  /** `extract_numeric_value`: the text of the leftmost match, or "0" when there is none. */
  function ExtractNumericValue(text: string): (r: string)
    ensures r == "0" || IsNumeral(r)
  {
    match SearchNumeral(text, 0)
    case None => "0"
    case Some(i) =>
      var e := NumeralEnd(text, i);
      MatchIsNumeral(text, i);
      text[i..e]
  }

  /** The text of a match is a whole numeral. */
  lemma MatchIsNumeral(s: string, i: nat)
    requires i <= |s| && NumeralAt(s, i)
    ensures IsNumeral(s[i..NumeralEnd(s, i)])
  {
    var k := Run(s, i, IsNumeralChar);
    var m := Run(s, i + k + 1, IsDigit);
    var a := s[i..NumeralEnd(s, i)];
    RunSpan(s, i, IsNumeralChar);
    RunSpan(s, i + k + 1, IsDigit);
    RunOver(a, 0, s[i..i + k], IsNumeralChar);
    forall j | k < j < |a| ensures IsDigit(a[j]) {
      assert a[j] == s[i + j];
    }
  }

  /** A numeral placed at `i`, and not followed by a digit, is matched there and in full. */
  lemma NumeralPlaced(s: string, i: nat, a: string)
    requires IsNumeral(a) && i + |a| <= |s| && s[i..i + |a|] == a
    requires i + |a| == |s| || !IsDigit(s[i + |a|])
    ensures NumeralAt(s, i) && NumeralEnd(s, i) == i + |a| && s[i..NumeralEnd(s, i)] == a
  {
    var p := Run(a, 0, IsNumeralChar);
    RunSpan(a, 0, IsNumeralChar);
    forall j | i <= j < i + |a| ensures s[j] == a[j - i] {
      assert s[i..i + |a|][j - i] == s[j];
    }
    RunOver(s, i, a[..p], IsNumeralChar);
    RunOver(s, i + p + 1, a[p + 1..], IsDigit);
  }

  /** A numeral is its own first match: extracting from it gives it back. */
  lemma ExtractNumeral(a: string)
    requires IsNumeral(a)
    ensures ExtractNumericValue(a) == a
  {
    NumeralPlaced(a, 0, a);
  }

  /** Extracting twice is extracting once. */
  lemma ExtractIdempotent(text: string)
    ensures ExtractNumericValue(ExtractNumericValue(text)) == ExtractNumericValue(text)
  {
    var r := ExtractNumericValue(text);
    if r == "0" {
      assert !NumeralAt("0", 0) && !NumeralAt("0", 1);
    } else {
      ExtractNumeral(r);
    }
  }

  /** An empty cell has no match, so the `if uscite_raw else "0"` guard changes nothing. */
  lemma EmptyCellGivesZero()
    ensures ExtractNumericValue("") == "0"
  {
  }

  /** The canonical text of a non-negative amount is a numeral. */
  lemma CanonicalIsNumeral(c: nat)
    ensures IsNumeral(FormatCents(false, c))
  {
    var g, cc := Group(Digits(c / 100)), CentsDigits(c);
    var a := FormatCents(false, c);
    GroupChars(Digits(c / 100));
    GroupHead(Digits(c / 100));
    assert a == g + "," + cc;
    RunOver(a, 0, g, IsNumeralChar);
    forall j | |g| < j < |a| ensures IsDigit(a[j]) {
      assert a[j] == cc[j - |g| - 1];
    }
  }

  /** A cell that starts with a canonical amount, followed by anything that does not begin with a
      digit (nothing, or " EUR", say), yields that amount. */
  lemma CanonicalAmountCell(c: nat, post: string)
    requires post == [] || !IsDigit(post[0])
    ensures ExtractNumericValue(FormatCents(false, c) + post) == FormatCents(false, c)
  {
    var a := FormatCents(false, c);
    var s := a + post;
    CanonicalIsNumeral(c);
    assert s[0..|a|] == a;
    NumeralPlaced(s, 0, a);
  }

  /** A negative canonical amount yields its magnitude: the minus sign is not part of the match. */
  lemma NegativeAmountCell(c: nat)
    ensures ExtractNumericValue(FormatCents(true, c)) == FormatCents(false, c)
  {
    var a := FormatCents(false, c);
    var s := FormatCents(true, c);
    assert s == "-" + a;
    CanonicalIsNumeral(c);
    assert s[1..1 + |a|] == a;
    NumeralPlaced(s, 1, a);
    assert Run(s, 0, IsNumeralChar) == 0;
  }

  // ---------------------------------------------------------------------------------------------
  // Rows

  /** `^\d{2}/\d{2}/\d{4}$` matched against a stripped cell (which cannot end in '\n'). */
  predicate IsFullDate(s: string) {
    |s| == 10 && DateAt(s, 0, '/', true)
  }

  /** An amount column: the first numeral of the stripped cell, "0" when the cell is blank. */
  function AmountOf(cell: string): string {
    var raw := Strip(cell);
    if raw != "" then ExtractNumericValue(raw) else "0"
  }

  /** One pass of the loop in `process_pdf`: the row it writes, None when it skips the row, or the
      AttributeError that strip() raises on a missing cell. Cell 0 is read for every row of at
      least seven cells; cells 2, 4 and 6 only for a row whose first cell is a date. */
  function RowOutcome(row: Row): Result<Option<seq<string>>> {
    if |row| < 7 then Ok(None)
    else if row[0].None? then Raise(AttributeError)
    else if Upper(Strip(row[0].value)) == "DATA" then Ok(None)
    else
      var first := Strip(row[0].value);
      if !IsFullDate(first) then Ok(None)
      else if row[2].None? || row[4].None? || row[6].None? then Raise(AttributeError)
      else Ok(Some([first, SingleLine(Strip(row[2].value)), AmountOf(row[4].value), AmountOf(row[6].value)]))
  }

  /** The loop body, step by step as the converter takes it. */
  method EmitRow(row: Row) returns (o: Result<Option<seq<string>>>)
    ensures o == RowOutcome(row)
  {
    if |row| < 7 {
      return Ok(None);
    }
    if row[0].None? {
      return Raise(AttributeError);
    }
    if Upper(Strip(row[0].value)) == "DATA" {
      return Ok(None);
    }
    var firstField := Strip(row[0].value);
    if !IsFullDate(firstField) {
      return Ok(None);
    }
    var data := firstField;
    if row[2].None? {
      return Raise(AttributeError);
    }
    var descrizione := Strip(row[2].value);
    descrizione := Strip(ReplaceAll(ReplaceAll(descrizione, "\n", " "), "\\n", " "));
    if row[4].None? {
      return Raise(AttributeError);
    }
    var usciteRaw := Strip(row[4].value);
    if row[6].None? {
      return Raise(AttributeError);
    }
    var entrateRaw := Strip(row[6].value);
    var uscite := if usciteRaw != "" then ExtractNumericValue(usciteRaw) else "0";
    var entrate := if entrateRaw != "" then ExtractNumericValue(entrateRaw) else "0";
    return Ok(Some([data, descrizione, uscite, entrate]));
  }

  /** The rows written for `rows`, in order, or the first exception raised. */
  function Emitted(rows: seq<Row>): Result<seq<seq<string>>>
    decreases |rows|
  {
    if rows == [] then Ok([])
    else match RowOutcome(rows[0])
      case Raise(e) => Raise(e)
      case Ok(o) =>
        match Emitted(rows[1..])
        case Raise(e) => Raise(e)
        case Ok(rest) => Ok((if o.Some? then [o.value] else []) + rest)
  }

  /** Rows already written, followed by what the remaining rows produce. */
  function Then(done: seq<seq<string>>, r: Result<seq<seq<string>>>): Result<seq<seq<string>>> {
    match r
    case Ok(more) => Ok(done + more)
    case Raise(e) => Raise(e)
  }

  /** `process_pdf` after table extraction: the header and the written rows, or the exception. */
  function PdfOutput(rows: seq<Row>): Result<seq<seq<string>>> {
    Then([Header], Emitted(rows))
  }

  /** `process_pdf`: the header, then each row as the loop reaches it; an exception ends the run. */
  method ProcessPdf(rows: seq<Row>) returns (r: Result<seq<seq<string>>>)
    ensures r == PdfOutput(rows)
  {
    var out := [Header];
    var i := 0;
    while i < |rows|
      invariant 0 <= i <= |rows|
      invariant Then(out, Emitted(rows[i..])) == PdfOutput(rows)
    {
      var o := EmitRow(rows[i]);
      EmittedStep(rows, i);
      if o.Raise? {
        return Raise(o.error);
      }
      ThenStep(out, o.value, Emitted(rows[i + 1..]));
      if o.value.Some? {
        out := out + [o.value.value];
      } else {
        assert out + [] == out;
      }
      i := i + 1;
    }
    assert rows[i..] == [] && out + [] == out;
    r := Ok(out);
  }

  /** Writing a row now, or leaving it for later, is the same. */
  lemma ThenStep(out: seq<seq<string>>, o: Option<seq<string>>, r: Result<seq<seq<string>>>)
    ensures Then(out, match r
      case Raise(e) => Raise(e)
      case Ok(rest) => Ok((if o.Some? then [o.value] else []) + rest))
      == Then(out + (if o.Some? then [o.value] else []), r)
  {
    if r.Ok? {
      AppendAssoc(out, if o.Some? then [o.value] else [], r.value);
    }
  }

  /** The rows from `i` on produce the outcome of row `i`, then the rows after it. */
  lemma EmittedStep(rows: seq<Row>, i: nat)
    requires i < |rows|
    ensures Emitted(rows[i..]) ==
      match RowOutcome(rows[i])
      case Raise(e) => Raise(e)
      case Ok(o) => match Emitted(rows[i + 1..])
        case Raise(e) => Raise(e)
        case Ok(rest) => Ok((if o.Some? then [o.value] else []) + rest)
  {
    assert rows[i..][0] == rows[i] && rows[i..][1..] == rows[i + 1..];
  }

  // ---------------------------------------------------------------------------------------------
  // Properties

  /** A row is written exactly when it has at least seven cells, the four it reads are present and
      its stripped first cell is a date. The "DATA" header test never decides anything: a header
      cell is no date. */
  lemma RowWritten(row: Row)
    ensures RowOutcome(row).Ok? && RowOutcome(row).value.Some? <==>
      |row| >= 7 && row[0].Some? && row[2].Some? && row[4].Some? && row[6].Some?
      && IsFullDate(Strip(row[0].value))
  {
    if |row| >= 7 && row[0].Some? {
      assert |Upper(Strip(row[0].value))| == |Strip(row[0].value)|;
    }
  }

  /** The row written for a kept row: the date, the one-line description from cell 2, and the
      first numerals of cells 4 and 6 as Uscite and Entrate. */
  lemma WrittenColumns(row: Row)
    requires RowOutcome(row).Ok? && RowOutcome(row).value.Some?
    ensures var w := RowOutcome(row).value.value;
      |w| == 4 && w[0] == Strip(row[0].value) && IsFullDate(w[0])
      && w[1] == SingleLine(Strip(row[2].value)) && IsStripped(w[1]) && NoChar(w[1], '\n')
      && w[2] == ExtractNumericValue(Strip(row[4].value)) && w[3] == ExtractNumericValue(Strip(row[6].value))
      && (w[2] == "0" || IsNumeral(w[2])) && (w[3] == "0" || IsNumeral(w[3]))
  {
    EmptyCellGivesZero();
  }

  /** Exactly the rows that reach a missing cell raise: one whose first cell is missing, or a dated
      one missing its description or an amount cell. */
  lemma RowRaises(row: Row)
    ensures RowOutcome(row).Raise? <==>
      |row| >= 7 && (row[0].None? || (IsFullDate(Strip(row[0].value)) && (row[2].None? || row[4].None? || row[6].None?)))
  {
    if |row| >= 7 && row[0].Some? {
      assert |Upper(Strip(row[0].value))| == |Strip(row[0].value)|;
    }
  }

  /** What each row gives when the loop does not raise. */
  function Kept(row: Row): Option<seq<string>> {
    if RowOutcome(row).Ok? then RowOutcome(row).value else None
  }

  /** Without an exception the output is one row per kept input row, in order, with no merging
      and no further filtering. */
  lemma {:induction false} EmittedKept(rows: seq<Row>)
    requires forall i :: 0 <= i < |rows| ==> RowOutcome(rows[i]).Ok?
    ensures Emitted(rows) == Ok(FilterMap(Kept, rows))
    decreases |rows|
  {
    if rows != [] {
      EmittedKept(rows[1..]);
      assert [rows[0]] + rows[1..] == rows;
      FilterMapAppend(Kept, [rows[0]], rows[1..]);
    }
  }

  /** The run raises exactly when some row does. */
  lemma {:induction false} EmittedRaises(rows: seq<Row>)
    ensures Emitted(rows).Raise? <==> exists i :: 0 <= i < |rows| && RowOutcome(rows[i]).Raise?
    decreases |rows|
  {
    if rows != [] {
      EmittedRaises(rows[1..]);
      if RowOutcome(rows[0]).Raise? {
        assert RowOutcome(rows[0]).Raise?;
      } else {
        forall i | 0 <= i < |rows| && RowOutcome(rows[i]).Raise? ensures 1 <= i && RowOutcome(rows[1..][i - 1]).Raise? {
          assert rows[1..][i - 1] == rows[i];
        }
        forall i | 0 <= i < |rows| - 1 && RowOutcome(rows[1..][i]).Raise? ensures RowOutcome(rows[i + 1]).Raise? {
          assert rows[1..][i] == rows[i + 1];
        }
      }
    }
  }
}
