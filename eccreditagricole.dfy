/** The Crédit Agricole statement ("EcCreditAgricole"): table rows cut at fixed vertical lines.
    A row whose first cell is a dd.mm.yy date opens a record; a row whose first five cells are
    empty continues the description of the open record. */
module EcCreditAgricole {
  import opened Wrappers
  import opened Scan
  import opened PyText
  import opened Amounts
  import opened Csv

  // ---------------------------------------------------------------------------------------------
  // Dates

  /** `convert_date`: dd.mm.yy becomes dd/mm/20yy; a text that does not split into exactly three
      dot-separated parts is returned unchanged. */
  function ConvertDate(s: string): (r: string)
    ensures |Split(s, '.')| != 3 ==> r == s
  {
    var parts := Split(s, '.');
    if |parts| == 3 then
      var year := if |parts[2]| == 2 then "20" + parts[2] else parts[2];
      parts[0] + "/" + parts[1] + "/" + year
    else s
  }

  /** `is_date`: the stripped text is exactly dd.mm.yy. */
  predicate IsDate(s: string) {
    var t := Strip(s);
    |t| == 8 && DateAt(t, 0, '.', false)
  }

  /** A text of exactly three dot-separated parts has its dots replaced by slashes; a two-character
      year gets the prefix "20", a year of any other length is kept as it is. */
  lemma ConvertDateParts(d: string, m: string, y: string)
    requires NoChar(d, '.') && NoChar(m, '.') && NoChar(y, '.')
    ensures ConvertDate(d + "." + m + "." + y)
         == d + "/" + m + "/" + (if |y| == 2 then "20" + y else y)
  {
    var s := d + "." + m + "." + y;
    assert s == d + ['.'] + (m + ['.'] + y);
    SplitNone(y, '.');
    SplitFirst(m, '.', y);
    SplitFirst(d, '.', m + ['.'] + y);
    assert Split(s, '.') == [d, m, y];
  }

  /** A short date is rewritten into the four-digit-year form dd/mm/20yy, day and month kept. */
  lemma ConvertShortDate(s: string)
    requires |s| == 8 && DateAt(s, 0, '.', false)
    ensures ConvertDate(s) == s[..2] + "/" + s[3..5] + "/20" + s[6..]
    ensures |ConvertDate(s)| == 10 && DateAt(ConvertDate(s), 0, '/', true)
  {
    var d, m, y := s[..2], s[3..5], s[6..];
    assert s == d + "." + m + "." + y;
    ConvertDateParts(d, m, y);
  }

  // ---------------------------------------------------------------------------------------------
  // Amounts

  /** The integer part of `\d+(?:\.\d{3})*`: digits, or a shorter such part followed by a '.'
      and exactly three digits. */
  predicate GroupedDigits(b: string)
    decreases |b|
  {
    (|b| >= 1 && AllDigits(b))
    || (|b| >= 5 && b[|b| - 4] == '.' && AllDigits(b[|b| - 3..]) && GroupedDigits(b[..|b| - 4]))
  }

  /** `is_valid_number`: the stripped text is `\d+(?:\.\d{3})*,\d{2}`. */
  predicate IsValidNumber(s: string) {
    var t := Strip(s);
    |t| >= 3 && t[|t| - 3] == ',' && IsDigit(t[|t| - 2]) && IsDigit(t[|t| - 1])
    && GroupedDigits(t[..|t| - 3])
  }

  /** The digits of a grouped integer part, separators dropped. */
  function GroupDigits(b: string): (d: string)
    requires GroupedDigits(b)
    ensures AllDigits(d) && |d| >= 1
    ensures ReplaceAll(b, ".", "") == d
    decreases |b|
  {
    if |b| >= 1 && AllDigits(b) then
      ReplaceCharAbsent(b, '.', "");
      b
    else
      var h, t := b[..|b| - 4], b[|b| - 3..];
      var d := GroupDigits(h);
      assert b == h + ("." + t);
      assert ("." + t)[..1] == "." && ("." + t)[1..] == t;
      ReplaceCharConcat(h, "." + t, '.', "");
      ReplaceCharAbsent(t, '.', "");
      assert ReplaceAll("." + t, ".", "") == ReplaceAll(t, ".", "");
      DigitsValueAppend(d, t);
      d + t
  }

  /** The value in hundredths that a valid amount text denotes. */
  function NumberCents(s: string): nat
    requires IsValidNumber(s)
  {
    var t := Strip(s);
    var d := GroupDigits(t[..|t| - 3]);
    DigitsValueAppend(d, t[|t| - 2..]);
    DigitsValue(d + t[|t| - 2..])
  }

  /** `reformat_number`: an empty or blank text is "0"; otherwise the European numeral is read as a
      float and printed in the canonical form, and a text float() rejects is returned unchanged. */
  function ReformatNumber(s: string): (r: string)
    ensures Strip(s) == "" ==> r == "0"
    ensures Strip(s) != "" && ParseFloat(EuToPy(s)).None? ==> r == s
  {
    if Strip(s) == "" then "0"
    else match ParseFloat(EuToPy(s))
      case None => s
      case Some(f) => FormatFloat(f)
  }

  /** Dropping the dots and turning the comma into a point leaves the digits around a point. */
  lemma EuToPyValid(b: string, cc: string)
    requires GroupedDigits(b) && |cc| == 2 && AllDigits(cc)
    ensures EuToPy(b + [','] + cc) == GroupDigits(b) + "." + cc
  {
    var d := GroupDigits(b);
    var s := b + [','] + cc;
    assert NoChar(cc, '.') && NoChar(cc, ',') && NoChar(d, ',');
    assert ReplaceAll(s, ".", "") == d + [','] + cc by {
      ReplaceCharConcat(b + [','], cc, '.', "");
      ReplaceCharConcat(b, [','], '.', "");
      ReplaceCharAbsent(cc, '.', "");
      assert ReplaceAll([','], ".", "") == [','];
    }
    ReplaceCharConcat(d + [','], cc, ',', ".");
    ReplaceCharConcat(d, [','], ',', ".");
    ReplaceCharAbsent(d, ',', ".");
    ReplaceCharAbsent(cc, ',', ".");
    assert ReplaceAll([','], ",", ".") == ".";
  }

  /** Every valid amount is reformatted to the canonical text of the value it denotes. */
  lemma ReformatValid(s: string)
    requires IsValidNumber(s) && IsStripped(s)
    ensures ReformatNumber(s) == FormatCents(false, NumberCents(s))
  {
    StripKeepsStripped(s);
    var n := |s|;
    var b, cc := s[..n - 3], s[n - 2..];
    var d := GroupDigits(b);
    assert s == b + [','] + cc;
    EuToPyValid(b, cc);
    PlainDecimal(d, cc);
    FormatFloatOfCents(false, DigitsValue(d + cc));
  }

  /** The grouping Python's `,` format option produces is a valid integer part. */
  lemma {:induction false} GroupIsGrouped(d: string)
    requires |d| >= 1 && AllDigits(d)
    ensures GroupedDigits(Group(d))
    decreases |d|
  {
    if |d| > 3 {
      var h, t := d[..|d| - 3], d[|d| - 3..];
      assert AllDigits(h) && AllDigits(t);
      GroupIsGrouped(h);
      var g := Group(d);
      assert g == Group(h) + "." + t;
      assert g[..|g| - 4] == Group(h) && g[|g| - 3..] == t;
    }
  }

  /** The canonical text: grouped digits, the decimal comma, two digits, nothing around them. */
  lemma CanonicalShape(c: nat)
    ensures var s := FormatCents(false, c);
      |s| >= 4 && Strip(s) == s && s[|s| - 3] == ',' && s[..|s| - 3] == Group(Digits(c / 100))
      && s[|s| - 2..] == CentsDigits(c)
  {
    var g, cc := Group(Digits(c / 100)), CentsDigits(c);
    var s := FormatCents(false, c);
    assert s == g + "," + cc;
    GroupHead(Digits(c / 100));
    assert IsStripped(s) by {
      assert IsDigit(s[0]) && IsDigit(s[|s| - 1]);
    }
    StripKeepsStripped(s);
  }

  /** The canonical text is itself a valid amount, and it denotes the value it was printed from:
      reformatting it changes nothing. */
  lemma CanonicalIsValid(c: nat)
    ensures IsValidNumber(FormatCents(false, c))
    ensures NumberCents(FormatCents(false, c)) == c
    ensures ReformatNumber(FormatCents(false, c)) == FormatCents(false, c)
  {
    var s := FormatCents(false, c);
    CanonicalShape(c);
    GroupIsGrouped(Digits(c / 100));
    assert IsValidNumber(s);
    Ungroup(Digits(c / 100));
    assert GroupDigits(s[..|s| - 3]) == Digits(c / 100);
    CentsSplit(c);
    assert NumberCents(s) == c;
    ReformatValid(s);
  }

  // ---------------------------------------------------------------------------------------------
  // Rows

  /** `[cell.strip() if cell else "" for cell in row]`. */
  function Cleaned(row: seq<Option<string>>): (c: seq<string>)
    ensures |c| == |row|
  {
    seq(|row|, i requires 0 <= i < |row| => Strip(CellText(row[i])))
  }

  predicate AllEmpty(c: seq<string>) {
    forall i :: 0 <= i < |c| ==> c[i] == ""
  }

  /** The descriptions that mark the opening and closing balances. */
  predicate IsBalance(d: string) {
    Upper(Strip(d)) in {"SALDO FINALE", "SALDO INIZIALE"}
  }

  /** The records kept so far and the one still open. */
  datatype Acc = Acc(done: seq<Transaction>, current: Option<Transaction>)

  const Init: Result<Acc> := Ok(Acc([], None))

  /** Closing the open record keeps it unless it is a balance line. */
  function Close(a: Acc): (done: seq<Transaction>)
    ensures a.current.None? ==> done == a.done
  {
    if a.current.Some? && !IsBalance(a.current.value.descrizione) then a.done + [a.current.value]
    else a.done
  }

  /** The record a date row opens. */
  function Open(c: seq<string>): Transaction
    requires |c| >= 6
  {
    Transaction(ConvertDate(c[0]), c[5],
                if c[2] != "" then ReformatNumber(c[2]) else "0",
                if c[4] != "" then ReformatNumber(c[4]) else "0")
  }

  /** One iteration of the loop of `process_extracted_rows`. A date row too short for the cells
      the loop reads raises IndexError. */
  function Step(acc: Result<Acc>, row: seq<Option<string>>): Result<Acc> {
    if acc.Raise? then acc
    else
      var a := acc.value;
      var c := Cleaned(row);
      if AllEmpty(c) then acc
      else if c[0] != "" then
        var done := Close(a);
        if !IsDate(c[0]) then Ok(Acc(done, None))
        else if |c| < 5 then Raise(IndexError)
        else if (c[2] != "" && !IsValidNumber(c[2])) || (c[4] != "" && !IsValidNumber(c[4])) then
          Ok(Acc(done, None))
        else if |c| < 6 then Raise(IndexError)
        else if IsBalance(c[5]) then Ok(Acc(done, None))
        else Ok(Acc(done, Some(Open(c))))
      else if |c| > 5 && AllEmpty(c[..5]) && c[5] != "" && a.current.Some? then
        var t := a.current.value;
        Ok(Acc(a.done, Some(t.(descrizione := t.descrizione + " " + c[5]))))
      else acc
  }

  /** `process_extracted_rows`: the records, or the exception the loop raises. */
  function Extract(rows: seq<seq<Option<string>>>): Result<seq<Transaction>> {
    match Fold(Step, Init, rows)
    case Raise(e) => Raise(e)
    case Ok(a) => Ok(Close(a))
  }

  method ProcessExtractedRows(rows: seq<seq<Option<string>>>) returns (r: Result<seq<Transaction>>)
    ensures r == Extract(rows)
  {
    var transactions: seq<Transaction> := [];
    var current: Option<Transaction> := None;
    var i := 0;
    while i < |rows|
      invariant 0 <= i <= |rows|
      invariant Fold(Step, Init, rows[..i]) == Ok(Acc(transactions, current))
    {
      FoldTake(Step, Init, rows, i);
      var row := rows[i];
      var cleaned := Cleaned(row);
      i := i + 1;
      if AllEmpty(cleaned) {
        continue;
      }
      if cleaned[0] != "" {
        if current.Some? {
          if !IsBalance(current.value.descrizione) {
            transactions := transactions + [current.value];
          }
          current := None;
        }
        if !IsDate(cleaned[0]) {
          continue;
        }
        if |cleaned| < 5 {
          r := Raise(IndexError);
          Stuck(rows, i);
          return;
        }
        var rawUscite, rawEntrate := cleaned[2], cleaned[4];
        if rawUscite != "" && !IsValidNumber(rawUscite) {
          continue;
        }
        if rawEntrate != "" && !IsValidNumber(rawEntrate) {
          continue;
        }
        if |cleaned| < 6 {
          r := Raise(IndexError);
          Stuck(rows, i);
          return;
        }
        if IsBalance(cleaned[5]) {
          continue;
        }
        var date := ConvertDate(cleaned[0]);
        var uscite := if rawUscite != "" then ReformatNumber(rawUscite) else "0";
        var entrate := if rawEntrate != "" then ReformatNumber(rawEntrate) else "0";
        current := Some(Transaction(date, cleaned[5], uscite, entrate));
      } else {
        if |cleaned| > 5 && AllEmpty(cleaned[..5]) && cleaned[5] != "" {
          if current.Some? {
            current := Some(current.value.(descrizione := current.value.descrizione + " " + cleaned[5]));
          }
        }
      }
    }
    assert rows[..i] == rows;
    if current.Some? && !IsBalance(current.value.descrizione) {
      transactions := transactions + [current.value];
    }
    r := Ok(transactions);
  }

  /** Once the loop has raised, the remaining rows change nothing. */
  lemma Stuck(rows: seq<seq<Option<string>>>, i: nat)
    requires i <= |rows| && Fold(Step, Init, rows[..i]) == Raise(IndexError)
    ensures Extract(rows) == Raise(IndexError)
  {
    FoldAppend(Step, Init, rows[..i], rows[i..]);
    assert rows[..i] + rows[i..] == rows;
    FoldFixpoint(Step, Raise(IndexError), rows[i..]);
  }

  /** `process_pdf` after table extraction: the records with descriptions made single-line,
      written under the four-column header. */
  method ProcessPdf(rows: seq<seq<Option<string>>>) returns (r: Result<seq<seq<string>>>)
    ensures Extract(rows).Raise? ==> r == Raise(Extract(rows).error)
    ensures Extract(rows).Ok? ==> r == Ok(Table(Flattened(Extract(rows).value)))
  {
    var ts := ProcessExtractedRows(rows);
    if ts.Raise? {
      return Raise(ts.error);
    }
    var flat := FlattenDescriptions(ts.value);
    r := Ok(Table(flat));
  }

  // ---------------------------------------------------------------------------------------------
  // Properties

  /** What every emitted record satisfies: a dd/mm/yyyy date, amounts that are "0" or a valid
      canonical amount, and no balance description. */
  predicate WellFormed(t: Transaction) {
    |t.data| == 10 && DateAt(t.data, 0, '/', true)
    && (t.uscite == "0" || IsValidNumber(t.uscite))
    && (t.entrate == "0" || IsValidNumber(t.entrate))
  }

  predicate Good(acc: Result<Acc>) {
    acc.Ok? ==>
      (forall k :: 0 <= k < |acc.value.done| ==> WellFormed(acc.value.done[k]) && !IsBalance(acc.value.done[k].descrizione))
      && (acc.value.current.Some? ==> WellFormed(acc.value.current.value))
  }

  /** A valid amount cell is reformatted into a valid amount. */
  lemma ReformatKeepsValid(s: string)
    requires s != "" && IsValidNumber(s) && IsStripped(s)
    ensures IsValidNumber(ReformatNumber(s))
  {
    ReformatValid(s);
    CanonicalIsValid(NumberCents(s));
  }

  lemma OpenWellFormed(c: seq<string>)
    requires |c| >= 6 && c[0] != "" && IsDate(c[0]) && IsStripped(c[0])
    requires c[2] == "" || (IsValidNumber(c[2]) && IsStripped(c[2]))
    requires c[4] == "" || (IsValidNumber(c[4]) && IsStripped(c[4]))
    ensures WellFormed(Open(c))
  {
    StripKeepsStripped(c[0]);
    ConvertShortDate(c[0]);
    if c[2] != "" { ReformatKeepsValid(c[2]); }
    if c[4] != "" { ReformatKeepsValid(c[4]); }
  }

  lemma StepGood(acc: Result<Acc>, row: seq<Option<string>>)
    requires Good(acc)
    ensures Good(Step(acc, row))
  {
    if acc.Ok? {
      var c := Cleaned(row);
      if !AllEmpty(c) {
        if c[0] != "" {
          OpenRowGood(acc.value, row);
        } else {
          ContinuationGood(acc.value, row);
        }
      }
    }
  }

  /** Closing the open record of a good state leaves only good records. */
  lemma CloseGood(a: Acc)
    requires Good(Ok(a))
    ensures forall k :: 0 <= k < |Close(a)| ==> WellFormed(Close(a)[k]) && !IsBalance(Close(a)[k].descrizione)
  {
  }

  lemma OpenRowGood(a: Acc, row: seq<Option<string>>)
    requires Good(Ok(a)) && !AllEmpty(Cleaned(row)) && Cleaned(row)[0] != ""
    ensures Good(Step(Ok(a), row))
  {
    var c := Cleaned(row);
    CloseGood(a);
    var next := Step(Ok(a), row);
    if next.Ok? && next.value.current.Some? {
      assert |c| >= 6 && IsDate(c[0]) && (c[2] == "" || IsValidNumber(c[2])) && (c[4] == "" || IsValidNumber(c[4]));
      assert next.value.current.value == Open(c);
      assert IsStripped(c[0]) && IsStripped(c[2]) && IsStripped(c[4]);
      OpenWellFormed(c);
    }
  }

  lemma ContinuationGood(a: Acc, row: seq<Option<string>>)
    requires Good(Ok(a)) && !AllEmpty(Cleaned(row)) && Cleaned(row)[0] == ""
    ensures Good(Step(Ok(a), row))
  {
  }

  /** Every record the converter emits has a dd/mm/yyyy date, amounts that are "0" or valid
      canonical amounts, and a description that is not an opening or closing balance. */
  lemma ExtractWellFormed(rows: seq<seq<Option<string>>>)
    ensures Extract(rows).Ok? ==>
      forall k :: 0 <= k < |Extract(rows).value| ==>
        WellFormed(Extract(rows).value[k]) && !IsBalance(Extract(rows).value[k].descrizione)
  {
    forall acc, row | Good(acc) ensures Good(Step(acc, row)) {
      StepGood(acc, row);
    }
    FoldInvariant(Step, Good, Init, rows);
  }

  /** A row whose cells are all empty or missing changes nothing. */
  lemma BlankRowIgnored(acc: Result<Acc>, row: seq<Option<string>>)
    requires forall i :: 0 <= i < |row| ==> row[i].None? || Strip(row[i].value) == ""
    ensures Step(acc, row) == acc
  {
  }

  /** A row with a first cell always closes the open record, whatever else it holds: the record
      is emitted unless its description is an opening or closing balance. */
  lemma FirstCellCloses(a: Acc, row: seq<Option<string>>)
    requires |row| >= 1 && Cleaned(row)[0] != ""
    ensures Step(Ok(a), row).Ok? ==>
      Step(Ok(a), row).value.done == a.done + (if a.current.Some? && !IsBalance(a.current.value.descrizione)
                                               then [a.current.value] else [])
  {
  }

  /** A row whose first cell is not a date drops the open record's continuation: after it, rows
      that only carry description text are ignored until the next date row. */
  lemma RejectedRowDetaches(a: Acc, row: seq<Option<string>>, cont: seq<Option<string>>)
    requires |row| >= 1 && Cleaned(row)[0] != "" && !IsDate(Cleaned(row)[0])
    requires |cont| >= 1 && Cleaned(cont)[0] == ""
    ensures Step(Ok(a), row) == Ok(Acc(Close(a), None))
    ensures Step(Step(Ok(a), row), cont) == Ok(Acc(Close(a), None))
  {
  }

  /** A row whose first five cells are empty and whose sixth is not appends that text to the open
      record's description, separated by a space. */
  lemma ContinuationAppends(done: seq<Transaction>, t: Transaction, row: seq<Option<string>>)
    requires |row| > 5 && AllEmpty(Cleaned(row)[..5]) && Cleaned(row)[5] != ""
    ensures Step(Ok(Acc(done, Some(t))), row)
         == Ok(Acc(done, Some(t.(descrizione := t.descrizione + " " + Cleaned(row)[5]))))
  {
    var c := Cleaned(row);
    assert c[0] == c[..5][0];
    assert !AllEmpty(c) by { assert c[5] != ""; }
  }

  /** A date row opens a record with the date in dd/mm/20yy form, the sixth cell as description
      and each amount in canonical form (or "0" when its cell is empty). */
  lemma DateRowOpens(a: Acc, row: seq<Option<string>>)
    requires |row| >= 6
    requires var c := Cleaned(row);
      IsDate(c[0]) && !IsBalance(c[5]) && (c[2] == "" || IsValidNumber(c[2]))
      && (c[4] == "" || IsValidNumber(c[4]))
    ensures var c := Cleaned(row);
      var t := Step(Ok(a), row).value.current.value;
      Step(Ok(a), row).Ok? && Step(Ok(a), row).value.current.Some?
      && t.data == c[0][..2] + "/" + c[0][3..5] + "/20" + c[0][6..]
      && t.descrizione == c[5]
      && t.uscite == (if c[2] == "" then "0" else FormatCents(false, NumberCents(c[2])))
      && t.entrate == (if c[4] == "" then "0" else FormatCents(false, NumberCents(c[4])))
  {
    var c := Cleaned(row);
    assert IsStripped(c[0]) && IsStripped(c[2]) && IsStripped(c[4]);
    StripKeepsStripped(c[0]);
    assert c[0] != "";
    assert !AllEmpty(c);
    ConvertShortDate(c[0]);
    if c[2] != "" { ReformatValid(c[2]); }
    if c[4] != "" { ReformatValid(c[4]); }
  }

  /** The record a row opens, if it opens one: a date row whose amount cells are empty or valid
      and whose description is not a balance label. */
  function Opened(row: seq<Option<string>>): (t: Option<Transaction>)
    ensures t.Some? ==> |row| >= 6 && t.value.descrizione == Cleaned(row)[5] && !IsBalance(t.value.descrizione)
  {
    var c := Cleaned(row);
    if |c| >= 6 && c[0] != "" && IsDate(c[0]) && (c[2] == "" || IsValidNumber(c[2]))
       && (c[4] == "" || IsValidNumber(c[4])) && !IsBalance(c[5])
    then Some(Open(c)) else None
  }

  /** A row that is blank or has a first cell, i.e. not a continuation row. */
  predicate Headed(row: seq<Option<string>>) {
    var c := Cleaned(row);
    AllEmpty(c) || c[0] != ""
  }

  /** Across a headed row, the records closed so far grow by the record the row opens. */
  lemma HeadedStep(a: Acc, row: seq<Option<string>>)
    requires Headed(row) && Step(Ok(a), row).Ok?
    requires a.current.Some? ==> !IsBalance(a.current.value.descrizione)
    ensures var b := Step(Ok(a), row).value;
      (b.current.Some? ==> !IsBalance(b.current.value.descrizione))
      && Close(b) == Close(a) + (if Opened(row).Some? then [Opened(row).value] else [])
  {
    var c := Cleaned(row);
    if !AllEmpty(c) {
      assert c[0] != "";
    }
  }

  /** Without continuation rows, a run that raises nothing yields exactly one record per date row
      that opens one, in the order of the rows. */
  lemma OneRecordPerDateRow(rows: seq<seq<Option<string>>>)
    requires forall k :: 0 <= k < |rows| ==> Headed(rows[k])
    requires Extract(rows).Ok?
    ensures Extract(rows).value == FilterMap(Opened, rows)
  {
    assert rows[..|rows|] == rows;
    HeadedPrefix(rows, |rows|);
  }

  lemma {:induction false} HeadedPrefix(rows: seq<seq<Option<string>>>, i: nat)
    requires i <= |rows|
    requires forall k :: 0 <= k < |rows| ==> Headed(rows[k])
    requires Fold(Step, Init, rows[..i]).Ok?
    ensures var a := Fold(Step, Init, rows[..i]).value;
      (a.current.Some? ==> !IsBalance(a.current.value.descrizione))
      && Close(a) == FilterMap(Opened, rows[..i])
  {
    if i == 0 {
      assert rows[..0] == [];
    } else {
      FoldTake(Step, Init, rows, i - 1);
      FilterMapTake(Opened, rows, i - 1);
      var prev := Fold(Step, Init, rows[..i - 1]);
      assert prev.Ok?;
      HeadedPrefix(rows, i - 1);
      HeadedStep(prev.value, rows[i - 1]);
    }
  }

  /** A date row with amount cells that are not valid amounts opens no record: the open record is
      closed, and the continuation rows that follow are ignored until the next date row. */
  lemma InvalidAmountDetaches(a: Acc, row: seq<Option<string>>, cont: seq<Option<string>>)
    requires |row| >= 5 && IsDate(Cleaned(row)[0])
    requires var c := Cleaned(row);
      (c[2] != "" && !IsValidNumber(c[2])) || (c[4] != "" && !IsValidNumber(c[4]))
    requires |cont| >= 1 && Cleaned(cont)[0] == ""
    ensures Step(Ok(a), row) == Ok(Acc(Close(a), None))
    ensures Step(Step(Ok(a), row), cont) == Ok(Acc(Close(a), None))
  {
    var c := Cleaned(row);
    assert Strip(c[0]) != "";
    assert c[0] != "";
  }

  /** A date row too short for the cells the loop reads makes the converter raise IndexError:
      with fewer than five cells at the amounts, with exactly five (and amounts that pass) at the
      description. */
  lemma ShortDateRowRaises(a: Acc, row: seq<Option<string>>)
    requires |row| >= 1 && IsDate(Cleaned(row)[0])
    requires |row| < 5 || (|row| == 5 && var c := Cleaned(row);
      (c[2] == "" || IsValidNumber(c[2])) && (c[4] == "" || IsValidNumber(c[4])))
    ensures Step(Ok(a), row) == Raise(IndexError)
  {
    var c := Cleaned(row);
    assert Strip(c[0]) != "";
    assert c[0] != "";
  }
}
