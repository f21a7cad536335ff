/** The Intesa Sanpaolo statement profile: amounts come from OCR words placed in two column bands,
    dates and descriptions from the statement's table, and the two lists are paired by position. */
module EcIntesa {
  import opened Wrappers
  import opened Scan
  import opened PyText
  import opened Csv
  import opened Amounts

  /** The amount column a word sits in: debits ("Addebiti") or credits ("Accrediti"). */
  datatype Column = Uscite | Entrate

  /** One word of the OCR output: its text and the left edge and width of its box, in pixels. */
  datatype OcrWord = OcrWord(text: string, left: int, width: int)

  /** The OCR output of one page together with the width of the page image. */
  datatype Page = Page(imageWidth: int, words: seq<OcrWord>)

  /** A word kept as an amount candidate: its position in the page's word list, its stripped
      text and its column. */
  datatype Token = Token(order: nat, text: string, column: Column)

  /** The amounts of one transaction, as the OCR pass emits them. */
  datatype AmountPair = AmountPair(uscite: string, entrate: string)

  /** A row of the statement table: the date cell and the cleaned description cell. */
  datatype TableRow = TableRow(data: string, descrizione: Option<string>)

  /** The horizontal bands, in pixels at 300 dpi: debits from 1650 to 1790, credits from 2050 to
      the right edge of the page. */
  const DebitMin := 1650
  const DebitMax := 1790
  const CreditMin := 2050

  /** Twice the centre of the word's box. Python compares `left + width / 2` with the band limits;
      doubling both sides keeps the comparison exact on integers. */
  function Centre2(w: OcrWord): int {
    2 * w.left + w.width
  }

  predicate InDebitBand(w: OcrWord) {
    2 * DebitMin <= Centre2(w) <= 2 * DebitMax
  }

  predicate InCreditBand(w: OcrWord, imageWidth: int) {
    2 * CreditMin <= Centre2(w) <= 2 * imageWidth
  }

  /** `any(char.isdigit() for char in s)`. */
  predicate HasDigit(s: string) {
    exists i :: 0 <= i < |s| && IsDigit(s[i])
  }

  /** What the token filter makes of word number `i`: blank words, words without a digit and
      words outside both bands are dropped; the debit band is tried first. */
  function Classify(i: nat, w: OcrWord, imageWidth: int): Option<Token> {
    var t := Strip(w.text);
    if t == "" || !HasDigit(t) then None
    else if InDebitBand(w) then Some(Token(i, t, Uscite))
    else if InCreditBand(w, imageWidth) then Some(Token(i, t, Entrate))
    else None
  }

  /** The tokens the filter keeps from the first `n` words, in word order. */
  function Classified(words: seq<OcrWord>, imageWidth: int, n: nat): seq<Token>
    requires n <= |words|
  {
    if n == 0 then []
    else
      var c := Classify(n - 1, words[n - 1], imageWidth);
      Classified(words, imageWidth, n - 1) + (if c.Some? then [c.value] else [])
  }

  /** The token filter loop over one page's words. */
  method ClassifyTokens(page: Page) returns (tokens: seq<Token>)
    ensures tokens == Classified(page.words, page.imageWidth, |page.words|)
  {
    tokens := [];
    var i := 0;
    while i < |page.words|
      invariant 0 <= i <= |page.words|
      invariant tokens == Classified(page.words, page.imageWidth, i)
    {
      var w := page.words[i];
      ghost var c := Classify(i, w, page.imageWidth);
      assert Classified(page.words, page.imageWidth, i + 1) == tokens + (if c.Some? then [c.value] else []);
      var text := Strip(w.text);
      if text != "" && HasDigit(text) {
        if InDebitBand(w) {
          tokens := tokens + [Token(i, text, Uscite)];
        } else if InCreditBand(w, page.imageWidth) {
          tokens := tokens + [Token(i, text, Entrate)];
        }
      }
      i := i + 1;
    }
  }

  /** A kept token is a non-blank stripped word holding a digit, whose centre lies in the band of
      its column. */
  predicate KeptAs(t: Token, w: OcrWord, imageWidth: int) {
    t.text == Strip(w.text) && t.text != [] && HasDigit(t.text)
    && (t.column == Uscite ==> InDebitBand(w))
    && (t.column == Entrate ==> InCreditBand(w, imageWidth) && !InDebitBand(w))
  }

  /** Each token comes from one of the first `n` words and was kept by the filter's rules. */
  predicate AllKept(ts: seq<Token>, words: seq<OcrWord>, imageWidth: int, n: nat)
    requires n <= |words|
  {
    forall k :: 0 <= k < |ts| ==> ts[k].order < n && KeptAs(ts[k], words[ts[k].order], imageWidth)
  }

  /** Strictly increasing word order. */
  predicate InWordOrder(ts: seq<Token>) {
    forall j, k :: 0 <= j < k < |ts| ==> ts[j].order < ts[k].order
  }

  lemma {:induction false} ClassifiedSound(words: seq<OcrWord>, imageWidth: int, n: nat)
    requires n <= |words|
    ensures AllKept(Classified(words, imageWidth, n), words, imageWidth, n)
  {
    if n > 0 {
      ClassifiedSound(words, imageWidth, n - 1);
      var ts, prev := Classified(words, imageWidth, n), Classified(words, imageWidth, n - 1);
      forall k | 0 <= k < |ts| ensures ts[k].order < n && KeptAs(ts[k], words[ts[k].order], imageWidth) {
        if k < |prev| {
          assert ts[k] == prev[k];
        } else {
          assert ts[k] == Classify(n - 1, words[n - 1], imageWidth).value;
        }
      }
    }
  }

  /** Every word with a digit whose centre falls in a band gives a token. */
  lemma {:induction false} ClassifiedComplete(words: seq<OcrWord>, imageWidth: int, n: nat, i: nat)
    requires i < n <= |words|
    requires HasDigit(Strip(words[i].text))
    requires InDebitBand(words[i]) || InCreditBand(words[i], imageWidth)
    ensures exists k :: 0 <= k < |Classified(words, imageWidth, n)|
                     && Classified(words, imageWidth, n)[k].order == i
  {
    var ts := Classified(words, imageWidth, n);
    if i == n - 1 {
      assert ts[|ts| - 1].order == i;
    } else {
      ClassifiedComplete(words, imageWidth, n - 1, i);
      var k :| 0 <= k < |Classified(words, imageWidth, n - 1)| && Classified(words, imageWidth, n - 1)[k].order == i;
      assert ts[k] == Classified(words, imageWidth, n - 1)[k];
    }
  }

  /** The tokens come out in strictly increasing word order, so sorting them by order changes
      nothing. */
  lemma {:induction false} ClassifiedOrdered(words: seq<OcrWord>, imageWidth: int, n: nat)
    requires n <= |words|
    ensures InWordOrder(Classified(words, imageWidth, n))
  {
    if n > 0 {
      ClassifiedOrdered(words, imageWidth, n - 1);
      ClassifiedSound(words, imageWidth, n - 1);
      var ts, prev := Classified(words, imageWidth, n), Classified(words, imageWidth, n - 1);
      forall j, k | 0 <= j < k < |ts| ensures ts[j].order < ts[k].order {
        assert ts[j] == prev[j];
        if k < |prev| {
          assert ts[k] == prev[k];
        } else {
          assert ts[k] == Classify(n - 1, words[n - 1], imageWidth).value;
        }
      }
    }
  }

  /** The regex `\d+(?:\.\d+)*`, matched in full: runs of digits separated by single dots. */
  predicate DigitGroups(b: string)
    decreases |b|
  {
    var k := LeadingDigits(b);
    k >= 1 && (k == |b| || (b[k] == '.' && DigitGroups(b[k + 1..])))
  }

  /** `\d+(?:\.\d+)*,\d{2}` over the whole text. */
  predicate AmountShape(s: string) {
    |s| >= 4 && s[|s| - 3] == ',' && IsDigit(s[|s| - 2]) && IsDigit(s[|s| - 1])
    && DigitGroups(s[..|s| - 3])
  }

  /** `re.match(r'^\d+(?:\.\d+)*,\d{2}$', s)`: `$` also matches before a final newline. */
  predicate IsAmountText(s: string) {
    AmountShape(s) || (|s| >= 1 && s[|s| - 1] == '\n' && AmountShape(s[..|s| - 1]))
  }

  /** The pair emitted for a valid amount: the amount in its column, "0" in the other. */
  function PairOf(c: Column, text: string): AmountPair {
    if c == Uscite then AmountPair(text, "0") else AmountPair("0", text)
  }

  /** Whether the token after the first one is glued to it: same column, starting with ','. */
  predicate Glued(ts: seq<Token>)
    requires |ts| >= 1
  {
    |ts| >= 2 && ts[1].column == ts[0].column && StartsWith(ts[1].text, ",")
  }

  /** The comma-merge over a page's tokens: a token takes the next one along when they are glued,
      and the (merged) text yields a pair only when it is a valid amount. */
  function Merged(ts: seq<Token>): (ps: seq<AmountPair>)
    ensures |ps| <= |ts|
    decreases |ts|
  {
    if ts == [] then []
    else
      var text := if Glued(ts) then ts[0].text + ts[1].text else ts[0].text;
      var rest := if Glued(ts) then ts[2..] else ts[1..];
      (if IsAmountText(text) then [PairOf(ts[0].column, text)] else []) + Merged(rest)
  }

  /** One step of the comma-merge: the first (merged) text, then the rest. */
  lemma MergedCons(ts: seq<Token>, text: string, rest: seq<Token>)
    requires |ts| >= 1
    requires text == (if Glued(ts) then ts[0].text + ts[1].text else ts[0].text)
    requires rest == (if Glued(ts) then ts[2..] else ts[1..])
    ensures Merged(ts) == (if IsAmountText(text) then [PairOf(ts[0].column, text)] else []) + Merged(rest)
  {
  }

  /** The merge loop, advancing by two over a glued pair and by one otherwise. */
  method MergeTokens(tokens: seq<Token>) returns (pairs: seq<AmountPair>)
    ensures pairs == Merged(tokens)
  {
    pairs := [];
    var i := 0;
    while i < |tokens|
      invariant 0 <= i <= |tokens|
      invariant pairs + Merged(tokens[i..]) == Merged(tokens)
      decreases |tokens| - i
    {
      ghost var ts := tokens[i..];
      assert ts[0] == tokens[i];
      var token := tokens[i];
      var merged := token.text;
      if i + 1 < |tokens| && tokens[i + 1].column == token.column && StartsWith(tokens[i + 1].text, ",") {
        assert Glued(ts) && ts[1] == tokens[i + 1] && ts[2..] == tokens[i + 2..];
        merged := merged + tokens[i + 1].text;
        i := i + 2;
      } else {
        assert !Glued(ts) && ts[1..] == tokens[i + 1..];
        i := i + 1;
      }
      MergedCons(ts, merged, tokens[i..]);
      ghost var emitted: seq<AmountPair> := if IsAmountText(merged) then [PairOf(token.column, merged)] else [];
      ghost var before := pairs;
      if IsAmountText(merged) {
        pairs := pairs + [PairOf(token.column, merged)];
      }
      assert pairs == before + emitted;
      AppendAssoc(before, emitted, Merged(tokens[i..]));
    }
  }

  /** An emitted pair: exactly one field is "0", the other a valid amount. */
  predicate OnePair(p: AmountPair) {
    (p.entrate == "0" && p.uscite != "0" && IsAmountText(p.uscite))
    || (p.uscite == "0" && p.entrate != "0" && IsAmountText(p.entrate))
  }

  lemma {:induction false} MergedPairs(ts: seq<Token>)
    ensures forall k :: 0 <= k < |Merged(ts)| ==> OnePair(Merged(ts)[k])
    decreases |ts|
  {
    if ts != [] {
      var rest := if Glued(ts) then ts[2..] else ts[1..];
      MergedPairs(rest);
    }
  }

  /** The pair a lone token yields. */
  function Single(t: Token): Option<AmountPair> {
    if IsAmountText(t.text) then Some(PairOf(t.column, t.text)) else None
  }

  /** With no token starting with ',' nothing is merged: each token stands for itself. */
  lemma {:induction false} MergedSingles(ts: seq<Token>)
    requires forall k :: 0 <= k < |ts| ==> !StartsWith(ts[k].text, ",")
    ensures Merged(ts) == FilterMap(Single, ts)
    decreases |ts|
  {
    if ts != [] {
      assert !Glued(ts) by {
        if |ts| >= 2 {
          assert !StartsWith(ts[1].text, ",");
        }
      }
      MergedSingles(ts[1..]);
    }
  }

  /** A debit split by the OCR before its cents is put back together. */
  lemma MergeSplitAmount()
    ensures Merged([Token(0, "1.234", Uscite), Token(1, ",56", Uscite)]) == [AmountPair("1.234,56", "0")]
  {
    var ts := [Token(0, "1.234", Uscite), Token(1, ",56", Uscite)];
    assert Glued(ts) by {
      assert StartsWith(ts[1].text, ",");
    }
    assert ts[0].text + ts[1].text == "1.234,56";
    SplitAmountShape();
    assert ts[2..] == [];
    MergedCons(ts, "1.234,56", []);
  }

  /** "1.234,56" is an amount. */
  lemma SplitAmountShape()
    ensures IsAmountText("1.234,56")
  {
    var t := "1.234,56";
    assert t[..|t| - 3] == "1.234";
    assert LeadingDigits("1.234") == 1 by {
      LeadingDigitsOf("1", ".234");
      assert "1" + ".234" == "1.234";
    }
    assert "1.234"[2..] == "234";
    assert LeadingDigits("234") == 3 by {
      LeadingDigitsOf("234", "");
      assert "234" + "" == "234";
    }
  }

  /** The amount pairs of one page. */
  function PageAmounts(p: Page): seq<AmountPair> {
    Merged(Classified(p.words, p.imageWidth, |p.words|))
  }

  /** Filter, then merge, one page. */
  method ProcessPage(page: Page) returns (pairs: seq<AmountPair>)
    ensures pairs == PageAmounts(page)
  {
    var tokens := ClassifyTokens(page);
    pairs := MergeTokens(tokens);
  }

  /** The amount pairs of the first `n` pages, page after page. */
  function OcrAmounts(pages: seq<Page>, n: nat): seq<AmountPair>
    requires n <= |pages|
  {
    if n == 0 then [] else OcrAmounts(pages, n - 1) + PageAmounts(pages[n - 1])
  }

  lemma OcrAmountsNext(pages: seq<Page>, i: nat)
    requires i < |pages|
    ensures OcrAmounts(pages, i + 1) == OcrAmounts(pages, i) + PageAmounts(pages[i])
  {
  }

  /** The OCR pass after recognition: filter and merge each page, collecting the pairs. */
  method ExtractOcrAmounts(pages: seq<Page>) returns (amounts: seq<AmountPair>)
    ensures amounts == OcrAmounts(pages, |pages|)
  {
    amounts := [];
    var i := 0;
    while i < |pages|
      invariant 0 <= i <= |pages|
      invariant amounts == OcrAmounts(pages, i)
    {
      var pairs := ProcessPage(pages[i]);
      OcrAmountsNext(pages, i);
      amounts := amounts + pairs;
      i := i + 1;
    }
  }

  /** Every pair of the OCR pass has one "0" field and one valid amount. */
  lemma {:induction false} OcrAmountsPairs(pages: seq<Page>, n: nat)
    requires n <= |pages|
    ensures forall k :: 0 <= k < |OcrAmounts(pages, n)| ==> OnePair(OcrAmounts(pages, n)[k])
  {
    if n > 0 {
      OcrAmountsPairs(pages, n - 1);
      var p := pages[n - 1];
      MergedPairs(Classified(p.words, p.imageWidth, |p.words|));
    }
  }

  /** `re.match(r'^\d{2}\.\d{2}\.\d{4}$', s)`: the cell is not stripped, so only a final newline
      may follow the date. */
  predicate IsValidDate(s: string) {
    DateAt(s, 0, '.', true) && (|s| == 10 || (|s| == 11 && s[10] == '\n'))
  }

  /** The description cell, made single-line when it is a non-empty text. */
  function CleanDescription(c: Option<string>): Option<string> {
    if c.Some? && c.value != "" then Some(SingleLine(c.value)) else c
  }

  /** One iteration of the table-row loop. A row of three or more cells whose first cell is
      missing makes the date match raise TypeError. */
  function RowStep(acc: Result<seq<TableRow>>, row: seq<Option<string>>): Result<seq<TableRow>> {
    if acc.Raise? || |row| < 3 then acc
    else if row[0].None? then Raise(TypeError)
    else if IsValidDate(row[0].value) then Ok(acc.value + [TableRow(row[0].value, CleanDescription(row[2]))])
    else acc
  }

  function TableRows(rows: seq<seq<Option<string>>>): Result<seq<TableRow>> {
    Fold(RowStep, Ok([]), rows)
  }

  /** The row loop of the table pass. */
  method ExtractTableRows(rows: seq<seq<Option<string>>>) returns (r: Result<seq<TableRow>>)
    ensures r == TableRows(rows)
  {
    var extracted: seq<TableRow> := [];
    var i := 0;
    while i < |rows|
      invariant 0 <= i <= |rows|
      invariant Fold(RowStep, Ok([]), rows[..i]) == Ok(extracted)
    {
      FoldTake(RowStep, Ok([]), rows, i);
      var row := rows[i];
      i := i + 1;
      if |row| < 3 {
        continue;
      }
      if row[0].None? {
        r := Raise(TypeError);
        TableStuck(rows, i);
        return;
      }
      if IsValidDate(row[0].value) {
        extracted := extracted + [TableRow(row[0].value, CleanDescription(row[2]))];
      }
    }
    assert rows[..i] == rows;
    r := Ok(extracted);
  }

  lemma TableStuck(rows: seq<seq<Option<string>>>, i: nat)
    requires i <= |rows| && Fold(RowStep, Ok([]), rows[..i]) == Raise(TypeError)
    ensures TableRows(rows) == Raise(TypeError)
  {
    FoldAppend(RowStep, Ok([]), rows[..i], rows[i..]);
    assert rows[..i] + rows[i..] == rows;
    FoldFixpoint(RowStep, Raise(TypeError), rows[i..]);
  }

  /** A row the date match can read: fewer than three cells, or a first cell that is present. */
  predicate Readable(row: seq<Option<string>>) {
    |row| < 3 || row[0].Some?
  }

  /** The row a table row contributes, if any. */
  function Kept(row: seq<Option<string>>): Option<TableRow> {
    if |row| >= 3 && row[0].Some? && IsValidDate(row[0].value) then
      Some(TableRow(row[0].value, CleanDescription(row[2])))
    else None
  }

  lemma {:induction false} TableRowsFrom(acc: seq<TableRow>, rows: seq<seq<Option<string>>>)
    requires forall k :: 0 <= k < |rows| ==> Readable(rows[k])
    ensures Fold(RowStep, Ok(acc), rows) == Ok(acc + FilterMap(Kept, rows))
    decreases |rows|
  {
    if rows != [] {
      var row := rows[0];
      assert Readable(row);
      var h: seq<TableRow> := if Kept(row).Some? then [Kept(row).value] else [];
      assert RowStep(Ok(acc), row) == Ok(acc + h) by {
        if h == [] {
          assert acc + h == acc;
        }
      }
      TableRowsFrom(acc + h, rows[1..]);
      assert FilterMap(Kept, rows) == h + FilterMap(Kept, rows[1..]);
      assert acc + h + FilterMap(Kept, rows[1..]) == acc + (h + FilterMap(Kept, rows[1..]));
    } else {
      assert acc + [] == acc;
    }
  }

  /** Without a missing date cell the table pass keeps exactly the rows of three or more cells
      whose first cell is a date, in order. */
  lemma TableRowsOk(rows: seq<seq<Option<string>>>)
    requires forall k :: 0 <= k < |rows| ==> Readable(rows[k])
    ensures TableRows(rows) == Ok(FilterMap(Kept, rows))
  {
    TableRowsFrom([], rows);
    assert [] + FilterMap(Kept, rows) == FilterMap(Kept, rows);
  }

  /** A single unreadable row makes the whole table pass raise. */
  lemma TableRowsRaise(rows: seq<seq<Option<string>>>, k: nat)
    requires k < |rows| && !Readable(rows[k])
    ensures TableRows(rows) == Raise(TypeError)
  {
    var inv := (r: Result<seq<TableRow>>) => r.Ok? || r == Raise(TypeError);
    FoldInvariant(RowStep, inv, Ok([]), rows[..k]);
    FoldTake(RowStep, Ok([]), rows, k);
    TableStuck(rows, k + 1);
  }

  /** A kept row's date matches the pattern and its description is one stripped line. */
  lemma KeptRowsClean(rows: seq<seq<Option<string>>>)
    ensures forall t :: t in FilterMap(Kept, rows) ==>
      IsValidDate(t.data)
      && (t.descrizione.Some? ==> IsStripped(t.descrizione.value) && NoChar(t.descrizione.value, '\n')
                                  && !Contains(t.descrizione.value, "\\n"))
  {
    FilterMapSound(Kept, rows);
  }

  /** Record i pairs table row i with OCR pair i; the longer list's tail is dropped. */
  function Combined(ocr: seq<AmountPair>, table: seq<TableRow>): (ts: seq<Transaction>)
    ensures |ts| == if |ocr| < |table| then |ocr| else |table|
  {
    var n := if |ocr| < |table| then |ocr| else |table|;
    seq(n, i requires 0 <= i < n => Transaction(table[i].data, CellText(table[i].descrizione), ocr[i].uscite, ocr[i].entrate))
  }

  /** The combining loop of `process_pdf`. */
  method Combine(ocr: seq<AmountPair>, table: seq<TableRow>) returns (rows: seq<Transaction>)
    ensures |rows| == if |ocr| < |table| then |ocr| else |table|
    ensures forall i :: 0 <= i < |rows| ==>
      rows[i].data == table[i].data && rows[i].descrizione == CellText(table[i].descrizione)
      && rows[i].uscite == ocr[i].uscite && rows[i].entrate == ocr[i].entrate
    ensures rows == Combined(ocr, table)
  {
    var n := if |ocr| < |table| then |ocr| else |table|;
    rows := [];
    for i := 0 to n
      invariant rows == Combined(ocr, table)[..i]
    {
      rows := rows + [Transaction(table[i].data, CellText(table[i].descrizione), ocr[i].uscite, ocr[i].entrate)];
    }
  }

  /** `process_pdf` after recognition and table extraction: the four-column header, then one row
      per paired record. A missing date cell in a table row makes it raise. */
  method ProcessPdf(pages: seq<Page>, rows: seq<seq<Option<string>>>) returns (r: Result<seq<seq<string>>>)
    ensures TableRows(rows).Raise? ==> r == Raise(TypeError)
    ensures TableRows(rows).Ok? ==> r == Ok(Table(Combined(OcrAmounts(pages, |pages|), TableRows(rows).value)))
  {
    var ocr := ExtractOcrAmounts(pages);
    var table := ExtractTableRows(rows);
    if table.Raise? {
      var inv := (x: Result<seq<TableRow>>) => x.Ok? || x == Raise(TypeError);
      FoldInvariant(RowStep, inv, Ok([]), rows);
      return Raise(TypeError);
    }
    var combined := Combine(ocr, table.value);
    r := Ok(Table(combined));
  }
}
