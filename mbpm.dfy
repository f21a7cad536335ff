/** BPM card-account statements read from the PDF text layer (script/mBPM.py). */
module MBpm {
  import opened Wrappers
  import opened PyText
  import opened Scan
  import opened Csv
  import opened Amounts

  /** What the boundary pattern captures: the booking date, the amount as written (with its minus
      sign, if any) and the stripped description. */
  datatype Boundary = Boundary(date: string, amount: string, descr: string)

  /** A record being assembled by the first loop: the amount is still text. */
  datatype Pending = Pending(data: string, descrizione: string, amount: string)

  /** `[-]?[0-9\.,]+`: an optional minus sign, then at least one numeral character. */
  predicate SignedAmount(a: string) {
    var k := if |a| > 0 && a[0] == '-' then 1 else 0;
    |a| > k && forall j :: k <= j < |a| ==> IsAmountChar(a[j])
  }

  predicate NotSpace(c: char) {
    !IsSpace(c)
  }

  /** `\s+EUR\s+\S+\s+(.+)$` from index `p`, giving the stripped group. Each whitespace and
      non-whitespace run is taken whole: giving back a character never lets the next piece match;
      only the last run may give one character to `.+` when nothing follows it. */
  function AfterAmount(s: Line, p: nat): (r: Option<string>)
    requires p <= |s|
    ensures r.Some? ==> IsStripped(r.value)
  {
    var p1 := p + Run(s, p, IsSpace);
    if p1 == p || !OccursAt(s, "EUR", p1) then None
    else
      var p2 := p1 + 3 + Run(s, p1 + 3, IsSpace);
      if p2 == p1 + 3 then None
      else
        var p3 := p2 + Run(s, p2, NotSpace);
        if p3 == p2 then None
        else
          match SpacedTail(s, p3)
          case None => None
          case Some(d) => Some(Strip(d))
  }

  /** The pattern `^(\d{2}/\d{2}/\d{4})\s+(\d{2}/\d{2}/\d{4})\s+([-]?[0-9\.,]+)\s+EUR\s+\S+\s+(.+)$`
      matched against a stripped line. */
  function MatchBoundary(s: Line): (r: Option<Boundary>)
    ensures r.Some? ==> DateAt(s, 0, '/', true) && r.value.date == s[..10]
    ensures r.Some? ==> SignedAmount(r.value.amount) && IsStripped(r.value.descr)
  {
    match DatesEnd(s)
    case None => None
    case Some(p2) => MatchAmount(s, p2)
  }

  /** The two dates of the pattern, each followed by at least one blank: where the amount begins. */
  function DatesEnd(s: Line): (r: Option<nat>)
    ensures r.Some? ==> DateAt(s, 0, '/', true) && 10 < r.value <= |s|
  {
    if !DateAt(s, 0, '/', true) then None
    else
      var p1 := 10 + Run(s, 10, IsSpace);
      if p1 == 10 || !DateAt(s, p1, '/', true) then None
      else
        var p2 := p1 + 10 + Run(s, p1 + 10, IsSpace);
        if p2 == p1 + 10 then None else Some(p2)
  }

  /** The signed amount and what follows it, from position `p2` on. */
  function MatchAmount(s: Line, p2: nat): (r: Option<Boundary>)
    requires 10 <= p2 <= |s|
    ensures r.Some? ==> r.value.date == s[..10]
    ensures r.Some? ==> SignedAmount(r.value.amount) && IsStripped(r.value.descr)
  {
    var p3 := if p2 < |s| && s[p2] == '-' then p2 + 1 else p2;
    var n := Run(s, p3, IsAmountChar);
    if n == 0 then None
    else
      RunSpan(s, p3, IsAmountChar);
      var a := s[p2..p3 + n];
      assert forall j :: 0 <= j < |a| ==> a[j] == s[p2 + j];
      match AfterAmount(s, p3 + n)
      case None => None
      case Some(d) => Some(Boundary(s[..10], s[p2..p3 + n], d))
  }

  /** What one line is to the first loop, judged on the stripped line. */
  datatype Kind = Blank | Start(b: Boundary) | Text(l: string)

  function KindOf(line: Line): Kind {
    StripLine(line);
    var l := Strip(line);
    if l == "" then Blank
    else match MatchBoundary(l)
      case Some(b) => Start(b)
      case None => Text(l)
  }

  function Kinds(lines: seq<Line>): (ks: seq<Kind>)
    ensures |ks| == |lines| && forall i :: 0 <= i < |lines| ==> ks[i] == KindOf(lines[i])
  {
    seq(|lines|, i requires 0 <= i < |lines| => KindOf(lines[i]))
  }

  /** First-loop state: the records closed so far and the open one. */
  datatype Acc = Acc(done: seq<Pending>, current: Option<Pending>)

  const Init := Acc([], None)

  function Close(a: Acc): seq<Pending> {
    a.done + (if a.current.Some? then [a.current.value] else [])
  }

  function Open(b: Boundary): Pending {
    Pending(b.date, b.descr, b.amount)
  }

  /** One pass of the first loop: a boundary closes the open record and opens a new one; any
      other non-blank line is glued to the open record after one space. */
  function Step(a: Acc, k: Kind): Acc {
    match k
    case Blank => a
    case Start(b) => Acc(Close(a), Some(Open(b)))
    case Text(l) =>
      if a.current.Some? then a.(current := Some(a.current.value.(descrizione := a.current.value.descrizione + " " + l)))
      else a
  }

  /** The records the first loop collects. */
  function Grouped(lines: seq<Line>): seq<Pending> {
    Close(Fold(Step, Init, Kinds(lines)))
  }

  /** The two amount columns for a parsed value: a value below zero goes to Uscite as its
      magnitude, anything else (zero, or negative zero) to Entrate; the other column reads "0,00". */
  function Columns(f: PyFloat): (string, string) {
    if f.neg && f.units > 0 then (FormatFloat(f.(neg := false)), "0,00") else ("0,00", FormatFloat(f))
  }

  /** The second loop's verdict on one record: dropped when float() rejects the amount. */
  function Priced(p: Pending): Option<Transaction> {
    match ParseFloat(EuToPy(p.amount))
    case None => None
    case Some(f) => Some(Transaction(p.data, SingleLine(p.descrizione), Columns(f).0, Columns(f).1))
  }

  function ParseTransactionsSpec(lines: seq<Line>): seq<Transaction> {
    FilterMap(Priced, Grouped(lines))
  }

  /** The first loop of `parse_transactions`: group the lines into records. */
  method GroupLines(lines: seq<Line>) returns (transactions: seq<Pending>)
    ensures transactions == Grouped(lines)
  {
    ghost var ks := Kinds(lines);
    transactions := [];
    var current: Option<Pending> := None;
    var i := 0;
    while i < |lines|
      invariant 0 <= i <= |lines|
      invariant Fold(Step, Init, ks[..i]) == Acc(transactions, current)
    {
      transactions, current := GroupLine(lines[i], transactions, current);
      FoldTake(Step, Init, ks, i);
      i := i + 1;
    }
    assert ks[..i] == ks;
    if current.Some? {
      transactions := transactions + [current.value];
    }
  }

  /** The body of the first loop, for one line. */
  method GroupLine(l: Line, transactions: seq<Pending>, current: Option<Pending>)
    returns (transactions': seq<Pending>, current': Option<Pending>)
    ensures Acc(transactions', current') == Step(Acc(transactions, current), KindOf(l))
  {
    transactions', current' := transactions, current;
    StripLine(l);
    var line: Line := Strip(l);
    if line == "" {
      return;
    }
    var m := MatchBoundary(line);
    if m.Some? {
      if current'.Some? {
        transactions' := transactions' + [current'.value];
      }
      current' := Some(Pending(m.value.date, m.value.descr, m.value.amount));
    } else if current'.Some? {
      current' := Some(current'.value.(descrizione := current'.value.descrizione + " " + line));
    }
  }

  /** The second loop of `parse_transactions`: price each record, dropping unparseable ones. */
  method PriceRecords(transactions: seq<Pending>) returns (parsed: seq<Transaction>)
    ensures parsed == FilterMap(Priced, transactions)
  {
    parsed := [];
    var j := 0;
    while j < |transactions|
      invariant 0 <= j <= |transactions|
      invariant parsed == FilterMap(Priced, transactions[..j])
    {
      FilterMapTake(Priced, transactions, j);
      var r := PriceRecord(transactions[j]);
      if r.Some? {
        parsed := parsed + [r.value];
      }
      j := j + 1;
    }
    assert transactions[..j] == transactions;
  }

  /** The body of the second loop, for one record. */
  method PriceRecord(tx: Pending) returns (r: Option<Transaction>)
    ensures r == Priced(tx)
  {
    var amt := ParseFloat(EuToPy(tx.amount));
    if amt.None? {
      return None;
    }
    var f := amt.value;
    var uscite, entrate;
    if f.neg && f.units > 0 {
      uscite := FormatFloat(f.(neg := false));
      entrate := "0,00";
    } else {
      entrate := FormatFloat(f);
      uscite := "0,00";
    }
    var description := SingleLine(tx.descrizione);
    r := Some(Transaction(tx.data, description, uscite, entrate));
  }

  /** `parse_transactions`, over the lines of the PDF text. */
  method ParseTransactions(lines: seq<Line>) returns (parsed: seq<Transaction>)
    ensures parsed == ParseTransactionsSpec(lines)
  {
    var transactions := GroupLines(lines);
    parsed := PriceRecords(transactions);
  }

  /** `process_pdf` after text extraction: the header, then one row per record. */
  method ProcessPdf(lines: seq<Line>) returns (rows: seq<seq<string>>)
    ensures rows == Table(ParseTransactionsSpec(lines))
  {
    var ts := ParseTransactions(lines);
    rows := Table(ts);
  }

  // ---------------------------------------------------------------------------------------------
  // Amounts

  /** A negative value goes to Uscite as the canonical text of its magnitude; zero and positive
      values go to Entrate in canonical form; the other column is "0,00". */
  lemma ColumnsSign(f: PyFloat)
    ensures f.neg && f.units > 0 ==> Columns(f) == (FormatCents(false, RoundCents(f)), "0,00")
    ensures !(f.neg && f.units > 0) ==> Columns(f) == ("0,00", FormatCents(f.neg, RoundCents(f)))
  {
  }

  /** An amount already in canonical form comes out unchanged, in the column its sign selects. */
  lemma CanonicalAmount(p: Pending, neg: bool, c: nat)
    requires c > 0 && p.amount == FormatCents(neg, c)
    ensures Priced(p) == Some(Transaction(p.data, SingleLine(p.descrizione),
                                          if neg then FormatCents(false, c) else "0,00",
                                          if neg then "0,00" else p.amount))
  {
    FormatParseRoundTrip(neg, c);
  }

  /** Negative zero is not below zero: it lands in Entrate, printed with its sign. */
  lemma NegativeZero(p: Pending)
    requires p.amount == "-0,00"
    ensures Priced(p) == Some(Transaction(p.data, SingleLine(p.descrizione), "0,00", "-0,00"))
  {
    ZeroText();
    FormatParseRoundTrip(true, 0);
  }

  /** Every record of the output has a parseable amount, a single-line stripped description,
      exactly one of its columns equal to "0,00" unless the amount is zero, and there are never
      more records than the first loop collected. */
  lemma OutputRecords(lines: seq<Line>)
    ensures |ParseTransactionsSpec(lines)| <= |Grouped(lines)|
    ensures forall t :: t in ParseTransactionsSpec(lines) ==>
      IsStripped(t.descrizione) && NoChar(t.descrizione, '\n') && !Contains(t.descrizione, "\\n")
      && (t.uscite == "0,00" || t.entrate == "0,00")
    ensures forall p :: p in Grouped(lines) && ParseFloat(EuToPy(p.amount)).Some? ==>
      Priced(p).value in ParseTransactionsSpec(lines)
  {
    var g := Grouped(lines);
    FilterMapSound(Priced, g);
    forall t | t in FilterMap(Priced, g)
      ensures IsStripped(t.descrizione) && NoChar(t.descrizione, '\n') && !Contains(t.descrizione, "\\n")
      ensures t.uscite == "0,00" || t.entrate == "0,00"
    {
      var i :| 0 <= i < |g| && Priced(g[i]) == Some(t);
    }
    PricedComplete(g);
  }

  /** Every record whose amount float() accepts is written. */
  lemma PricedComplete(g: seq<Pending>)
    ensures forall p :: p in g && ParseFloat(EuToPy(p.amount)).Some? ==> Priced(p).value in FilterMap(Priced, g)
  {
    FilterMapComplete(Priced, g);
    forall p | p in g && ParseFloat(EuToPy(p.amount)).Some? ensures Priced(p).value in FilterMap(Priced, g) {
      var i :| 0 <= i < |g| && g[i] == p;
    }
  }

  // ---------------------------------------------------------------------------------------------
  // The first loop

  /** The boundaries in the order the lines bring them. */
  function Boundaries(ks: seq<Kind>): seq<Boundary>
    decreases |ks|
  {
    if ks == [] then []
    else if ks[0].Start? then [ks[0].b] + Boundaries(ks[1..])
    else Boundaries(ks[1..])
  }

  /** The second sequence holds the first's records with more description text appended. */
  predicate Grows(a: seq<Pending>, b: seq<Pending>) {
    |a| == |b|
    && forall j :: 0 <= j < |a| ==>
         a[j].data == b[j].data && a[j].amount == b[j].amount && StartsWith(b[j].descrizione, a[j].descrizione)
  }

  lemma GrowsTrans(a: seq<Pending>, b: seq<Pending>, c: seq<Pending>)
    requires Grows(a, b) && Grows(b, c)
    ensures Grows(a, c)
  {
    forall j | 0 <= j < |a| ensures StartsWith(c[j].descrizione, a[j].descrizione) {
      var x, y, z := a[j].descrizione, b[j].descrizione, c[j].descrizione;
      assert z[..|y|] == y;
      assert z[..|x|] == z[..|y|][..|x|];
    }
  }

  lemma GrowsLast(done: seq<Pending>, p: Pending, more: string, tail: seq<Pending>)
    ensures Grows(done + [p] + tail, done + [p.(descrizione := p.descrizione + more)] + tail)
  {
    var a := done + [p] + tail;
    var b := done + [p.(descrizione := p.descrizione + more)] + tail;
    forall j | 0 <= j < |a| ensures StartsWith(b[j].descrizione, a[j].descrizione) {
      if j == |done| {
        assert (p.descrizione + more)[..|p.descrizione|] == p.descrizione;
      } else {
        assert a[j] == b[j];
      }
    }
  }

  function Opened(bs: seq<Boundary>): (ps: seq<Pending>)
    ensures |ps| == |bs| && forall k :: 0 <= k < |bs| ==> ps[k] == Open(bs[k])
  {
    seq(|bs|, k requires 0 <= k < |bs| => Open(bs[k]))
  }

  lemma {:induction false} ScanGrows(a: Acc, ks: seq<Kind>)
    ensures Grows(Close(a) + Opened(Boundaries(ks)), Close(Fold(Step, a, ks)))
    decreases |ks|
  {
    if ks == [] {
      assert Close(a) + Opened([]) == Close(a);
    } else {
      var a' := Step(a, ks[0]);
      var rest := ks[1..];
      ScanGrows(a', rest);
      match ks[0]
      case Blank =>
      case Start(b) =>
        OpenShift(a, ks);
      case Text(l) =>
        if a.current.Some? {
          TextGrows(a, ks);
          GrowsTrans(Close(a) + Opened(Boundaries(rest)), Close(a') + Opened(Boundaries(rest)),
                     Close(Fold(Step, a', rest)));
        }
    }
  }

  lemma OpenShift(a: Acc, ks: seq<Kind>)
    requires ks != [] && ks[0].Start?
    ensures Close(Step(a, ks[0])) + Opened(Boundaries(ks[1..])) == Close(a) + Opened(Boundaries(ks))
  {
    var o := Open(ks[0].b);
    assert Close(Step(a, ks[0])) == Close(a) + [o];
    assert Boundaries(ks) == [ks[0].b] + Boundaries(ks[1..]);
    assert Opened(Boundaries(ks)) == [o] + Opened(Boundaries(ks[1..]));
    AppendAssoc(Close(a), [o], Opened(Boundaries(ks[1..])));
  }

  lemma TextGrows(a: Acc, ks: seq<Kind>)
    requires a.current.Some? && ks != [] && ks[0].Text?
    ensures Grows(Close(a) + Opened(Boundaries(ks)), Close(Step(a, ks[0])) + Opened(Boundaries(ks[1..])))
  {
    var p := a.current.value;
    assert Boundaries(ks) == Boundaries(ks[1..]);
    assert Close(Step(a, ks[0])) == a.done + [p.(descrizione := p.descrizione + " " + ks[0].l)];
    GrowsLast(a.done, p, " " + ks[0].l, Opened(Boundaries(ks[1..])));
  }

  /** One record per boundary line, in order, with that line's date and amount; its description
      starts with the boundary's description and goes on with the lines that follow. */
  lemma RecordPerBoundary(lines: seq<Line>)
    ensures var bs := Boundaries(Kinds(lines));
            |Grouped(lines)| == |bs|
            && forall k :: 0 <= k < |bs| ==>
              Grouped(lines)[k].data == bs[k].date && Grouped(lines)[k].amount == bs[k].amount
              && StartsWith(Grouped(lines)[k].descrizione, bs[k].descr)
  {
    ScanGrows(Init, Kinds(lines));
    assert Close(Init) + Opened(Boundaries(Kinds(lines))) == Opened(Boundaries(Kinds(lines)));
  }

  lemma KindsAppend(xs: seq<Line>, ys: seq<Line>)
    ensures Kinds(xs + ys) == Kinds(xs) + Kinds(ys)
  {
  }

  lemma KindsSplit(pre: seq<Line>, l: Line, rest: seq<Line>)
    ensures Kinds(pre + [l] + rest) == Kinds(pre) + [KindOf(l)] + Kinds(rest)
    ensures Kinds(pre + [l]) == Kinds(pre) + [KindOf(l)]
    ensures Kinds(pre + rest) == Kinds(pre) + Kinds(rest)
  {
    KindsAppend(pre + [l], rest);
    KindsAppend(pre, [l]);
    KindsAppend(pre, rest);
    assert Kinds([l]) == [KindOf(l)];
  }

  /** A line that strips to nothing changes nothing. */
  lemma BlankIgnored(pre: seq<Line>, l: Line, rest: seq<Line>)
    requires Strip(l) == ""
    ensures Grouped(pre + [l] + rest) == Grouped(pre + rest)
  {
    KindsSplit(pre, l, rest);
    assert KindOf(l) == Blank;
    FoldSnoc(Step, Init, Kinds(pre), Blank);
    FoldAppend(Step, Init, Kinds(pre) + [Blank], Kinds(rest));
    FoldAppend(Step, Init, Kinds(pre), Kinds(rest));
  }

  /** Any non-blank line that is no boundary is glued to the open record after one space: there
      is no list of phrases to skip. */
  lemma ContinuationAppends(pre: seq<Line>, l: Line)
    requires Fold(Step, Init, Kinds(pre)).current.Some?
    requires Strip(l) != "" && KindOf(l).Text?
    ensures var a, a' := Fold(Step, Init, Kinds(pre)), Fold(Step, Init, Kinds(pre + [l]));
            a'.done == a.done
            && a'.current == Some(a.current.value.(descrizione := a.current.value.descrizione + " " + Strip(l)))
  {
    KindsSplit(pre, l, []);
    FoldSnoc(Step, Init, Kinds(pre), KindOf(l));
  }

  /** Lines before the first boundary contribute nothing. */
  lemma {:induction false} LeadingTextIgnored(a: Acc, ks: seq<Kind>)
    requires a.current.None?
    requires forall i :: 0 <= i < |ks| ==> !ks[i].Start?
    ensures Fold(Step, a, ks) == a
    decreases |ks|
  {
    if ks != [] {
      assert Step(a, ks[0]) == a;
      LeadingTextIgnored(a, ks[1..]);
    }
  }

  // ---------------------------------------------------------------------------------------------
  // The boundary layout

  /** A statement line in the layout the pattern describes: the two dates, the amount, "EUR",
      one more field and the description, with one space between the pieces. */
  function BoundaryLine(b: Boundary, d2: string, field: string): string {
    b.date + " " + d2 + " " + b.amount + " EUR " + field + " " + b.descr
  }

  predicate WellFormed(b: Boundary, d2: string, field: string) {
    |b.date| == 10 && DateAt(b.date, 0, '/', true) && |d2| == 10 && DateAt(d2, 0, '/', true)
    && SignedAmount(b.amount) && |field| >= 1 && NoSpace(field)
    && |b.descr| >= 1 && IsStripped(b.descr)
  }

  /** The two dates at the head of the line, each followed by one space. */
  lemma DatesHead(s: string, x: string, y: string)
    requires |x| == 10 && |y| == 10 && DateAt(x, 0, '/', true) && DateAt(y, 0, '/', true)
    requires 23 <= |s| && s[..22] == x + " " + y + " " && !IsSpace(s[22])
    ensures DateAt(s, 0, '/', true) && DateAt(s, 11, '/', true) && s[..10] == x
    ensures Run(s, 10, IsSpace) == 1 && Run(s, 21, IsSpace) == 1
  {
    var h := s[..22];
    assert forall i :: 0 <= i < 22 ==> s[i] == h[i];
    assert forall i :: 0 <= i < 10 ==> h[i] == x[i] && h[11 + i] == y[i];
    assert s[..10] == h[..10];
    RunAt(s, 10, 1, IsSpace);
    RunAt(s, 21, 1, IsSpace);
  }

  /** The verdict of the tail pattern from the runs it meets. */
  lemma AfterAmountAt(s: Line, q: nat, f: nat, d: string)
    requires q + 5 + f <= |s| && f >= 1
    requires Run(s, q, IsSpace) == 1 && OccursAt(s, "EUR", q + 1) && Run(s, q + 4, IsSpace) == 1
    requires Run(s, q + 5, NotSpace) == f && SpacedTail(s, q + 5 + f) == Some(d)
    ensures AfterAmount(s, q) == Some(Strip(d))
  {
  }

  /** The runs of " EUR <field> <descr>". */
  lemma AfterAmountRuns(s: Line, q: nat, field: string, descr: string)
    requires q <= |s| && s[q..] == " EUR " + field + " " + descr
    requires |field| >= 1 && NoSpace(field) && |descr| >= 1 && IsStripped(descr)
    ensures q + 5 + |field| <= |s|
    ensures Run(s, q, IsSpace) == 1 && OccursAt(s, "EUR", q + 1) && Run(s, q + 4, IsSpace) == 1
    ensures Run(s, q + 5, NotSpace) == |field| && SpacedTail(s, q + 5 + |field|) == Some(descr)
  {
    EurIndex(s, q, field, descr);
    var f := |field|;
    assert s[q + 1..q + 4] == "EUR";
    RunAt(s, q, 1, IsSpace);
    RunAt(s, q + 4, 1, IsSpace);
    RunAt(s, q + 5, f, NotSpace);
    RunAt(s, q + 5 + f, 1, IsSpace);
    EurDescr(s, q, field, descr);
  }

  /** The characters of " EUR <field> <descr>" one by one. */
  lemma EurIndex(s: string, q: nat, field: string, descr: string)
    requires q <= |s| && s[q..] == " EUR " + field + " " + descr && |descr| >= 1
    ensures |s| == q + 6 + |field| + |descr|
    ensures s[q] == ' ' && s[q + 1] == 'E' && s[q + 2] == 'U' && s[q + 3] == 'R' && s[q + 4] == ' '
    ensures forall i :: q + 5 <= i < q + 5 + |field| ==> s[i] == field[i - q - 5]
    ensures s[q + 5 + |field|] == ' ' && s[q + 6 + |field|] == descr[0]
  {
    var t := s[q..];
    forall i | q <= i < |s| ensures s[i] == t[i - q] {
    }
  }

  lemma EurDescr(s: string, q: nat, field: string, descr: string)
    requires q <= |s| && s[q..] == " EUR " + field + " " + descr
    ensures s[q + 6 + |field|..] == descr
  {
    var t := s[q..];
    assert s[q + 6 + |field|..] == t[6 + |field|..];
  }

  /** `\s+EUR\s+\S+\s+(.+)$` on " EUR <field> <descr>" captures the description. */
  lemma AfterAmountLayout(s: Line, q: nat, field: string, descr: string)
    requires q <= |s| && s[q..] == " EUR " + field + " " + descr
    requires |field| >= 1 && NoSpace(field) && |descr| >= 1 && IsStripped(descr)
    ensures AfterAmount(s, q) == Some(descr)
  {
    AfterAmountRuns(s, q, field, descr);
    AfterAmountAt(s, q, |field|, descr);
    StripKeepsStripped(descr);
  }

  /** Where the pieces of a boundary line lie. */
  lemma BoundaryLineSlices(b: Boundary, d2: string, field: string)
    requires |b.date| == 10 && |d2| == 10
    ensures var s := BoundaryLine(b, d2, field);
      |s| >= 22 + |b.amount| && s[..22] == b.date + " " + d2 + " "
      && s[22..22 + |b.amount|] == b.amount && s[22 + |b.amount|..] == " EUR " + field + " " + b.descr
  {
    var s := BoundaryLine(b, d2, field);
    var h, rest := b.date + " " + d2 + " ", " EUR " + field + " " + b.descr;
    assert s == h + b.amount + rest;
    assert s[..22] == h;
    assert s[22..22 + |b.amount|] == b.amount;
    assert s[22 + |b.amount|..] == rest;
  }

  lemma BoundaryLineIsLine(b: Boundary, d2: string, field: string)
    requires WellFormed(b, d2, field) && IsLine(field) && IsLine(b.descr)
    ensures IsLine(BoundaryLine(b, d2, field))
  {
    var s := BoundaryLine(b, d2, field);
    BoundaryLineSlices(b, d2, field);
    var a, rest := b.amount, " EUR " + field + " " + b.descr;
    forall j | 0 <= j < |s| ensures !IsLineBreak(s[j]) {
      if j < 22 {
        assert s[j] == s[..22][j];
        if j < 10 { assert s[j] == b.date[j]; } else if 11 <= j < 21 { assert s[j] == d2[j - 11]; }
      } else if j < 22 + |a| {
        assert s[j] == a[j - 22];
      } else {
        var i := j - 22 - |a|;
        assert s[j] == rest[i];
        if 5 <= i < 5 + |field| { assert rest[i] == field[i - 5]; }
        else if i > 5 + |field| { assert rest[i] == b.descr[i - 6 - |field|]; }
      }
    }
  }

  /** The amount of a boundary line: where its sign ends and how long its numeral runs. */
  lemma AmountRun(s: string, a: string, q: nat)
    requires SignedAmount(a) && 22 + |a| == q < |s| && s[22..q] == a && s[q] == ' '
    ensures var p3 := if s[22] == '-' then 23 else 22;
      p3 == 22 + (if a[0] == '-' then 1 else 0) && Run(s, p3, IsAmountChar) == q - p3
  {
    var k := if a[0] == '-' then 1 else 0;
    assert forall j :: 0 <= j < |a| ==> s[22 + j] == a[j];
    RunAt(s, 22 + k, |a| - k, IsAmountChar);
  }

  /** Any line written in the boundary layout is a boundary line with exactly its parts, whether
      or not it has been stripped first. */
  lemma BoundaryLineMatches(b: Boundary, d2: string, field: string)
    requires WellFormed(b, d2, field) && IsLine(field) && IsLine(b.descr)
    ensures IsLine(BoundaryLine(b, d2, field))
    ensures MatchBoundary(BoundaryLine(b, d2, field)) == Some(b)
  {
    BoundaryLineIsLine(b, d2, field);
    var s: Line := BoundaryLine(b, d2, field);
    var q := 22 + |b.amount|;
    BoundaryLineSlices(b, d2, field);
    assert s[22] == b.amount[0] && s[q] == ' ' && s[q..][0] == ' ';
    assert !IsSpace(s[22]) by {
      var k := if b.amount[0] == '-' then 1 else 0;
      assert b.amount[0] == '-' || IsAmountChar(b.amount[k]);
    }
    DatesHead(s, b.date, d2);
    AmountRun(s, b.amount, q);
    AfterAmountLayout(s, q, field, b.descr);
    MatchBoundaryAt(s, q, b);
  }

  /** A line in the boundary layout is already stripped, so the first loop sees it as it is. */
  lemma BoundaryLineKind(b: Boundary, d2: string, field: string)
    requires WellFormed(b, d2, field) && IsLine(field) && IsLine(b.descr)
    ensures IsLine(BoundaryLine(b, d2, field))
    ensures KindOf(BoundaryLine(b, d2, field)) == Start(b)
  {
    BoundaryLineMatches(b, d2, field);
    var s: Line := BoundaryLine(b, d2, field);
    BoundaryLineStripped(b, d2, field);
    StripKeepsStripped(s);
  }

  lemma BoundaryLineStripped(b: Boundary, d2: string, field: string)
    requires WellFormed(b, d2, field)
    ensures IsStripped(BoundaryLine(b, d2, field))
  {
    var s := BoundaryLine(b, d2, field);
    BoundaryLineSlices(b, d2, field);
    var q := 22 + |b.amount|;
    assert s[0] == b.date[0];
    assert s[|s| - 1] == b.descr[|b.descr| - 1] by {
      assert s[q..][|s[q..]| - 1] == b.descr[|b.descr| - 1];
    }
  }

  /** The pattern's verdict on a line whose pieces lie at the usual places. */
  lemma MatchBoundaryAt(s: Line, q: nat, b: Boundary)
    requires DateAt(s, 0, '/', true) && DateAt(s, 11, '/', true) && s[..10] == b.date
    requires Run(s, 10, IsSpace) == 1 && Run(s, 21, IsSpace) == 1
    requires 22 < q <= |s| && s[22..q] == b.amount
    requires var p3 := if s[22] == '-' then 23 else 22; p3 < q && Run(s, p3, IsAmountChar) == q - p3
    requires AfterAmount(s, q) == Some(b.descr)
    ensures MatchBoundary(s) == Some(b)
  {
    DatesEndAt(s);
    MatchAmountAt(s, q, b);
  }

  lemma DatesEndAt(s: Line)
    requires DateAt(s, 0, '/', true) && DateAt(s, 11, '/', true)
    requires Run(s, 10, IsSpace) == 1 && Run(s, 21, IsSpace) == 1
    ensures DatesEnd(s) == Some(22)
  {
  }

  lemma MatchAmountAt(s: Line, q: nat, b: Boundary)
    requires 22 < q <= |s| && s[..10] == b.date && s[22..q] == b.amount
    requires var p3 := if s[22] == '-' then 23 else 22; p3 < q && Run(s, p3, IsAmountChar) == q - p3
    requires AfterAmount(s, q) == Some(b.descr)
    ensures MatchAmount(s, 22) == Some(b)
  {
    var p3 := if s[22] == '-' then 23 else 22;
    var n := Run(s, p3, IsAmountChar);
    assert n != 0 && p3 + n == q;
    assert MatchAmount(s, 22) == Some(Boundary(s[..10], s[22..q], b.descr));
  }
}
