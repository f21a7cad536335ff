/** The QONTO text converter (script/EcQONTO.py): statement lines are grouped into records that
    open at a "dd/mm" line, then the first "+/- amount EUR" marker of each record fills one column
    and every marker is cut out of the description. */
module EcQonto {
  import opened Wrappers
  import opened PyText
  import opened Scan
  import opened Csv
  import opened Amounts

  // ---------------------------------------------------------------------------------------------
  // The line patterns

  /** The page-furniture lines the first loop drops: "Dal giorno…", "TESA…", or a page counter
      that is all of the pattern `\d+/\d+`. */
  predicate IsSkip(l: string) {
    StartsWith(l, "Dal giorno") || StartsWith(l, "TESA") || IsPageCounter(l)
  }

  /** re.fullmatch(r'\d+/\d+', l). */
  predicate IsPageCounter(l: string) {
    var a := Run(l, 0, IsDigit);
    1 <= a < |l| && l[a] == '/' && 1 <= Run(l, a + 1, IsDigit) && a + 1 + Run(l, a + 1, IsDigit) == |l|
  }

  /** What the first group of the date pattern holds: one or two digits, '/', one or two digits. */
  predicate IsDayMonth(s: string) {
    var a := Run(s, 0, IsDigit);
    1 <= a <= 2 && a < |s| && s[a] == '/' && 1 <= |s| - a - 1 <= 2 && AllDigits(s[a + 1..])
  }

  /** `^(\d{1,2}/\d{1,2})\s+(.*)` matched against a line: the day and month digit runs must be
      one or two digits long (a longer run leaves a digit where '/' or `\s` is needed), the
      whitespace run is taken whole and the rest of the line is the second group. */
  function MatchDateLine(l: Line): Option<(string, string)>
  {
    var a := Run(l, 0, IsDigit);
    if a < 1 || a > 2 || a >= |l| || l[a] != '/' then None
    else
      var b := Run(l, a + 1, IsDigit);
      var p := a + 1 + b;
      if b < 1 || b > 2 then None
      else
        var w := Run(l, p, IsSpace);
        if w == 0 then None
        else Some((l[..p], l[p + w..]))
  }

  /** Every character is whitespace. */
  predicate AllSpace(w: string) {
    forall i :: 0 <= i < |w| ==> IsSpace(w[i])
  }

  // ---------------------------------------------------------------------------------------------
  // The first loop

  /** What one line is to the first loop, judged on the stripped line. */
  datatype Kind = Blank | Skipped | Start(date: string, descr: string) | Text(l: string)

  function KindOf(line: Line): Kind {
    StripLine(line);
    var l: Line := Strip(line);
    if l == "" then Blank
    else if IsSkip(l) then Skipped
    else match MatchDateLine(l)
      case Some(m) => Start(m.0, m.1)
      case None => Text(l)
  }

  function Kinds(lines: seq<Line>): (ks: seq<Kind>)
    ensures |ks| == |lines| && forall i :: 0 <= i < |lines| ==> ks[i] == KindOf(lines[i])
  {
    seq(|lines|, i requires 0 <= i < |lines| => KindOf(lines[i]))
  }

  /** First-loop state: the records closed so far and the open one. */
  datatype Acc = Acc(done: seq<Transaction>, current: Option<Transaction>)

  const Init := Acc([], None)

  function Close(a: Acc): seq<Transaction> {
    a.done + (if a.current.Some? then [a.current.value] else [])
  }

  /** A record as a date line opens it: both amount columns read "0". */
  function Open(date: string, descr: string): Transaction {
    Transaction(date, descr, "0", "0")
  }

  /** One pass of the first loop: blank and page-furniture lines are dropped, a date line closes
      the open record and opens a new one, any other line is glued to the open record after one
      space (and dropped when none is open). */
  function Step(a: Acc, k: Kind): Acc {
    match k
    case Blank => a
    case Skipped => a
    case Start(date, descr) => Acc(Close(a), Some(Open(date, descr)))
    case Text(l) =>
      if a.current.Some? then a.(current := Some(a.current.value.(descrizione := a.current.value.descrizione + " " + l)))
      else a
  }

  /** The records the first loop collects. */
  function Grouped(lines: seq<Line>): seq<Transaction> {
    Close(Fold(Step, Init, Kinds(lines)))
  }

  // ---------------------------------------------------------------------------------------------
  // The amount marker

  /** One match of `([+-])\s*([\d.,]+)\s*EUR`: the sign, the amount text and the index just past "EUR". */
  datatype Marker = Marker(sign: char, amount: string, end: nat)

  predicate AmountText(g: string) {
    |g| >= 1 && forall i :: 0 <= i < |g| ==> IsAmountChar(g[i])
  }

  /** The amount pattern tried at index `i`. Each run is taken whole: giving back an amount
      character or a space leaves a character that neither `\s` nor 'E' accepts. */
  function MarkerAt(d: string, i: nat): (r: Option<Marker>)
    requires i <= |d|
    ensures r.Some? ==> i + 4 < r.value.end <= |d| && d[i] == r.value.sign
                        && (r.value.sign == '+' || r.value.sign == '-')
                        && AmountText(r.value.amount) && OccursAt(d, "EUR", r.value.end - 3)
  {
    if i >= |d| || !(d[i] == '+' || d[i] == '-') then None
    else
      var p := i + 1 + Run(d, i + 1, IsSpace);
      var n := Run(d, p, IsAmountChar);
      if n == 0 then None
      else
        var q := p + n + Run(d, p + n, IsSpace);
        if OccursAt(d, "EUR", q) then
          AmountRunText(d, p);
          Some(Marker(d[i], d[p..p + n], q + 3))
        else None
  }

  /** A non-empty run of amount characters is an amount text. */
  lemma AmountRunText(d: string, p: nat)
    requires p <= |d| && Run(d, p, IsAmountChar) >= 1
    ensures AmountText(d[p..p + Run(d, p, IsAmountChar)])
  {
    var n := Run(d, p, IsAmountChar);
    RunSpan(d, p, IsAmountChar);
    var g := d[p..p + n];
    assert forall j :: 0 <= j < n ==> g[j] == d[p + j];
  }

  /** amt_pattern.search(d[k..]): the leftmost marker at or after `k`. */
  function FirstMarker(d: string, k: nat): (r: Option<(nat, Marker)>)
    requires k <= |d|
    ensures r.Some? ==> k <= r.value.0 <= |d| && MarkerAt(d, r.value.0) == Some(r.value.1)
    decreases |d| - k
  {
    if k == |d| then None
    else match MarkerAt(d, k)
      case Some(m) => Some((k, m))
      case None => FirstMarker(d, k + 1)
  }

  /** amt_pattern.sub("", d[k..]): every marker found scanning left to right is cut out. */
  function Removed(d: string, k: nat): (r: string)
    requires k <= |d|
    ensures |r| <= |d| - k
    decreases |d| - k
  {
    if k == |d| then ""
    else match MarkerAt(d, k)
      case Some(m) => Removed(d, m.end)
      case None => [d[k]] + Removed(d, k + 1)
  }

  /** float(amount.replace(",", ".")), with 0.0 where float() raises. */
  function AmountValue(g: string): PyFloat {
    match ParseFloat(ReplaceAll(g, ",", "."))
    case Some(f) => f
    case None => PyFloat(false, 0, 0)
  }

  /** The second loop on one record: the first marker fills Entrate ('+') or Uscite ('-') with the
      formatted amount and the other column with "0,00", and all markers leave the description;
      without a marker the columns keep their "0". The description is made single-line either way. */
  function Priced(t: Transaction): Transaction {
    match FirstMarker(t.descrizione, 0)
    case None => t.(descrizione := SingleLine(t.descrizione))
    case Some((_, m)) =>
      var v := FormatFloat(AmountValue(m.amount));
      Transaction(t.data, SingleLine(Strip(Removed(t.descrizione, 0))),
                  if m.sign == '+' then "0,00" else v,
                  if m.sign == '+' then v else "0,00")
  }

  function PricedAll(ts: seq<Transaction>): (r: seq<Transaction>)
    ensures |r| == |ts| && forall k :: 0 <= k < |ts| ==> r[k] == Priced(ts[k])
  {
    seq(|ts|, k requires 0 <= k < |ts| => Priced(ts[k]))
  }

  function ExtractSpec(lines: seq<Line>): seq<Transaction> {
    PricedAll(Grouped(lines))
  }

  // ---------------------------------------------------------------------------------------------
  // The converter

  /** The first loop of `extract_transactions_from_text`. */
  method GroupLines(lines: seq<Line>) returns (transactions: seq<Transaction>)
    ensures transactions == Grouped(lines)
  {
    ghost var ks := Kinds(lines);
    transactions := [];
    var current: Option<Transaction> := None;
    var i := 0;
    while i < |lines|
      invariant 0 <= i <= |lines|
      invariant Fold(Step, Init, ks[..i]) == Acc(transactions, current)
    {
      FoldTake(Step, Init, ks, i);
      StripLine(lines[i]);
      var line: Line := Strip(lines[i]);
      i := i + 1;
      if line == "" {
        continue;
      }
      if StartsWith(line, "Dal giorno") || StartsWith(line, "TESA") || IsPageCounter(line) {
        continue;
      }
      var m := MatchDateLine(line);
      if m.Some? {
        if current.Some? {
          transactions := transactions + [current.value];
        }
        current := Some(Transaction(m.value.0, m.value.1, "0", "0"));
      } else {
        if current.Some? {
          current := Some(current.value.(descrizione := current.value.descrizione + " " + line));
        }
      }
    }
    assert ks[..i] == ks;
    if current.Some? {
      transactions := transactions + [current.value];
    }
  }

  /** The second loop, which rewrites each record dict in place. */
  method PriceAll(transactions: seq<Transaction>) returns (r: seq<Transaction>)
    ensures r == PricedAll(transactions)
  {
    r := transactions;
    var k := 0;
    while k < |r|
      invariant 0 <= k <= |r| && |r| == |transactions|
      invariant forall j :: 0 <= j < k ==> r[j] == Priced(transactions[j])
      invariant forall j :: k <= j < |r| ==> r[j] == transactions[j]
    {
      var tx := r[k];
      var found := FirstMarker(tx.descrizione, 0);
      if found.Some? {
        var m := found.value.1;
        var amount := AmountValue(m.amount);
        if m.sign == '+' {
          tx := tx.(entrate := FormatFloat(amount), uscite := "0,00");
        } else {
          tx := tx.(entrate := "0,00", uscite := FormatFloat(amount));
        }
        tx := tx.(descrizione := Strip(Removed(tx.descrizione, 0)));
      }
      tx := tx.(descrizione := SingleLine(tx.descrizione));
      r := r[k := tx];
      k := k + 1;
    }
  }

  /** `extract_transactions_from_text`, over the lines of the PDF text. */
  method ExtractTransactions(lines: seq<Line>) returns (ts: seq<Transaction>)
    ensures ts == ExtractSpec(lines)
  {
    var grouped := GroupLines(lines);
    ts := PriceAll(grouped);
  }

  /** `process_pdf` after text extraction: the header, then one row per record. */
  method ProcessPdf(lines: seq<Line>) returns (rows: seq<seq<string>>)
    ensures rows == Table(ExtractSpec(lines))
  {
    var ts := ExtractTransactions(lines);
    rows := Table(ts);
  }

  // ---------------------------------------------------------------------------------------------
  // The date pattern

  /** What the date pattern accepts: the first group is a day/month, the second is what follows
      the whitespace run after it, and that run is taken whole. */
  lemma DateLineShape(l: Line, date: string, descr: string)
    requires MatchDateLine(l) == Some((date, descr))
    ensures IsDayMonth(date) && StartsWith(l, date) && EndsWith(l, descr)
    ensures |date| < |l| - |descr| && AllSpace(l[|date|..|l| - |descr|])
    ensures descr == [] || !IsSpace(descr[0])
  {
    DateLineHead(l, date, descr);
    DateLineGap(l, date, descr);
  }

  lemma DateLineHead(l: Line, date: string, descr: string)
    requires MatchDateLine(l) == Some((date, descr))
    ensures IsDayMonth(date) && StartsWith(l, date) && EndsWith(l, descr)
  {
    var a := Run(l, 0, IsDigit);
    var b := Run(l, a + 1, IsDigit);
    var p := a + 1 + b;
    RunSpan(l, 0, IsDigit);
    RunSpan(l, a + 1, IsDigit);
    assert date == l[..p];
    RunAt(date, 0, a, IsDigit);
    assert forall j :: a + 1 <= j < p ==> date[j] == l[j];
  }

  lemma DateLineGap(l: Line, date: string, descr: string)
    requires MatchDateLine(l) == Some((date, descr))
    ensures |date| < |l| - |descr| && AllSpace(l[|date|..|l| - |descr|])
    ensures descr == [] || !IsSpace(descr[0])
  {
    var a := Run(l, 0, IsDigit);
    var p := a + 1 + Run(l, a + 1, IsDigit);
    var w := Run(l, p, IsSpace);
    RunSpan(l, p, IsSpace);
    assert |date| == p && descr == l[p + w..];
    var ws := l[p..p + w];
    assert forall j :: 0 <= j < w ==> ws[j] == l[p + j];
  }

  /** The slices of a line laid out as day, '/', month, whitespace, rest. */
  lemma DateLayoutFacts(l: string, x: string, y: string, w: string, rest: string)
    requires l == x + "/" + y + w + rest
    ensures l[..|x|] == x && l[|x|] == '/'
    ensures l[|x| + 1..|x| + 1 + |y|] == y
    ensures l[|x| + 1 + |y|..|x| + 1 + |y| + |w|] == w
    ensures l[|x| + 1 + |y| + |w|..] == rest
    ensures l[..|x| + 1 + |y|] == x + "/" + y
  {
  }

  /** A line laid out as a day and month of one or two digits each, whitespace, and a rest that
      does not start with whitespace matches the date pattern with exactly those groups. */
  lemma DateLineParses(l: Line, x: string, y: string, w: string, rest: string)
    requires DayMonth(x, y) && |w| >= 1 && AllSpace(w) && (rest == [] || !IsSpace(rest[0]))
    requires l == x + "/" + y + w + rest
    ensures MatchDateLine(l) == Some((x + "/" + y, rest))
  {
    DateLayoutFacts(l, x, y, w, rest);
    DateLineIndex(l, x, y, w, rest);
    DateLineRuns(l, x, y, w, rest);
  }

  /** The digit, digit and blank runs of such a line. */
  lemma DateLineRuns(l: string, x: string, y: string, w: string, rest: string)
    requires DayMonth(x, y) && |w| >= 1 && AllSpace(w) && (rest == [] || !IsSpace(rest[0]))
    requires |l| == |x| + 1 + |y| + |w| + |rest| && l[|x|] == '/'
    requires forall j :: 0 <= j < |x| ==> l[j] == x[j]
    requires forall j :: |x| + 1 <= j < |x| + 1 + |y| ==> l[j] == y[j - |x| - 1]
    requires forall j :: |x| + 1 + |y| <= j < |x| + 1 + |y| + |w| ==> l[j] == w[j - |x| - 1 - |y|]
    requires forall j :: |x| + 1 + |y| + |w| <= j < |l| ==> l[j] == rest[j - |x| - 1 - |y| - |w|]
    ensures Run(l, 0, IsDigit) == |x| && Run(l, |x| + 1, IsDigit) == |y|
    ensures Run(l, |x| + 1 + |y|, IsSpace) == |w|
  {
    var p := |x| + 1 + |y|;
    RunOver(l, 0, x, IsDigit);
    RunOver(l, |x| + 1, y, IsDigit);
    RunOver(l, p, w, IsSpace);
  }

  lemma DateLineIndex(l: string, x: string, y: string, w: string, rest: string)
    requires l == x + "/" + y + w + rest
    ensures |l| == |x| + 1 + |y| + |w| + |rest| && l[|x|] == '/'
    ensures forall j :: 0 <= j < |x| ==> l[j] == x[j]
    ensures forall j :: |x| + 1 <= j < |x| + 1 + |y| ==> l[j] == y[j - |x| - 1]
    ensures forall j :: |x| + 1 + |y| <= j < |x| + 1 + |y| + |w| ==> l[j] == w[j - |x| - 1 - |y|]
    ensures forall j :: |x| + 1 + |y| + |w| <= j < |l| ==> l[j] == rest[j - |x| - 1 - |y| - |w|]
  {
  }

  /** A day and month of one or two digits each. */
  predicate DayMonth(x: string, y: string) {
    1 <= |x| <= 2 && 1 <= |y| <= 2 && AllDigits(x) && AllDigits(y)
  }

  /** Such a line, already stripped and with a description, opens a record: it is neither blank
      nor page furniture. */
  lemma DateLineOpens(l: Line, x: string, y: string, w: string, rest: string)
    requires DayMonth(x, y) && |w| >= 1 && AllSpace(w) && |rest| >= 1 && IsStripped(rest)
    requires l == x + "/" + y + w + rest
    ensures KindOf(l) == Start(x + "/" + y, rest)
  {
    DateLineParses(l, x, y, w, rest);
    DateLineNotFurniture(l, x, y, w, rest);
  }

  lemma DateLineNotFurniture(l: Line, x: string, y: string, w: string, rest: string)
    requires DayMonth(x, y) && |w| >= 1 && AllSpace(w) && |rest| >= 1 && IsStripped(rest)
    requires l == x + "/" + y + w + rest
    ensures Strip(l) == l && l != [] && !IsSkip(l)
  {
    DateLineIndex(l, x, y, w, rest);
    assert l[0] == x[0] && l[|l| - 1] == rest[|rest| - 1];
    StripKeepsStripped(l);
    assert !StartsWith(l, "TESA") by { if |l| >= 4 { assert l[..4][0] == l[0]; } }
    assert !StartsWith(l, "Dal giorno") by { if |l| >= 10 { assert l[..10][0] == l[0]; } }
    assert !IsPageCounter(l) by {
      DateLineRuns(l, x, y, w, rest);
    }
  }

  // ---------------------------------------------------------------------------------------------
  // The first loop

  /** The records the date lines open, in order. */
  function Starts(ks: seq<Kind>): seq<Transaction>
    decreases |ks|
  {
    if ks == [] then []
    else if ks[0].Start? then [Open(ks[0].date, ks[0].descr)] + Starts(ks[1..])
    else Starts(ks[1..])
  }

  lemma {:induction false} ScanExtends(a: Acc, ks: seq<Kind>)
    ensures Extends(Close(a) + Starts(ks), Close(Fold(Step, a, ks)))
    decreases |ks|
  {
    if ks == [] {
      assert Close(a) + Starts([]) == Close(a);
    } else {
      var a' := Step(a, ks[0]);
      var rest := ks[1..];
      ScanExtends(a', rest);
      match ks[0]
      case Blank =>
      case Skipped =>
      case Start(date, descr) =>
        assert Starts(ks) == [Open(date, descr)] + Starts(rest);
        assert Close(a') + Starts(rest) == Close(a) + Starts(ks);
      case Text(l) =>
        if a.current.Some? {
          ExtendsLast(a.done, a.current.value, " " + l, Starts(rest));
          ExtendsTrans(Close(a) + Starts(rest), Close(a') + Starts(rest), Close(Fold(Step, a', rest)));
        }
    }
  }

  /** One record per date line, in order, with that line's date, both amounts "0", and a
      description that starts with the date line's text and goes on with the lines after it. */
  lemma RecordPerDateLine(lines: seq<Line>)
    ensures |Grouped(lines)| == |Starts(Kinds(lines))|
    ensures forall k :: 0 <= k < |Grouped(lines)| ==>
              Grouped(lines)[k].data == Starts(Kinds(lines))[k].data
              && Grouped(lines)[k].uscite == "0" && Grouped(lines)[k].entrate == "0"
              && StartsWith(Grouped(lines)[k].descrizione, Starts(Kinds(lines))[k].descrizione)
  {
    ScanExtends(Init, Kinds(lines));
    assert Close(Init) + Starts(Kinds(lines)) == Starts(Kinds(lines));
    forall k | 0 <= k < |Starts(Kinds(lines))| ensures Starts(Kinds(lines))[k].uscite == "0" == Starts(Kinds(lines))[k].entrate {
      StartsOpen(Kinds(lines), k);
    }
  }

  lemma {:induction false} StartsOpen(ks: seq<Kind>, k: nat)
    requires k < |Starts(ks)|
    ensures Starts(ks)[k].uscite == "0" && Starts(ks)[k].entrate == "0"
    decreases |ks|
  {
    if ks[0].Start? {
      if k > 0 {
        StartsOpen(ks[1..], k - 1);
      }
    } else {
      StartsOpen(ks[1..], k);
    }
  }

  lemma KindsAppend(xs: seq<Line>, ys: seq<Line>)
    ensures Kinds(xs + ys) == Kinds(xs) + Kinds(ys)
  {
  }

  lemma KindsSplit(pre: seq<Line>, l: Line, rest: seq<Line>)
    ensures Kinds(pre + [l] + rest) == Kinds(pre) + [KindOf(l)] + Kinds(rest)
    ensures Kinds(pre + [l]) == Kinds(pre) + [KindOf(l)]
    ensures Kinds(pre + rest) == Kinds(pre) + Kinds(rest)
  {
    KindsAppend(pre + [l], rest);
    KindsAppend(pre, [l]);
    KindsAppend(pre, rest);
    assert Kinds([l]) == [KindOf(l)];
  }

  /** A blank line, a "Dal giorno"/"TESA" line or a bare page counter changes nothing, wherever
      it stands, even inside a record. */
  lemma FurnitureIgnored(pre: seq<Line>, l: Line, rest: seq<Line>)
    requires Strip(l) == "" || IsSkip(Strip(l))
    ensures Grouped(pre + [l] + rest) == Grouped(pre + rest)
  {
    KindsSplit(pre, l, rest);
    var k := KindOf(l);
    assert k == Blank || k == Skipped;
    assert Step(Fold(Step, Init, Kinds(pre)), k) == Fold(Step, Init, Kinds(pre));
    FoldSnoc(Step, Init, Kinds(pre), k);
    FoldAppend(Step, Init, Kinds(pre) + [k], Kinds(rest));
    FoldAppend(Step, Init, Kinds(pre), Kinds(rest));
  }

  /** Any other line that is no date line is glued to the open record after one space. */
  lemma ContinuationAppends(pre: seq<Line>, l: Line)
    requires Fold(Step, Init, Kinds(pre)).current.Some?
    requires KindOf(l).Text?
    ensures var a, a' := Fold(Step, Init, Kinds(pre)), Fold(Step, Init, Kinds(pre + [l]));
            a'.done == a.done
            && a'.current == Some(a.current.value.(descrizione := a.current.value.descrizione + " " + Strip(l)))
  {
    KindsSplit(pre, l, []);
    FoldSnoc(Step, Init, Kinds(pre), KindOf(l));
  }

  // ---------------------------------------------------------------------------------------------
  // The amount marker

  /** search() finds the leftmost marker: none starts before the one it reports. */
  lemma {:induction false} FirstMarkerLeast(d: string, k: nat, j: nat)
    requires k <= j <= |d|
    requires FirstMarker(d, k).None? || j < FirstMarker(d, k).value.0
    ensures MarkerAt(d, j).None?
    decreases |d| - k
  {
    if k < j {
      FirstMarkerLeast(d, k + 1, j);
    }
  }

  /** The marker search() reports is the one at the least index where the pattern matches. */
  lemma {:induction false} FirstMarkerIs(d: string, k: nat, i: nat, m: Marker)
    requires k <= i <= |d| && MarkerAt(d, i) == Some(m)
    requires forall j :: k <= j < i ==> MarkerAt(d, j).None?
    ensures FirstMarker(d, k) == Some((i, m))
    decreases i - k
  {
    if k < i {
      FirstMarkerIs(d, k + 1, i, m);
    }
  }

  /** search() reports nothing only when the pattern matches nowhere. */
  lemma {:induction false} FirstMarkerNone(d: string, k: nat)
    requires k <= |d|
    requires forall j :: k <= j <= |d| ==> MarkerAt(d, j).None?
    ensures FirstMarker(d, k).None?
    decreases |d| - k
  {
    if k < |d| {
      FirstMarkerNone(d, k + 1);
    }
  }

  /** Where no marker starts at or after `k`, sub() leaves the text alone. */
  lemma {:induction false} RemovedNoMarker(d: string, k: nat)
    requires k <= |d|
    requires forall j :: k <= j <= |d| ==> MarkerAt(d, j).None?
    ensures Removed(d, k) == d[k..]
    decreases |d| - k
  {
    if k < |d| {
      RemovedNoMarker(d, k + 1);
      assert [d[k]] + d[k + 1..] == d[k..];
    }
  }

  /** sub() keeps the text before the first marker, drops the marker, and goes on after it. */
  lemma {:induction false} RemovedUpTo(d: string, k: nat, i: nat, m: Marker)
    requires k <= i <= |d| && MarkerAt(d, i) == Some(m)
    requires forall j :: k <= j < i ==> MarkerAt(d, j).None?
    ensures Removed(d, k) == d[k..i] + Removed(d, m.end)
    decreases i - k
  {
    if k < i {
      RemovedUpTo(d, k + 1, i, m);
      RemovedStep(d, k, i, Removed(d, m.end));
    } else {
      RemovedAtMarker(d, k, m);
    }
  }

  lemma RemovedAtMarker(d: string, i: nat, m: Marker)
    requires i <= |d| && MarkerAt(d, i) == Some(m)
    ensures Removed(d, i) == d[i..i] + Removed(d, m.end)
  {
    RemovedCuts(d, i, m);
    assert d[i..i] == [];
  }

  lemma RemovedStep(d: string, k: nat, i: nat, tail: string)
    requires k < i <= |d| && MarkerAt(d, k).None?
    requires Removed(d, k + 1) == d[k + 1..i] + tail
    ensures Removed(d, k) == d[k..i] + tail
  {
    RemovedKeeps(d, k);
    AppendAssoc([d[k]], d[k + 1..i], tail);
    assert [d[k]] + d[k + 1..i] == d[k..i];
  }

  lemma RemovedKeeps(d: string, k: nat)
    requires k < |d| && MarkerAt(d, k).None?
    ensures Removed(d, k) == [d[k]] + Removed(d, k + 1)
  {
  }

  lemma RemovedCuts(d: string, k: nat, m: Marker)
    requires k <= |d| && MarkerAt(d, k) == Some(m)
    ensures Removed(d, k) == Removed(d, m.end)
  {
  }

  /** The first marker decides the columns: a '+' marker puts the formatted amount in Entrate and
      "0,00" in Uscite, a '-' marker the other way round. The description keeps the text before the marker and
      loses the marker itself. */
  lemma FirstMarkerDecides(t: Transaction, i: nat, m: Marker)
    requires i <= |t.descrizione| && MarkerAt(t.descrizione, i) == Some(m)
    requires forall j :: 0 <= j < i ==> MarkerAt(t.descrizione, j).None?
    ensures Priced(t).data == t.data
    ensures Priced(t).descrizione == SingleLine(Strip(t.descrizione[..i] + Removed(t.descrizione, m.end)))
    ensures m.sign == '+' ==> Priced(t).entrate == FormatFloat(AmountValue(m.amount)) && Priced(t).uscite == "0,00"
    ensures m.sign == '-' ==> Priced(t).uscite == FormatFloat(AmountValue(m.amount)) && Priced(t).entrate == "0,00"
  {
    FirstMarkerIs(t.descrizione, 0, i, m);
    RemovedUpTo(t.descrizione, 0, i, m);
    assert t.descrizione[0..i] == t.descrizione[..i];
  }

  /** A record without any marker keeps its "0" columns and its text, made single-line. */
  lemma NoMarkerKeeps(t: Transaction)
    requires forall j :: 0 <= j <= |t.descrizione| ==> MarkerAt(t.descrizione, j).None?
    ensures Priced(t) == t.(descrizione := SingleLine(t.descrizione))
    ensures Removed(t.descrizione, 0) == t.descrizione
  {
    FirstMarkerNone(t.descrizione, 0);
    RemovedNoMarker(t.descrizione, 0);
  }

  lemma CommaToDot(d: string, f: string)
    requires AllDigits(d) && AllDigits(f)
    ensures ReplaceAll(d + "," + f, ",", ".") == d + "." + f
  {
    ReplaceCharConcat(d + ",", f, ',', ".");
    ReplaceCharConcat(d, ",", ',', ".");
    ReplaceCharAbsent(d, ',', ".");
    ReplaceCharAbsent(f, ',', ".");
    assert ReplaceAll(",", ",", ".") == ".";
  }

  /** The decimal comma is read as a decimal point: "<digits>,<digits>" gives that decimal. */
  lemma DecimalComma(d: string, f: string)
    requires |d| >= 1 && AllDigits(d) && AllDigits(f)
    ensures AllDigits(d + f)
    ensures AmountValue(d + "," + f) == PyFloat(false, DigitsValue(d + f), |f|)
  {
    CommaToDot(d, f);
    PlainDecimal(d, f);
    AmountValueOf(d + "," + f, d + "." + f, PyFloat(false, DigitsValue(d + f), |f|));
  }

  lemma AmountValueOf(g: string, t: string, v: PyFloat)
    requires ReplaceAll(g, ",", ".") == t && ParseFloat(t) == Some(v)
    ensures AmountValue(g) == v
  {
  }

  /** An amount written with both a thousands '.' and a decimal ',' becomes a text with two '.'
      once ',' is replaced, which float() rejects: the record's column then reads "0,00". */
  lemma GroupedAmountDegrades(g: string, i: nat, j: nat)
    requires AmountText(g) && i < |g| && j < |g| && g[i] == '.' && g[j] == ','
    ensures AmountValue(g) == PyFloat(false, 0, 0)
    ensures FormatFloat(AmountValue(g)) == "0,00"
  {
    var t := ReplaceAll(g, ",", ".");
    ReplaceCharPointwise(g, ',', '.');
    assert t[i] == '.' && t[j] == '.';
    assert AmountText(t) by {
      forall k | 0 <= k < |t| ensures IsAmountChar(t[k]) {
        assert IsAmountChar(g[k]);
      }
    }
    if i < j { TwoPointsRejected(t, i, j); } else { TwoPointsRejected(t, j, i); }
    ZeroText();
  }

  /** float() rejects an amount text with two '.'. */
  lemma TwoPointsRejected(t: string, i: nat, j: nat)
    requires AmountText(t) && i < j < |t| && t[i] == '.' && t[j] == '.'
    ensures ParseFloat(t).None?
  {
    assert NoSpace(t) by {
      forall k | 0 <= k < |t| ensures !IsSpace(t[k]) {
        assert IsAmountChar(t[k]);
      }
    }
    StripNoSpace(t);
    assert IsAmountChar(t[0]);
    LiteralOneDot(t, i, j);
  }

  /** What the converter emits: one record per grouped record, with its date; a description that
      is one stripped line; and either both columns still "0" (no marker) or one column "0,00". */
  lemma OutputRecords(lines: seq<Line>)
    ensures |ExtractSpec(lines)| == |Grouped(lines)|
    ensures forall k :: 0 <= k < |Grouped(lines)| ==> OutputRecord(Grouped(lines)[k], ExtractSpec(lines)[k])
  {
    RecordPerDateLine(lines);
    forall k | 0 <= k < |Grouped(lines)| ensures OutputRecord(Grouped(lines)[k], ExtractSpec(lines)[k]) {
      var t := Grouped(lines)[k];
      var d := t.descrizione;
      if FirstMarker(d, 0).None? {
        forall j | 0 <= j <= |d| ensures MarkerAt(d, j).None? {
          FirstMarkerLeast(d, 0, j);
        }
        NoMarkerKeeps(t);
      } else {
        assert MarkerAt(d, FirstMarker(d, 0).value.0).Some?;
      }
    }
  }

  /** The converter's output record `r` for the grouped record `t`. */
  predicate OutputRecord(t: Transaction, r: Transaction) {
    r.data == t.data && IsStripped(r.descrizione) && NoChar(r.descrizione, '\n')
    && ((r.uscite == t.uscite && r.entrate == t.entrate && !HasMarker(t.descrizione))
        || (HasMarker(t.descrizione) && (r.uscite == "0,00" || r.entrate == "0,00")))
  }

  /** The amount pattern matches somewhere in the text. */
  predicate HasMarker(d: string) {
    exists j :: 0 <= j <= |d| && MarkerAt(d, j).Some?
  }
}
