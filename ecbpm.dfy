/** BPM current-account statements read from the PDF text layer (script/EcBPM.py). */
module EcBpm {
  import opened Wrappers
  import opened PyText
  import opened Scan
  import opened Csv
  import opened Amounts

  const PageMarker := "30.09.2024 00393/000000009713 APP *1 *2 *3"

  /** What the boundary pattern captures: the first date, whether a minus sign was present,
      the amount as written and the raw description. */
  datatype Boundary = Boundary(date: string, negative: bool, amount: string, descr: string)

  /** The pattern `^(\d{2}/\d{2}/\d{2})\s+\d{2}/\d{2}/\d{2}\s+\d{2}/\d{2}/\d{2}\s+(-\s*)?([\d\.,]+)\s+(.+)$`
      matched against a stripped line. Every run is taken whole: giving a character back never
      lets the next piece match. */
  function MatchBoundary(s: Line): (r: Option<Boundary>)
    ensures r.Some? ==> DateAt(s, 0, '/', false) && r.value.date == s[..8]
    ensures r.Some? ==> |r.value.amount| >= 1 && forall j :: 0 <= j < |r.value.amount| ==> IsAmountChar(r.value.amount[j])
    ensures r.Some? ==> |r.value.descr| >= 1 && EndsWith(s, r.value.descr)
  {
    match DatesEnd(s)
    case None => None
    case Some(p3) => MatchAmount(s, p3)
  }

  /** The three dates of the pattern, each followed by at least one blank: where the rest begins. */
  function DatesEnd(s: Line): (r: Option<nat>)
    ensures r.Some? ==> DateAt(s, 0, '/', false) && 8 < r.value <= |s|
  {
    if !DateAt(s, 0, '/', false) then None
    else
      var p1 := 8 + Run(s, 8, IsSpace);
      if p1 == 8 || !DateAt(s, p1, '/', false) then None
      else
        var p2 := p1 + 8 + Run(s, p1 + 8, IsSpace);
        if p2 == p1 + 8 || !DateAt(s, p2, '/', false) then None
        else
          var p3 := p2 + 8 + Run(s, p2 + 8, IsSpace);
          if p3 == p2 + 8 then None else Some(p3)
  }

  /** The optional minus sign, the amount and the description, from position `p3` on. */
  function MatchAmount(s: Line, p3: nat): (r: Option<Boundary>)
    requires 8 <= p3 <= |s|
    ensures r.Some? ==> r.value.date == s[..8]
    ensures r.Some? ==> |r.value.amount| >= 1 && forall j :: 0 <= j < |r.value.amount| ==> IsAmountChar(r.value.amount[j])
    ensures r.Some? ==> |r.value.descr| >= 1 && EndsWith(s, r.value.descr)
  {
    var neg := p3 < |s| && s[p3] == '-';
    var p4 := if neg then p3 + 1 + Run(s, p3 + 1, IsSpace) else p3;
    var n := Run(s, p4, IsAmountChar);
    RunSpan(s, p4, IsAmountChar);
    if n == 0 then None
    else
      match SpacedTail(s, p4 + n)
      case None => None
      case Some(d) => Some(Boundary(s[..8], neg, s[p4..p4 + n], d))
  }

  /** `clean_description` up to the literal marker removal: strip; when " pagina" occurs keep the
      text before it and the text after the last "APP *1 *2 *3"; then cut at " INDEX:". */
  function CutPageInfo(d: string): (r: string)
    ensures IsStripped(r)
    ensures !Contains(r, " INDEX:")
  {
    var d1 := Strip(d);
    var d2 := if Contains(d1, " pagina") then
        var before := Strip(BeforeFirst(d1, " pagina"));
        var after := if Contains(d1, "APP *1 *2 *3") then Strip(AfterLast(d1, "APP *1 *2 *3")) else "";
        Strip(before + " " + after)
      else d1;
    if Contains(d2, " INDEX:") then
      var b := BeforeFirst(d2, " INDEX:");
      StripLacks(b, " INDEX:");
      Strip(b)
    else d2
  }

  /** `clean_description`: the page-change cut, then every page marker removed, then a strip. */
  function CleanDescription(d: string): (r: string)
    ensures IsStripped(r)
  {
    Strip(ReplaceAll(CutPageInfo(d), PageMarker, ""))
  }

  /** A description without page-change text is only stripped. */
  lemma CleanPlain(d: string)
    requires !Contains(Strip(d), " pagina") && !Contains(Strip(d), " INDEX:") && !Contains(Strip(d), PageMarker)
    ensures CleanDescription(d) == Strip(d)
  {
    assert CutPageInfo(d) == Strip(d);
    ReplaceAbsent(Strip(d), PageMarker, "");
    StripKeepsStripped(Strip(d));
  }

  /** Without a page marker, the cleaned text never holds " INDEX:". */
  lemma CleanCutsIndex(d: string)
    requires !Contains(CutPageInfo(d), PageMarker)
    ensures CleanDescription(d) == CutPageInfo(d)
    ensures !Contains(CleanDescription(d), " INDEX:")
  {
    ReplaceAbsent(CutPageInfo(d), PageMarker, "");
    StripKeepsStripped(CutPageInfo(d));
  }

  /** A record opened on a boundary: a minus sign puts the amount under Uscite, otherwise under
      Entrate; the other column is "0". */
  function Open(b: Boundary): (t: Transaction)
    ensures t.data == b.date && t.descrizione == CleanDescription(b.descr)
    ensures b.negative ==> t.uscite == b.amount && t.entrate == "0"
    ensures !b.negative ==> t.uscite == "0" && t.entrate == b.amount
  {
    Transaction(b.date, CleanDescription(b.descr), if b.negative then b.amount else "0", if b.negative then "0" else b.amount)
  }

  /** What one line of the statement is to the scanner, judged on the stripped line alone. */
  datatype Kind =
    | Blank
    | Stop
    | Start(b: Boundary, t: Transaction)
    | Text(l: string, skip: bool)

  /** The phrases that end the list of movements. */
  const StopPhrases: seq<string> :=
    ["SALDO FINALE", "Saldo contabile finale", "Saldo liquido finale", "Totale numeri del periodo"]

  /** The phrases that keep a line out of every description. */
  const SkipPhrases: seq<string> :=
    ["pagina", "INDEX:", "Data di riferimento", "ATM DATA", "USCITE",
     "ENTRATE", "WEB CONTABILE", "NUMERI A DEBITO", "NUMERI A CREDITO",
     "RIASSUNTO SCALARE", "INTERESSI MATURATI", "RIEPILOGO", "DECORRENZA",
     "COMPETENZE LIQUIDATE", "TOTALE", "FONDO INTERBANCARIO",
     "30.09.2024 00393/000000009713", "APP *1 *2 *3"]

  predicate IsStop(l: string) {
    HasAny(l, StopPhrases)
  }

  predicate IsSkipped(l: string) {
    HasAny(l, SkipPhrases)
  }

  function KindOf(line: Line): (k: Kind)
    ensures k.Text? ==> k.l == Strip(line) && k.l != "" && (k.skip <==> IsSkipped(k.l))
    ensures k.Start? ==> k.t == Open(k.b)
  {
    StripLine(line);
    var l := Strip(line);
    if l == "" then Blank
    else if IsStop(l) then Stop
    else match MatchBoundary(l)
      case Some(b) => Start(b, Open(b))
      case None => Text(l, IsSkipped(l))
  }

  function Kinds(lines: seq<Line>): (ks: seq<Kind>)
    ensures |ks| == |lines| && forall i :: 0 <= i < |lines| ==> ks[i] == KindOf(lines[i])
  {
    seq(|lines|, i requires 0 <= i < |lines| => KindOf(lines[i]))
  }

  lemma KindsAppend(xs: seq<Line>, ys: seq<Line>)
    ensures Kinds(xs + ys) == Kinds(xs) + Kinds(ys)
  {
    var l, r := Kinds(xs + ys), Kinds(xs) + Kinds(ys);
    assert |l| == |r|;
    forall i | 0 <= i < |l|
      ensures l[i] == r[i]
    {
      if i < |xs| {
        assert (xs + ys)[i] == xs[i];
      } else {
        assert (xs + ys)[i] == ys[i - |xs|];
      }
    }
  }

  /** Scanner state: the records emitted so far, the one being built, and whether no stop line
      has been seen yet. */
  datatype State = State(done: seq<Transaction>, current: Option<Transaction>, parsing: bool)

  const Init := State([], None, true)

  /** The records a state stands for once the input ends. */
  function Close(st: State): seq<Transaction> {
    st.done + (if st.current.Some? then [st.current.value] else [])
  }

  /** One pass of the loop in `extract_transactions_from_text`. A stop line emits the open record
      and ends the scan; a boundary emits it and opens a new one; other text is glued to the open
      record unless it holds a skip phrase. */
  function Step(st: State, k: Kind): State {
    if !st.parsing then st
    else match k
      case Blank => st
      case Stop => State(Close(st), None, false)
      case Start(_, t) => State(Close(st), Some(t), true)
      case Text(l, skip) =>
        if st.current.Some? && !skip then
          st.(current := Some(st.current.value.(descrizione := st.current.value.descrizione + " " + l)))
        else st
  }

  /** The records `extract_transactions_from_text` returns for the lines of a statement. */
  function Extract(lines: seq<Line>): seq<Transaction> {
    Close(Fold(Step, Init, Kinds(lines)))
  }

  /** Once the input is used up or a stop line is met, the records are those of the state reached. */
  lemma Finish(ks: seq<Kind>, i: nat, st: State)
    requires i <= |ks| && Fold(Step, Init, ks[..i]) == st && (st.parsing ==> i == |ks|)
    ensures Close(Fold(Step, Init, ks)) == Close(st)
  {
    FoldAppend(Step, Init, ks[..i], ks[i..]);
    assert ks[..i] + ks[i..] == ks;
    if !st.parsing {
      FoldFixpoint(Step, st, ks[i..]);
    } else {
      assert ks[i..] == [];
    }
  }

  /** The body of the loop in `extract_transactions_from_text`, for one line read while parsing. */
  method ScanLine(line: Line, transactions: seq<Transaction>, current: Option<Transaction>)
    returns (transactions': seq<Transaction>, current': Option<Transaction>, parsing': bool)
    ensures State(transactions', current', parsing') == Step(State(transactions, current, true), KindOf(line))
    ensures !parsing' ==> current'.None?
  {
    transactions', current', parsing' := transactions, current, true;
    StripLine(line);
    var l := Strip(line);
    if l == "" {
      return;
    }
    if IsStop(l) {
      if current'.Some? {
        transactions' := transactions' + [current'.value];
        current' := None;
      }
      parsing' := false;
      return;
    }
    var m := MatchBoundary(l);
    if m.Some? {
      if current'.Some? {
        transactions' := transactions' + [current'.value];
      }
      current' := Some(Open(m.value));
    } else if current'.Some? && !IsSkipped(l) {
      current' := Some(current'.value.(descrizione := current'.value.descrizione + " " + l));
    }
  }

  /** `extract_transactions_from_text`, over the lines of the PDF text. */
  method ExtractTransactionsFromText(lines: seq<Line>) returns (transactions: seq<Transaction>)
    ensures transactions == Extract(lines)
  {
    ghost var ks := Kinds(lines);
    transactions := [];
    var current: Option<Transaction> := None;
    var parsing := true;
    var i := 0;
    while i < |lines| && parsing
      invariant 0 <= i <= |lines|
      invariant Fold(Step, Init, ks[..i]) == State(transactions, current, parsing)
      invariant !parsing ==> current.None?
    {
      transactions, current, parsing := ScanLine(lines[i], transactions, current);
      FoldTake(Step, Init, ks, i);
      i := i + 1;
    }
    Finish(ks, i, State(transactions, current, parsing));
    if current.Some? {
      transactions := transactions + [current.value];
    }
  }

  /** `process_pdf` after text extraction: the extracted records, descriptions flattened in
      place, written under the four-column header. */
  method ProcessPdf(lines: seq<Line>) returns (rows: seq<seq<string>>)
    ensures rows == Table(Flattened(Extract(lines)))
    ensures forall k :: 1 <= k < |rows| ==> NoChar(rows[k][1], '\n') && IsStripped(rows[k][1])
  {
    var transactions := ExtractTransactionsFromText(lines);
    transactions := FlattenDescriptions(transactions);
    rows := Table(transactions);
  }

  // ---------------------------------------------------------------------------------------------
  // Properties of the scanner

  /** The boundaries the scanner meets before the first stop line, in order. */
  function Boundaries(ks: seq<Kind>): seq<Boundary>
    decreases |ks|
  {
    if ks == [] then []
    else match ks[0]
      case Stop => []
      case Start(b, _) => [b] + Boundaries(ks[1..])
      case _ => Boundaries(ks[1..])
  }

  /** The records opened before the first stop line, in order, before any continuation text. */
  function Opened(ks: seq<Kind>): seq<Transaction>
    decreases |ks|
  {
    if ks == [] then []
    else match ks[0]
      case Stop => []
      case Start(_, t) => [t] + Opened(ks[1..])
      case _ => Opened(ks[1..])
  }

  /** Every boundary kind opens the record its boundary describes. */
  predicate Consistent(ks: seq<Kind>) {
    forall i :: 0 <= i < |ks| && ks[i].Start? ==> ks[i].t == Open(ks[i].b)
  }

  lemma {:induction false} OpenedBoundaries(ks: seq<Kind>)
    requires Consistent(ks)
    ensures |Opened(ks)| == |Boundaries(ks)|
    ensures forall k :: 0 <= k < |Opened(ks)| ==> Opened(ks)[k] == Open(Boundaries(ks)[k])
    decreases |ks|
  {
    if ks != [] {
      assert Consistent(ks[1..]) by {
        forall i | 0 <= i < |ks| - 1 && ks[1..][i].Start? ensures ks[1..][i].t == Open(ks[1..][i].b) {
          assert ks[1..][i] == ks[i + 1];
        }
      }
      OpenedBoundaries(ks[1..]);
      if ks[0].Start? {
        assert Opened(ks) == [ks[0].t] + Opened(ks[1..]);
        assert Boundaries(ks) == [ks[0].b] + Boundaries(ks[1..]);
        assert ks[0].t == Open(ks[0].b);
      } else if !ks[0].Stop? {
        assert Opened(ks) == Opened(ks[1..]) && Boundaries(ks) == Boundaries(ks[1..]);
      }
    }
  }

  lemma {:induction false} ScanExtends(st: State, ks: seq<Kind>)
    requires st.parsing
    ensures Extends(Close(st) + Opened(ks), Close(Fold(Step, st, ks)))
    decreases |ks|
  {
    if ks == [] {
      assert Close(st) + [] == Close(st);
      ExtendsRefl(Close(st));
    } else {
      var st' := Step(st, ks[0]);
      var rest := ks[1..];
      assert Fold(Step, st, ks) == Fold(Step, st', rest);
      match ks[0]
      case Blank =>
        ScanExtends(st, rest);
      case Stop =>
        FoldFixpoint(Step, st', rest);
        assert Close(st) + [] == Close(st);
        ExtendsRefl(Close(st));
      case Start(_, t) =>
        ScanExtends(st', rest);
        OpenShift(st, ks);
      case Text(l, skip) =>
        ScanExtends(st', rest);
        if st.current.Some? && !skip {
          TextExtends(st, ks);
          ExtendsTrans(Close(st) + Opened(ks), Close(st') + Opened(rest), Close(Fold(Step, st', rest)));
        }
    }
  }

  lemma OpenShift(st: State, ks: seq<Kind>)
    requires st.parsing && ks != [] && ks[0].Start?
    ensures Close(Step(st, ks[0])) + Opened(ks[1..]) == Close(st) + Opened(ks)
  {
    assert Close(Step(st, ks[0])) == Close(st) + [ks[0].t];
    assert Opened(ks) == [ks[0].t] + Opened(ks[1..]);
    AppendAssoc(Close(st), [ks[0].t], Opened(ks[1..]));
  }

  lemma TextExtends(st: State, ks: seq<Kind>)
    requires st.parsing && st.current.Some? && ks != [] && ks[0].Text? && !ks[0].skip
    ensures Extends(Close(st) + Opened(ks), Close(Step(st, ks[0])) + Opened(ks[1..]))
  {
    var t := st.current.value;
    assert Opened(ks) == Opened(ks[1..]);
    assert Close(Step(st, ks[0])) == st.done + [t.(descrizione := t.descrizione + " " + ks[0].l)];
    ExtendsLast(st.done, t, " " + ks[0].l, Opened(ks[1..]));
  }

  /** One record per boundary line before the first stop line, in the same order, with that
      line's date and amounts; its description starts with the boundary's cleaned description. */
  lemma RecordPerBoundary(lines: seq<Line>)
    ensures var bs := Boundaries(Kinds(lines));
            |Extract(lines)| == |bs|
            && forall k :: 0 <= k < |bs| ==>
              var t, b := Extract(lines)[k], bs[k];
              t.data == b.date
              && t.uscite == (if b.negative then b.amount else "0")
              && t.entrate == (if b.negative then "0" else b.amount)
              && StartsWith(t.descrizione, CleanDescription(b.descr))
  {
    var ks := Kinds(lines);
    ScanFromInit(ks);
    KindsConsistent(lines);
    OpenedBoundaries(ks);
    forall k | 0 <= k < |Boundaries(ks)|
      ensures StartsWith(Extract(lines)[k].descrizione, CleanDescription(Boundaries(ks)[k].descr))
    {
      assert Opened(ks)[k] == Open(Boundaries(ks)[k]);
    }
  }

  lemma ScanFromInit(ks: seq<Kind>)
    ensures Extends(Opened(ks), Close(Fold(Step, Init, ks)))
  {
    ScanExtends(Init, ks);
    assert Close(Init) + Opened(ks) == Opened(ks);
  }

  lemma KindsConsistent(lines: seq<Line>)
    ensures Consistent(Kinds(lines))
  {
    var ks := Kinds(lines);
    forall i | 0 <= i < |ks| && ks[i].Start? ensures ks[i].t == Open(ks[i].b) {
      assert ks[i] == KindOf(lines[i]);
    }
  }

  /** A stop line ends the scan: nothing after it matters. */
  lemma StopEndsScan(pre: seq<Kind>, rest: seq<Kind>)
    ensures Close(Fold(Step, Init, pre + [Stop] + rest)) == Close(Fold(Step, Init, pre + [Stop]))
  {
    var st := Fold(Step, Init, pre + [Stop]);
    FoldSnoc(Step, Init, pre, Stop);
    FoldAppend(Step, Init, pre + [Stop], rest);
    FoldFixpoint(Step, st, rest);
  }

  /** A kind that leaves the state as it is can be dropped. */
  lemma NeutralDropped(pre: seq<Kind>, k: Kind, rest: seq<Kind>)
    requires Step(Fold(Step, Init, pre), k) == Fold(Step, Init, pre)
    ensures Close(Fold(Step, Init, pre + [k] + rest)) == Close(Fold(Step, Init, pre + rest))
  {
    FoldSnoc(Step, Init, pre, k);
    FoldAppend(Step, Init, pre + [k], rest);
    FoldAppend(Step, Init, pre, rest);
  }

  lemma KindsSnoc(pre: seq<Line>, l: Line)
    ensures Kinds(pre + [l]) == Kinds(pre) + [KindOf(l)]
  {
    KindsAppend(pre, [l]);
    assert Kinds([l]) == [KindOf(l)];
  }

  lemma KindsSplit(pre: seq<Line>, l: Line, rest: seq<Line>)
    ensures Kinds(pre + [l] + rest) == Kinds(pre) + [KindOf(l)] + Kinds(rest)
    ensures Kinds(pre + [l]) == Kinds(pre) + [KindOf(l)]
  {
    KindsAppend(pre + [l], rest);
    KindsAppend(pre, [l]);
    assert Kinds([l]) == [KindOf(l)];
  }

  lemma StopIgnoresRest(pre: seq<Line>, l: Line, rest: seq<Line>)
    requires KindOf(l) == Stop
    ensures Extract(pre + [l] + rest) == Extract(pre + [l])
  {
    KindsSplit(pre, l, rest);
    StopEndsScan(Kinds(pre), Kinds(rest));
  }

  /** A stop line emits the record under construction and nothing else. */
  lemma StopEmits(pre: seq<Line>, l: Line)
    requires Fold(Step, Init, Kinds(pre)).parsing
    requires KindOf(l) == Stop
    ensures Extract(pre + [l]) == Close(Fold(Step, Init, Kinds(pre)))
  {
    KindsSplit(pre, l, []);
    FoldSnoc(Step, Init, Kinds(pre), Stop);
  }

  /** A line that strips to nothing changes nothing. */
  lemma BlankIgnored(pre: seq<Line>, l: Line, rest: seq<Line>)
    requires Strip(l) == ""
    ensures Extract(pre + [l] + rest) == Extract(pre + rest)
  {
    KindsSplit(pre, l, rest);
    KindsAppend(pre, rest);
    assert KindOf(l) == Blank;
    NeutralDropped(Kinds(pre), Blank, Kinds(rest));
  }

  /** A line that is neither blank, a stop line nor a boundary, and holds no skip phrase, is
      appended to the open record's description after one space. */
  lemma ContinuationAppends(pre: seq<Line>, l: Line)
    requires var st := Fold(Step, Init, Kinds(pre)); st.parsing && st.current.Some?
    requires KindOf(l).Text? && !KindOf(l).skip
    ensures var st, st' := Fold(Step, Init, Kinds(pre)), Fold(Step, Init, Kinds(pre + [l]));
            st'.done == st.done && st'.parsing
            && st'.current == Some(st.current.value.(descrizione := st.current.value.descrizione + " " + Strip(l)))
  {
    var st, k := Fold(Step, Init, Kinds(pre)), KindOf(l);
    KindsSnoc(pre, l);
    FoldSnoc(Step, Init, Kinds(pre), k);
    assert k == Text(Strip(l), false);
    StepText(st, Strip(l));
  }

  lemma StepText(st: State, l: string)
    requires st.parsing && st.current.Some?
    ensures var t := st.current.value;
            Step(st, Text(l, false)) == State(st.done, Some(t.(descrizione := t.descrizione + " " + l)), true)
  {
  }

  /** A line with a skip phrase that is no boundary never reaches a description. */
  lemma SkipIgnored(pre: seq<Line>, l: Line, rest: seq<Line>)
    requires KindOf(l).Text? && KindOf(l).skip
    ensures Extract(pre + [l] + rest) == Extract(pre + rest)
  {
    KindsSplit(pre, l, rest);
    KindsAppend(pre, rest);
    NeutralDropped(Kinds(pre), KindOf(l), Kinds(rest));
  }

  // ---------------------------------------------------------------------------------------------
  // The boundary layout

  /** A statement line in the layout the pattern describes, built from its parts. */
  function BoundaryLine(b: Boundary, d2: string, d3: string): string {
    b.date + " " + d2 + " " + d3 + " " + (if b.negative then "-" else "") + b.amount + " " + b.descr
  }

  predicate WellFormed(b: Boundary, d2: string, d3: string) {
    |b.date| == 8 && DateAt(b.date, 0, '/', false) && |d2| == 8 && DateAt(d2, 0, '/', false)
    && |d3| == 8 && DateAt(d3, 0, '/', false)
    && |b.amount| >= 1 && (forall j :: 0 <= j < |b.amount| ==> IsAmountChar(b.amount[j]))
    && |b.descr| >= 1 && IsLine(b.descr) && !IsSpace(b.descr[0])
  }

  lemma BoundaryLineIsLine(b: Boundary, d2: string, d3: string)
    requires WellFormed(b, d2, d3)
    ensures IsLine(BoundaryLine(b, d2, d3))
  {
    var sg := if b.negative then "-" else "";
    DateIsLine(b.date);
    DateIsLine(d2);
    DateIsLine(d3);
    AmountIsLine(b.amount);
    assert IsLine(" ") && IsLine(sg);
    var x := b.date + " ";
    LineConcat(b.date, " ");
    LineConcat(x, d2);
    LineConcat(x + d2, " ");
    x := x + d2 + " ";
    LineConcat(x, d3);
    LineConcat(x + d3, " ");
    x := x + d3 + " ";
    LineConcat(x, sg);
    LineConcat(x + sg, b.amount);
    LineConcat(x + sg + b.amount, " ");
    x := x + sg + b.amount + " ";
    LineConcat(x, b.descr);
  }

  /** The three dates at the head of a boundary line, each followed by one space. */
  lemma DatesHead(s: string, x: string, y: string, z: string)
    requires |x| == 8 && |y| == 8 && |z| == 8
    requires DateAt(x, 0, '/', false) && DateAt(y, 0, '/', false) && DateAt(z, 0, '/', false)
    requires 27 <= |s| && s[..27] == x + " " + y + " " + z + " "
    ensures DateAt(s, 0, '/', false) && DateAt(s, 9, '/', false) && DateAt(s, 18, '/', false)
    ensures s[..8] == x && s[8] == ' ' && s[17] == ' ' && s[26] == ' '
  {
    var h := s[..27];
    assert forall i :: 0 <= i < 27 ==> s[i] == h[i];
    assert forall i :: 0 <= i < 8 ==> h[i] == x[i] && h[9 + i] == y[i] && h[18 + i] == z[i];
    assert s[..8] == h[..8];
  }

  /** The amount and the description after it, separated by one space. */
  lemma AmountTail(s: Line, p: nat, amount: string, descr: string)
    requires p <= |s| && s[p..] == amount + " " + descr
    requires |amount| >= 1 && forall j :: 0 <= j < |amount| ==> IsAmountChar(amount[j])
    requires |descr| >= 1 && !IsSpace(descr[0])
    ensures Run(s, p, IsAmountChar) == |amount| && s[p..p + |amount|] == amount
    ensures SpacedTail(s, p + |amount|) == Some(descr)
  {
    var n := |amount|;
    var t := s[p..];
    assert forall j :: 0 <= j < n ==> s[p + j] == t[j] == amount[j];
    assert s[p + n] == ' ' && s[p + n + 1] == descr[0];
    RunAt(s, p, n, IsAmountChar);
    RunAt(s, p + n, 1, IsSpace);
    assert s[p + n + 1..] == t[n + 1..] == descr;
    assert s[p..p + n] == t[..n];
  }

  /** The pattern's verdict on a line whose pieces are known to lie at the usual places. */
  lemma MatchBoundaryAt(s: Line, neg: bool, p4: nat, n: nat, d: string)
    requires DateAt(s, 0, '/', false) && DateAt(s, 9, '/', false) && DateAt(s, 18, '/', false)
    requires Run(s, 8, IsSpace) == 1 && Run(s, 17, IsSpace) == 1 && Run(s, 26, IsSpace) == 1
    requires 27 < |s| && (s[27] == '-') == neg
    requires p4 == (if neg then 28 + Run(s, 28, IsSpace) else 27)
    requires p4 <= |s| && Run(s, p4, IsAmountChar) == n && n >= 1
    requires SpacedTail(s, p4 + n) == Some(d)
    ensures MatchBoundary(s) == Some(Boundary(s[..8], neg, s[p4..p4 + n], d))
  {
    DatesEndAt(s);
    MatchAmountAt(s, neg, p4, n, d);
  }

  lemma DatesEndAt(s: Line)
    requires DateAt(s, 0, '/', false) && DateAt(s, 9, '/', false) && DateAt(s, 18, '/', false)
    requires Run(s, 8, IsSpace) == 1 && Run(s, 17, IsSpace) == 1 && Run(s, 26, IsSpace) == 1
    ensures DatesEnd(s) == Some(27)
  {
  }

  lemma MatchAmountAt(s: Line, neg: bool, p4: nat, n: nat, d: string)
    requires 27 < |s| && (s[27] == '-') == neg
    requires p4 == (if neg then 28 + Run(s, 28, IsSpace) else 27)
    requires p4 <= |s| && Run(s, p4, IsAmountChar) == n && n >= 1
    requires SpacedTail(s, p4 + n) == Some(d)
    ensures MatchAmount(s, 27) == Some(Boundary(s[..8], neg, s[p4..p4 + n], d))
  {
  }

  /** Where the parts of a boundary line lie. */
  lemma BoundaryLineLayout(b: Boundary, d2: string, d3: string)
    requires |b.date| == 8 && |d2| == 8 && |d3| == 8
    ensures var s, sg := BoundaryLine(b, d2, d3), if b.negative then "-" else "";
            |s| >= 27 + |sg| && s[..27] == b.date + " " + d2 + " " + d3 + " "
            && s[27 + |sg|..] == b.amount + " " + b.descr
            && (b.negative ==> s[27] == '-')
            && (|b.amount| > 0 ==> s[27 + |sg|] == b.amount[0])
  {
    var s, sg := BoundaryLine(b, d2, d3), if b.negative then "-" else "";
    var head := b.date + " " + d2 + " " + d3 + " ";
    var tail := b.amount + " " + b.descr;
    assert s == head + (sg + tail);
    assert s[27..] == sg + tail;
  }

  /** The dates of a boundary line and the single spaces after them. */
  lemma BoundaryLineDates(b: Boundary, d2: string, d3: string)
    requires WellFormed(b, d2, d3)
    ensures var s := BoundaryLine(b, d2, d3);
            DateAt(s, 0, '/', false) && DateAt(s, 9, '/', false) && DateAt(s, 18, '/', false)
            && Run(s, 8, IsSpace) == 1 && Run(s, 17, IsSpace) == 1 && Run(s, 26, IsSpace) == 1
            && s[..8] == b.date
  {
    var s := BoundaryLine(b, d2, d3);
    BoundaryLineHead(b, d2, d3);
    DatesHead(s, b.date, d2, d3);
    RunAt(s, 8, 1, IsSpace);
    RunAt(s, 17, 1, IsSpace);
    RunAt(s, 26, 1, IsSpace);
  }

  /** The head of a boundary line: its three dates, and no blank after the third space. */
  lemma BoundaryLineHead(b: Boundary, d2: string, d3: string)
    requires WellFormed(b, d2, d3)
    ensures var s := BoundaryLine(b, d2, d3);
            27 < |s| && s[..27] == b.date + " " + d2 + " " + d3 + " " && !IsSpace(s[27])
  {
    var s := BoundaryLine(b, d2, d3);
    BoundaryLineLayout(b, d2, d3);
    assert s[27] == '-' || s[27] == b.amount[0];
  }

  /** The sign of a boundary line and where its amount begins. */
  lemma BoundaryLineSign(b: Boundary, d2: string, d3: string)
    requires WellFormed(b, d2, d3)
    ensures var s, p4 := BoundaryLine(b, d2, d3), if b.negative then 28 else 27;
            27 < |s| && (s[27] == '-') == b.negative
            && p4 == (if b.negative then 28 + Run(s, 28, IsSpace) else 27)
  {
    var s := BoundaryLine(b, d2, d3);
    BoundaryLineLayout(b, d2, d3);
    if b.negative {
      assert s[28] == b.amount[0];
      RunAt(s, 28, 0, IsSpace);
    } else {
      assert IsAmountChar(s[27]);
    }
  }

  /** Any line written in the boundary layout is recognised, with exactly its parts. */
  lemma BoundaryLineMatches(b: Boundary, d2: string, d3: string)
    requires WellFormed(b, d2, d3)
    ensures IsLine(BoundaryLine(b, d2, d3))
    ensures MatchBoundary(BoundaryLine(b, d2, d3)) == Some(b)
  {
    BoundaryLineIsLine(b, d2, d3);
    var s: Line := BoundaryLine(b, d2, d3);
    BoundaryLineFront(b, d2, d3, s);
    BoundaryLineBack(b, d2, d3, s);
    MatchLaidOut(s, b);
  }

  /** A line holding the pieces of a boundary where the pattern looks for them matches it. */
  lemma MatchLaidOut(s: Line, b: Boundary)
    requires var p4 := if b.negative then 28 else 27;
      DateAt(s, 0, '/', false) && DateAt(s, 9, '/', false) && DateAt(s, 18, '/', false)
      && Run(s, 8, IsSpace) == 1 && Run(s, 17, IsSpace) == 1 && Run(s, 26, IsSpace) == 1
      && 27 < |s| && (s[27] == '-') == b.negative
      && p4 == (if b.negative then 28 + Run(s, 28, IsSpace) else 27)
      && p4 <= |s| && Run(s, p4, IsAmountChar) == |b.amount| && |b.amount| >= 1
      && SpacedTail(s, p4 + |b.amount|) == Some(b.descr)
      && s[..8] == b.date && s[p4..p4 + |b.amount|] == b.amount
    ensures MatchBoundary(s) == Some(b)
  {
    MatchBoundaryAt(s, b.negative, if b.negative then 28 else 27, |b.amount|, b.descr);
  }

  /** The head of a boundary line, where the pattern looks for its dates. */
  lemma BoundaryLineFront(b: Boundary, d2: string, d3: string, s: Line)
    requires WellFormed(b, d2, d3) && s == BoundaryLine(b, d2, d3)
    ensures DateAt(s, 0, '/', false) && DateAt(s, 9, '/', false) && DateAt(s, 18, '/', false)
    ensures Run(s, 8, IsSpace) == 1 && Run(s, 17, IsSpace) == 1 && Run(s, 26, IsSpace) == 1
    ensures s[..8] == b.date
  {
    BoundaryLineDates(b, d2, d3);
  }

  /** The rest of a boundary line, where the pattern looks for its sign, amount and description. */
  lemma BoundaryLineBack(b: Boundary, d2: string, d3: string, s: Line)
    requires WellFormed(b, d2, d3) && s == BoundaryLine(b, d2, d3)
    ensures var p4 := if b.negative then 28 else 27;
      27 < |s| && (s[27] == '-') == b.negative
      && p4 == (if b.negative then 28 + Run(s, 28, IsSpace) else 27)
      && p4 <= |s| && Run(s, p4, IsAmountChar) == |b.amount| && |b.amount| >= 1
      && SpacedTail(s, p4 + |b.amount|) == Some(b.descr)
      && s[p4..p4 + |b.amount|] == b.amount
  {
    BoundaryLineAmount(b, d2, d3);
    AmountTail(s, if b.negative then 28 else 27, b.amount, b.descr);
    BoundaryLineSign(b, d2, d3);
  }

  /** The amount of a boundary line and what follows it. */
  lemma BoundaryLineAmount(b: Boundary, d2: string, d3: string)
    requires WellFormed(b, d2, d3)
    ensures var s, p4 := BoundaryLine(b, d2, d3), if b.negative then 28 else 27;
            p4 <= |s| && s[p4..] == b.amount + " " + b.descr
  {
    BoundaryLineLayout(b, d2, d3);
  }
}
