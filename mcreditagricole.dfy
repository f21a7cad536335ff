/** The Crédit Agricole account summary ("mCreditAgricole"), read from the text of all pages
    joined by blank lines: one record per dated line that ends in an amount, then at most one
    record for the stamp duty ("Impostadibollo") listed under the movements summary. */
module MCreditAgricole {
  import opened Wrappers
  import opened Scan
  import opened PyText
  import opened Amounts
  import opened Csv

  /** `format_number`: the European numeral read as a float and printed in the canonical form;
      a text float() rejects is returned unchanged. */
  function FormatNumber(s: string): (r: string)
    ensures ParseFloat(EuToPy(s)).None? ==> r == s
  {
    match ParseFloat(EuToPy(s))
    case None => s
    case Some(f) => FormatFloat(f)
  }

  /** The canonical text is a fixed point of `format_number`. */
  lemma FormatNumberCanonical(neg: bool, c: nat)
    ensures FormatNumber(FormatCents(neg, c)) == FormatCents(neg, c)
  {
    FormatParseRoundTrip(neg, c);
  }

  // ---------------------------------------------------------------------------------------------
  // The transaction line `^(\d{2}/\d{2}/\d{2})\s+(.+?)\s+(-?[\d\.,]+)\s*$`

  /** The tail `\s+(-?[\d\.,]+)\s*$` matches from index `p` to the end of the line. Each run is
      taken whole, and giving a character back never lets the next piece match. */
  predicate TailAt(s: string, p: nat)
    requires p <= |s|
  {
    var k := Run(s, p, IsSpace);
    var q := p + k;
    var q1 := if q < |s| && s[q] == '-' then q + 1 else q;
    var n := Run(s, q1, IsAmountChar);
    k >= 1 && n >= 1 && q1 + n + Run(s, q1 + n, IsSpace) == |s|
  }

  /** Group 3 of a tail found at `p`: the optional minus and the numeral. */
  function TailAmount(s: string, p: nat): (a: string)
    requires p <= |s| && TailAt(s, p)
    ensures |a| >= 1
  {
    var q := p + Run(s, p, IsSpace);
    var q1 := if q < |s| && s[q] == '-' then q + 1 else q;
    s[q..q1 + Run(s, q1, IsAmountChar)]
  }

  /** The lazy `(.+?)`: the first index at or after `p` where the tail matches. */
  function FirstTail(s: string, p: nat): (r: Option<nat>)
    requires p <= |s|
    ensures r.Some? ==> p <= r.value <= |s| && TailAt(s, r.value)
    decreases |s| - p
  {
    if TailAt(s, p) then Some(p)
    else if p == |s| then None
    else FirstTail(s, p + 1)
  }

  /** No tail starts between `p` and the one FirstTail finds. */
  lemma {:induction false} FirstTailLeast(s: string, p: nat)
    requires p <= |s|
    ensures forall j :: p <= j <= |s| && (FirstTail(s, p).None? || j < FirstTail(s, p).value) ==> !TailAt(s, j)
    decreases |s| - p
  {
    if !TailAt(s, p) && p < |s| {
      FirstTailLeast(s, p + 1);
    }
  }

  /** The three groups of a matched line. */
  datatype LineMatch = LineMatch(date: string, descr: string, amount: string)

  /** `pattern.match(line)`. The greedy `\s+` after the date first takes its whole run and the
      lazy description then grows until the tail matches. When no tail follows the whole run,
      the engine gives back whitespace: the only tail it can then reach starts inside that run,
      which needs at least three whitespace characters and leaves a one-character, blank
      description. */
  function MatchLine(s: Line): (r: Option<LineMatch>)
    ensures r.Some? ==> DateAt(s, 0, '/', false) && r.value.date == s[..8] && |r.value.descr| >= 1
  {
    if !DateAt(s, 0, '/', false) then None
    else
      var m := Run(s, 8, IsSpace);
      if m == 0 then None
      else match if 9 + m <= |s| then FirstTail(s, 9 + m) else None
        case Some(p) => Some(LineMatch(s[..8], s[8 + m..p], TailAmount(s, p)))
        case None =>
          if m >= 3 && TailAt(s, 7 + m) then Some(LineMatch(s[..8], s[6 + m..7 + m], TailAmount(s, 7 + m)))
          else None
  }

  /** The record of a matched line: a leading minus routes the amount to "Entrate", otherwise it
      goes to "Uscite"; the other side is "0". */
  function LineRecord(s: Line): (r: Option<Transaction>)
    ensures r.Some? <==> MatchLine(s).Some?
    ensures r.Some? ==> r.value.data == MatchLine(s).value.date
                        && r.value.descrizione == Strip(MatchLine(s).value.descr)
  {
    match MatchLine(s)
    case None => None
    case Some(m) =>
      var a := Strip(m.amount);
      if StartsWith(a, "-") then Some(Transaction(m.date, Strip(m.descr), "0", FormatNumber(a[1..])))
      else Some(Transaction(m.date, Strip(m.descr), FormatNumber(a), "0"))
  }

  /** `extract_transactions`: one record per matching line, in order. */
  method ExtractTransactions(lines: seq<Line>) returns (transactions: seq<Transaction>)
    ensures transactions == FilterMap(LineRecord, lines)
  {
    transactions := [];
    var i := 0;
    while i < |lines|
      invariant 0 <= i <= |lines|
      invariant transactions == FilterMap(LineRecord, lines[..i])
    {
      FilterMapTake(LineRecord, lines, i);
      var m := MatchLine(lines[i]);
      if m.Some? {
        var date := m.value.date;
        var description := Strip(m.value.descr);
        var amountStr := Strip(m.value.amount);
        var uscite, entrate;
        if StartsWith(amountStr, "-") {
          uscite, entrate := "0", FormatNumber(amountStr[1..]);
        } else {
          uscite, entrate := FormatNumber(amountStr), "0";
        }
        transactions := transactions + [Transaction(date, description, uscite, entrate)];
      }
      i := i + 1;
    }
    assert lines[..i] == lines;
  }

  // ---------------------------------------------------------------------------------------------
  // The stamp-duty summary

  const SummaryHeading := "RIEPILOGO DEI SUOI MOVIMENTI"
  const StampLabel := "Impostadibollo"

  /** How many lines from the heading on the summary is searched in. */
  const SummaryWindow := 10

  predicate IsHeading(l: Line) {
    Contains(l, SummaryHeading)
  }

  /** `^(\d{2}/\d{2}/\d{2})` matches at the start of the line. */
  predicate IsDated(l: Line) {
    DateAt(l, 0, '/', false)
  }

  /** `^Impostadibollo\s+([\d\.,]+)`: the label, whitespace, and a numeral, taken whole. */
  function StampAmount(l: Line): (r: Option<string>)
    ensures r.Some? ==> StartsWith(l, StampLabel) && |r.value| >= 1
  {
    var n := |StampLabel|;
    if !StartsWith(l, StampLabel) then None
    else
      var k := Run(l, n, IsSpace);
      var a := Run(l, n + k, IsAmountChar);
      if k >= 1 && a >= 1 then Some(l[n + k..n + k + a]) else None
  }

  predicate IsStamp(l: Line) {
    StampAmount(l).Some?
  }

  /** `lines[i:i+10]` from the first line holding the heading; empty when none does. */
  function Window(lines: seq<Line>): (w: seq<Line>)
    ensures |w| <= SummaryWindow
  {
    match FindFirst(IsHeading, lines, 0)
    case None => []
    case Some(i) => lines[i..if i + SummaryWindow <= |lines| then i + SummaryWindow else |lines|]
  }

  /** The date at the head of the first dated line of a window, "" when there is none. */
  function WindowDate(w: seq<Line>): (d: string)
    ensures d == "" || (|d| == 8 && DateAt(d, 0, '/', false))
  {
    match FindFirst(IsDated, w, 0) case None => "" case Some(d) => w[d][..8]
  }

  /** `extract_summary_transaction`: the first stamp line of the window gives one record, dated
      by the first dated line of the window ("" when there is none). */
  function Summary(lines: seq<Line>): (ts: seq<Transaction>)
    ensures |ts| <= 1
    ensures FindFirst(IsHeading, lines, 0).None? ==> ts == []
    ensures |ts| == 1 ==> ts[0].descrizione == StampLabel && ts[0].entrate == "0"
  {
    var w := Window(lines);
    match FindFirst(IsStamp, w, 0)
    case None => []
    case Some(j) =>
      [Transaction(WindowDate(w), StampLabel, FormatNumber(StampAmount(w[j]).value), "0")]
  }

  /** The first loop of `extract_summary_transaction`: the window from the first heading line. */
  method SummaryWindowOf(lines: seq<Line>) returns (summaryLines: seq<Line>)
    ensures summaryLines == Window(lines)
  {
    var i := 0;
    while i < |lines| && !Contains(lines[i], SummaryHeading)
      invariant 0 <= i <= |lines|
      invariant forall j :: 0 <= j < i ==> !IsHeading(lines[j])
    {
      i := i + 1;
    }
    summaryLines := [];
    if i < |lines| {
      FindFirstIs(IsHeading, lines, i);
      summaryLines := lines[i..if i + SummaryWindow <= |lines| then i + SummaryWindow else |lines|];
    } else {
      FindFirstNone(IsHeading, lines);
    }
  }

  /** The second loop: the date of the first dated line of the window, "" when there is none. */
  method SummaryDate(summaryLines: seq<Line>) returns (date: string)
    ensures date == WindowDate(summaryLines)
  {
    var j := 0;
    while j < |summaryLines| && !DateAt(summaryLines[j], 0, '/', false)
      invariant 0 <= j <= |summaryLines|
      invariant forall k :: 0 <= k < j ==> !IsDated(summaryLines[k])
    {
      j := j + 1;
    }
    var summaryDate: Option<string> := None;
    if j < |summaryLines| {
      FindFirstIs(IsDated, summaryLines, j);
      summaryDate := Some(summaryLines[j][..8]);
    } else {
      FindFirstNone(IsDated, summaryLines);
    }
    date := if summaryDate.Some? then summaryDate.value else "";
  }

  /** `extract_summary_transaction`: the three searches each stop at their first hit (a `for`
      with `break`). */
  method ExtractSummaryTransaction(lines: seq<Line>) returns (transactions: seq<Transaction>)
    ensures transactions == Summary(lines)
  {
    var summaryLines := SummaryWindowOf(lines);
    var date := SummaryDate(summaryLines);
    var j := FirstStamp(summaryLines);
    if j < |summaryLines| {
      var formatted := FormatNumber(StampAmount(summaryLines[j]).value);
      transactions := [Transaction(date, StampLabel, formatted, "0")];
      SummaryFound(lines, summaryLines, date, j);
    } else {
      transactions := [];
      SummaryMissing(lines, summaryLines);
    }
  }

  /** The third loop: the index of the first stamp line of the window, its length when none. */
  method FirstStamp(summaryLines: seq<Line>) returns (j: nat)
    ensures j <= |summaryLines| && forall k :: 0 <= k < j ==> !IsStamp(summaryLines[k])
    ensures j < |summaryLines| ==> IsStamp(summaryLines[j])
  {
    j := 0;
    while j < |summaryLines| && !IsStamp(summaryLines[j])
      invariant j <= |summaryLines|
      invariant forall k :: 0 <= k < j ==> !IsStamp(summaryLines[k])
    {
      j := j + 1;
    }
  }

  lemma SummaryFound(lines: seq<Line>, w: seq<Line>, date: string, j: nat)
    requires w == Window(lines)
    requires date == WindowDate(w)
    requires j < |w| && IsStamp(w[j]) && forall k :: 0 <= k < j ==> !IsStamp(w[k])
    ensures Summary(lines) == [Transaction(date, StampLabel, FormatNumber(StampAmount(w[j]).value), "0")]
  {
    FindFirstIs(IsStamp, w, j);
  }

  lemma SummaryMissing(lines: seq<Line>, w: seq<Line>)
    requires w == Window(lines)
    requires forall k :: 0 <= k < |w| ==> !IsStamp(w[k])
    ensures Summary(lines) == []
  {
    FindFirstNone(IsStamp, w);
  }

  /** `process_pdf` after text extraction: the line records, then the summary record, with
      descriptions made single-line, under the four-column header. */
  method ProcessPdf(lines: seq<Line>) returns (rows: seq<seq<string>>)
    ensures rows == Table(Flattened(FilterMap(LineRecord, lines) + Summary(lines)))
  {
    var transactions := ExtractTransactions(lines);
    var summary := ExtractSummaryTransaction(lines);
    transactions := transactions + summary;
    transactions := FlattenDescriptions(transactions);
    rows := Table(transactions);
  }

  // ---------------------------------------------------------------------------------------------
  // What the line pattern accepts

  /** The shape of a tail: whitespace, then a block with no whitespace, then whitespace to the end. */
  lemma TailShape(s: string, p: nat) returns (q: nat, e: nat)
    requires p <= |s| && TailAt(s, p)
    ensures p < q <= e <= |s|
    ensures forall i :: p <= i < q ==> IsSpace(s[i])
    ensures forall i :: q <= i < e ==> !IsSpace(s[i])
    ensures forall i :: e <= i < |s| ==> IsSpace(s[i])
  {
    q := p + Run(s, p, IsSpace);
    var q1 := if q < |s| && s[q] == '-' then q + 1 else q;
    var n := Run(s, q1, IsAmountChar);
    e := q1 + n;
    RunSpan(s, p, IsSpace);
    RunSpan(s, q1, IsAmountChar);
    RunSpan(s, e, IsSpace);
  }

  /** No tail starts before a non-blank character that is followed, across whitespace, by another
      non-blank character. */
  lemma NoTailBefore(s: string, j: nat, x: nat, y: nat)
    requires j <= x < y < |s|
    requires !IsSpace(s[x]) && IsSpace(s[x + 1]) && !IsSpace(s[y]) && x + 1 < y
    ensures !TailAt(s, j)
  {
    if TailAt(s, j) {
      var q, e := TailShape(s, j);
      assert false;
    }
  }

  /** Inside a whitespace run every start gives the same verdict: the run is taken whole. */
  lemma TailInRun(s: string, p: nat, p': nat, end: nat)
    requires p <= p' < end <= |s|
    requires forall i :: p <= i < end ==> IsSpace(s[i])
    requires end == |s| || !IsSpace(s[end])
    ensures TailAt(s, p) == TailAt(s, p')
  {
    RunAt(s, p, end - p, IsSpace);
    RunAt(s, p', end - p', IsSpace);
  }

  /** A typical transaction line: the date, whitespace, a description that begins and ends with
      a non-blank character, whitespace, the amount, optional trailing whitespace. The pattern
      captures exactly that description and amount. */
  lemma LineLayout(s: Line, date: string, w1: string, descr: string, w2: string, sign: string,
                   num: string, w3: string)
    requires s == date + w1 + descr + w2 + sign + num + w3
    requires |date| == 8 && DateAt(date, 0, '/', false)
    requires forall i :: 0 <= i < |w1| ==> IsSpace(w1[i])
    requires forall i :: 0 <= i < |w2| ==> IsSpace(w2[i])
    requires forall i :: 0 <= i < |w3| ==> IsSpace(w3[i])
    requires |w1| >= 1 && |w2| >= 1
    requires |descr| >= 1 && !IsSpace(descr[0]) && !IsSpace(descr[|descr| - 1])
    requires sign == "" || sign == "-"
    requires |num| >= 1 && forall i :: 0 <= i < |num| ==> IsAmountChar(num[i])
    ensures MatchLine(s) == Some(LineMatch(date, descr, sign + num))
  {
    LayoutFacts(s, date, w1, descr, w2 + sign + num + w3);
    LayoutMatches(s, date, w1, descr, w2, sign, num, w3);
  }

  /** LineLayout with the line given by its slices. */
  lemma LayoutMatches(s: Line, date: string, w1: string, descr: string, w2: string, sign: string,
                      num: string, w3: string)
    requires |s| >= 8 + |w1| + |descr|
    requires s[..8] == date && s[8..8 + |w1|] == w1
    requires s[8 + |w1|..8 + |w1| + |descr|] == descr && s[8 + |w1| + |descr|..] == w2 + sign + num + w3
    requires DateAt(date, 0, '/', false)
    requires forall i :: 0 <= i < |w1| ==> IsSpace(w1[i])
    requires forall i :: 0 <= i < |w2| ==> IsSpace(w2[i])
    requires forall i :: 0 <= i < |w3| ==> IsSpace(w3[i])
    requires |w1| >= 1 && |w2| >= 1
    requires |descr| >= 1 && !IsSpace(descr[0]) && !IsSpace(descr[|descr| - 1])
    requires sign == "" || sign == "-"
    requires |num| >= 1 && forall i :: 0 <= i < |num| ==> IsAmountChar(num[i])
    ensures MatchLine(s) == Some(LineMatch(date, descr, sign + num))
  {
    var m := |w1|;
    var p := 8 + m + |descr|;
    DatePrefix(s, date);
    assert s[8 + m] == descr[0] by {
      assert s[8 + m..p][0] == s[8 + m];
    }
    GapRun(s, 8, w1);
    LayoutTail(s, p, w2, sign, num, w3);
    GapFacts(s, 8 + m, p, descr, w2, sign, num, w3);
    assert IsAmountChar(num[0]);
    NoTailBetween(s, 9 + m, p, p + |w2|);
    FirstTailIs(s, 9 + m, p);
    MatchLineAt(s, m, p);
    assert s[..8] == date && s[8 + m..p] == descr && TailAmount(s, p) == sign + num;
  }

  /** Where the pieces of a typical line sit. */
  lemma LayoutFacts(s: string, date: string, w1: string, descr: string, tail: string)
    requires s == date + w1 + descr + tail && |date| == 8
    ensures s[..8] == date && s[8..8 + |w1|] == w1
    ensures s[8 + |w1|..8 + |w1| + |descr|] == descr && s[8 + |w1| + |descr|..] == tail
  {
    assert s == (date + w1) + descr + tail;
    SliceMiddle(date + w1, descr, tail);
    SliceMiddle(date, w1, descr + tail);
  }

  /** A line whose first eight characters are a date starts with a date. */
  lemma DatePrefix(s: string, date: string)
    requires |s| >= 8 && s[..8] == date && DateAt(date, 0, '/', false)
    ensures DateAt(s, 0, '/', false)
  {
    assert forall i :: 0 <= i < 8 ==> s[i] == s[..8][i];
  }

  /** A whitespace slice followed by a non-blank character is one whole run. */
  lemma GapRun(s: string, lo: nat, w: string)
    requires lo + |w| < |s| && s[lo..lo + |w|] == w && !IsSpace(s[lo + |w|])
    requires forall i :: 0 <= i < |w| ==> IsSpace(w[i])
    ensures Run(s, lo, IsSpace) == |w|
  {
    assert forall i :: lo <= i < lo + |w| ==> s[i] == s[lo..lo + |w|][i - lo];
    RunAt(s, lo, |w|, IsSpace);
  }

  /** The characters around the gap between the description and the amount. */
  lemma GapFacts(s: string, lo: nat, p: nat, descr: string, w2: string, sign: string, num: string, w3: string)
    requires lo < p <= |s| && s[lo..p] == descr && s[p..] == w2 + sign + num + w3
    requires |w2| >= 1 && |num| >= 1 && (sign == "" || sign == "-")
    ensures p + |w2| < |s| && s[p - 1] == descr[|descr| - 1] && s[p] == w2[0]
    ensures s[p + |w2|] == if sign == "" then num[0] else '-'
  {
    assert s[lo..p][p - 1 - lo] == s[p - 1];
    assert s[p..][0] == s[p];
    assert s[p..][|w2|] == s[p + |w2|];
  }

  /** No tail starts before `p` when `p` opens a whitespace gap between two non-blank
      characters. */
  lemma NoTailBetween(s: string, k: nat, p: nat, y: nat)
    requires 1 <= p < y < |s|
    requires !IsSpace(s[p - 1]) && IsSpace(s[p]) && !IsSpace(s[y])
    ensures forall j :: k <= j < p ==> !TailAt(s, j)
  {
    forall j | k <= j < p ensures !TailAt(s, j) {
      NoTailBefore(s, j, p - 1, y);
    }
  }

  /** The first tail is at `p` when one is there and none comes earlier. */
  lemma {:induction false} FirstTailIs(s: string, k: nat, p: nat)
    requires k <= p <= |s| && TailAt(s, p)
    requires forall j :: k <= j < p ==> !TailAt(s, j)
    ensures FirstTail(s, k) == Some(p)
    decreases p - k
  {
    if k < p {
      FirstTailIs(s, k + 1, p);
    }
  }

  /** The match when the tail first appears after the whole whitespace run. */
  lemma MatchLineAt(s: Line, m: nat, p: nat)
    requires DateAt(s, 0, '/', false) && m >= 1 && Run(s, 8, IsSpace) == m && 9 + m <= |s|
    requires FirstTail(s, 9 + m) == Some(p)
    ensures MatchLine(s) == Some(LineMatch(s[..8], s[8 + m..p], TailAmount(s, p)))
  {
  }

  lemma SliceMiddle(a: string, b: string, c: string)
    ensures (a + b + c)[|a|..|a| + |b|] == b && (a + b + c)[|a| + |b|..] == c
    ensures forall i :: |a| <= i < |a| + |b| ==> (a + b + c)[i] == b[i - |a|]
  {
  }

  /** The tail of a typical line: whitespace, the amount, trailing whitespace. */
  lemma LayoutTail(s: string, p: nat, w2: string, sign: string, num: string, w3: string)
    requires p <= |s| && s[p..] == w2 + sign + num + w3
    requires |w2| >= 1 && forall i :: 0 <= i < |w2| ==> IsSpace(w2[i])
    requires forall i :: 0 <= i < |w3| ==> IsSpace(w3[i])
    requires sign == "" || sign == "-"
    requires |num| >= 1 && forall i :: 0 <= i < |num| ==> IsAmountChar(num[i])
    ensures TailAt(s, p) && TailAmount(s, p) == sign + num
  {
    var q := p + |w2|;
    var q1 := q + |sign|;
    var e := q1 + |num|;
    TailIndex(s, p, w2, sign, num, w3);
    assert IsAmountChar(s[q1]);
    TailRuns(s, p, q, q1, e);
    TailSlice(s, p, w2, sign, num, w3);
  }

  /** Where the pieces of a tail sit in the line. */
  lemma TailIndex(s: string, p: nat, w2: string, sign: string, num: string, w3: string)
    requires p <= |s| && s[p..] == w2 + sign + num + w3
    ensures |s| == p + |w2| + |sign| + |num| + |w3|
    ensures forall i :: p <= i < p + |w2| ==> s[i] == w2[i - p]
    ensures |sign| == 1 ==> s[p + |w2|] == sign[0]
    ensures forall i :: p + |w2| + |sign| <= i < p + |w2| + |sign| + |num| ==> s[i] == num[i - p - |w2| - |sign|]
    ensures forall i :: p + |w2| + |sign| + |num| <= i < |s| ==> s[i] == w3[i - p - |w2| - |sign| - |num|]
  {
    var t := s[p..];
    forall i | p <= i < |s| ensures s[i] == t[i - p] {
    }
  }

  /** The amount pieces of a tail, read back as one slice. */
  lemma TailSlice(s: string, p: nat, w2: string, sign: string, num: string, w3: string)
    requires p <= |s| && s[p..] == w2 + sign + num + w3
    ensures p + |w2| + |sign| + |num| <= |s|
    ensures s[p + |w2|..p + |w2| + |sign| + |num|] == sign + num
  {
    var t := s[p..];
    AppendAssoc(w2, sign, num);
    SliceMiddle(w2, sign + num, w3);
    assert s[p + |w2|..p + |w2| + |sign| + |num|] == t[|w2|..|w2| + |sign| + |num|];
  }

  /** A tail read off its runs: whitespace from `p` to `q`, an optional '-' and the numeral up to
      `e`, whitespace to the end. */
  lemma TailRuns(s: string, p: nat, q: nat, q1: nat, e: nat)
    requires p < q <= q1 < e <= |s|
    requires forall i :: p <= i < q ==> IsSpace(s[i])
    requires if q1 == q then s[q] != '-' else q1 == q + 1 && s[q] == '-'
    requires forall i :: q1 <= i < e ==> IsAmountChar(s[i])
    requires forall i :: e <= i < |s| ==> IsSpace(s[i])
    ensures TailAt(s, p) && TailAmount(s, p) == s[q..e]
  {
    assert !IsSpace(s[q]) by {
      if q1 == q {
        assert IsAmountChar(s[q1]);
      }
    }
    RunAt(s, p, q - p, IsSpace);
    RunAt(s, q1, e - q1, IsAmountChar);
    RunAt(s, e, |s| - e, IsSpace);
    TailOfRuns(s, p, q, q1, e);
  }

  lemma TailOfRuns(s: string, p: nat, q: nat, q1: nat, e: nat)
    requires p < q <= q1 < e <= |s|
    requires Run(s, p, IsSpace) == q - p && Run(s, q1, IsAmountChar) == e - q1 && Run(s, e, IsSpace) == |s| - e
    requires q1 == (if q < |s| && s[q] == '-' then q + 1 else q)
    ensures TailAt(s, p) && TailAmount(s, p) == s[q..e]
  {
  }

  /** Whenever the line can be cut as the pattern describes, the pattern matches. */
  lemma MatchComplete(s: Line, q: nat, p: nat)
    requires DateAt(s, 0, '/', false)
    requires 9 <= q < p <= |s|
    requires forall i :: 8 <= i < q ==> IsSpace(s[i])
    requires TailAt(s, p)
    ensures MatchLine(s).Some?
  {
    var m := Run(s, 8, IsSpace);
    RunSpan(s, 8, IsSpace);
    assert m >= q - 8 by {
      if m < q - 8 {
        assert false;
      }
    }
    if p >= 9 + m {
      FirstTailLeast(s, 9 + m);
    } else {
      assert p < 8 + m by {
        if p == 8 + m {
          assert false;
        }
      }
      TailInRun(s, p, 7 + m, 8 + m);
    }
  }

  /** Whenever the pattern matches, the line is the date, whitespace, the description and a tail. */
  lemma MatchSound(s: Line) returns (q: nat, p: nat)
    requires MatchLine(s).Some?
    ensures 9 <= q < p <= |s|
    ensures forall i :: 8 <= i < q ==> IsSpace(s[i])
    ensures TailAt(s, p)
    ensures MatchLine(s).value.descr == s[q..p] && MatchLine(s).value.amount == TailAmount(s, p)
  {
    var m := Run(s, 8, IsSpace);
    RunSpan(s, 8, IsSpace);
    match FirstTail(s, 9 + m)
    case Some(p') =>
      q, p := 8 + m, p';
    case None =>
      q, p := 6 + m, 7 + m;
  }

  /** With exactly three blanks between the date and the amount the line still matches, with a
      blank description. */
  lemma BlankDescriptionAccepted(s: Line, num: string)
    requires |s| > 11 && DateAt(s, 0, '/', false) && s[8..11] == "   " && s[11..] == num
    requires forall i :: 0 <= i < |num| ==> IsAmountChar(num[i])
    ensures MatchLine(s).Some? && Strip(MatchLine(s).value.descr) == ""
    ensures MatchLine(s).value.amount == num
  {
    assert forall i :: 8 <= i < 11 ==> IsSpace(s[i]);
    RunAt(s, 8, 3, IsSpace);
    RunAt(s, 10, 1, IsSpace);
    assert num[0] != '-';
    RunAt(s, 11, |num|, IsAmountChar);
    RunAt(s, |s|, 0, IsSpace);
    assert TailAt(s, 10);
    forall j | 12 <= j <= |s| ensures !TailAt(s, j) {
      if j < |s| {
        RunAt(s, j, 0, IsSpace);
      }
    }
    assert FirstTail(s, 12) == None;
    assert s[9..10] == " ";
  }

  /** The record `t` books the amount of the matched line `s` by its sign: a minus-signed amount
      under "Entrate" without its sign, an unsigned one under "Uscite"; the other column is "0". */
  predicate Routed(s: Line, t: Transaction) {
    MatchLine(s).Some? &&
    var a := Strip(MatchLine(s).value.amount);
    if StartsWith(a, "-") then t.uscite == "0" && t.entrate == FormatNumber(a[1..])
    else t.entrate == "0" && t.uscite == FormatNumber(a)
  }

  /** Across the records `extract_transactions` returns: each comes from a matched line and books
      its amount by that line's sign, and every matched line contributes its record so booked. */
  lemma SignRouting(lines: seq<Line>)
    ensures forall t :: t in FilterMap(LineRecord, lines) ==>
      exists i :: 0 <= i < |lines| && LineRecord(lines[i]) == Some(t) && Routed(lines[i], t)
    ensures forall i :: 0 <= i < |lines| && MatchLine(lines[i]).Some? ==>
      LineRecord(lines[i]).value in FilterMap(LineRecord, lines) && Routed(lines[i], LineRecord(lines[i]).value)
  {
    FilterMapSound(LineRecord, lines);
    FilterMapComplete(LineRecord, lines);
  }

  /** The window begins at the first heading line and holds at most ten lines. */
  lemma WindowAt(lines: seq<Line>, i: nat)
    requires i < |lines| && IsHeading(lines[i]) && forall j :: 0 <= j < i ==> !IsHeading(lines[j])
    ensures Window(lines) == lines[i..if i + SummaryWindow <= |lines| then i + SummaryWindow else |lines|]
  {
    FindFirstIs(IsHeading, lines, i);
  }

  /** The summary record exists exactly when a stamp line lies within ten lines from the first
      heading (that line included): a stamp line further away is never read. */
  lemma SummaryIffStamp(lines: seq<Line>, i: nat)
    requires i < |lines| && IsHeading(lines[i]) && forall j :: 0 <= j < i ==> !IsHeading(lines[j])
    ensures Summary(lines) != [] <==> exists j :: i <= j < |lines| && j < i + SummaryWindow && IsStamp(lines[j])
  {
    SummaryNonEmpty(lines);
    StampInWindow(lines, i);
  }

  lemma SummaryNonEmpty(lines: seq<Line>)
    ensures Summary(lines) != [] <==> FindFirst(IsStamp, Window(lines), 0).Some?
  {
  }

  lemma StampInWindow(lines: seq<Line>, i: nat)
    requires i < |lines| && IsHeading(lines[i]) && forall j :: 0 <= j < i ==> !IsHeading(lines[j])
    ensures FindFirst(IsStamp, Window(lines), 0).Some?
        <==> exists j :: i <= j < |lines| && j < i + SummaryWindow && IsStamp(lines[j])
  {
    WindowAt(lines, i);
    if exists j :: i <= j < |lines| && j < i + SummaryWindow && IsStamp(lines[j]) {
      var j :| i <= j < |lines| && j < i + SummaryWindow && IsStamp(lines[j]);
      StampFound(lines, i, j);
    }
    if FindFirst(IsStamp, Window(lines), 0).Some? {
      StampFoundIn(lines, i);
    }
  }

  lemma StampFound(lines: seq<Line>, i: nat, j: nat)
    requires i <= j < |lines| && j < i + SummaryWindow && IsStamp(lines[j])
    requires Window(lines) == lines[i..if i + SummaryWindow <= |lines| then i + SummaryWindow else |lines|]
    ensures FindFirst(IsStamp, Window(lines), 0).Some?
  {
    var w := Window(lines);
    assert w[j - i] == lines[j];
    FindFirstLeast(IsStamp, w, 0);
  }

  lemma StampFoundIn(lines: seq<Line>, i: nat)
    requires i < |lines|
    requires Window(lines) == lines[i..if i + SummaryWindow <= |lines| then i + SummaryWindow else |lines|]
    requires FindFirst(IsStamp, Window(lines), 0).Some?
    ensures exists j :: i <= j < |lines| && j < i + SummaryWindow && IsStamp(lines[j])
  {
    var w := Window(lines);
    var k := FindFirst(IsStamp, w, 0).value;
    assert w[k] == lines[i + k];
  }
}
