/** The transaction record every converter emits and the `;`-separated rows it writes. */
module Csv {
  import opened Wrappers
  import opened PyText

  /** One output row: date, description, debit ("Uscite") and credit ("Entrate"). */
  datatype Transaction = Transaction(data: string, descrizione: string, uscite: string, entrate: string)

  const Header: seq<string> := ["Data", "Descrizione", "Uscite", "Entrate"]

  /** The row csv.DictWriter writes for a transaction under the four-column header. */
  function Fields(t: Transaction): seq<string> {
    [t.data, t.descrizione, t.uscite, t.entrate]
  }

  /** A header row followed by one row per transaction, in order. */
  function Table(ts: seq<Transaction>): (rows: seq<seq<string>>)
    ensures |rows| == |ts| + 1 && rows[0] == Header
    ensures forall k :: 0 <= k < |ts| ==> rows[k + 1] == Fields(ts[k])
  {
    [Header] + seq(|ts|, k requires 0 <= k < |ts| => Fields(ts[k]))
  }

  /** What the csv module writes for a missing cell. */
  function CellText(c: Option<string>): string {
    if c.Some? then c.value else ""
  }

  /** A field the csv writer emits verbatim: no delimiter, quote, escape or line-end character. */
  predicate Plain(f: string) {
    forall i :: 0 <= i < |f| ==> f[i] != ';' && f[i] != '"' && f[i] != '\\' && f[i] != '\r' && f[i] != '\n'
  }

  /** One written line: the fields joined by ';'. */
  function JoinRow(fields: seq<string>): (line: string)
    requires |fields| >= 1
  {
    Join(fields, ';')
  }

  /** Reading a written line back with line.split(';') gives the fields, as long as no field needs
      quoting. */
  lemma RowRoundTrip(fields: seq<string>)
    requires |fields| >= 1
    requires forall k :: 0 <= k < |fields| ==> Plain(fields[k])
    ensures Split(JoinRow(fields), ';') == fields
  {
    JoinSplit(fields, ';');
  }

  /** The transactions with every description made single-line, as each `process_pdf` does
      before writing. */
  function Flattened(ts: seq<Transaction>): (r: seq<Transaction>)
    ensures |r| == |ts|
    ensures forall k :: 0 <= k < |ts| ==> r[k] == ts[k].(descrizione := SingleLine(ts[k].descrizione))
  {
    seq(|ts|, k requires 0 <= k < |ts| => ts[k].(descrizione := SingleLine(ts[k].descrizione)))
  }

  /** The in-place loop over the transaction dicts that rewrites each description. */
  method FlattenDescriptions(ts: seq<Transaction>) returns (r: seq<Transaction>)
    ensures r == Flattened(ts)
  {
    r := ts;
    var k := 0;
    while k < |r|
      invariant 0 <= k <= |r| && |r| == |ts|
      invariant forall j :: 0 <= j < k ==> r[j] == Flattened(ts)[j]
      invariant forall j :: k <= j < |r| ==> r[j] == ts[j]
    {
      var t := r[k];
      r := r[k := t.(descrizione := SingleLine(t.descrizione))];
      k := k + 1;
    }
  }

  /** The first record is a prefix-extension of the second, field by field: same date and amounts,
      and the second's description begins with the first's. */
  predicate Extends(a: seq<Transaction>, b: seq<Transaction>) {
    |a| == |b|
    && forall j :: 0 <= j < |a| ==>
         a[j].data == b[j].data && a[j].uscite == b[j].uscite && a[j].entrate == b[j].entrate
         && StartsWith(b[j].descrizione, a[j].descrizione)
  }

  lemma ExtendsRefl(a: seq<Transaction>)
    ensures Extends(a, a)
  {
  }

  lemma ExtendsTrans(a: seq<Transaction>, b: seq<Transaction>, c: seq<Transaction>)
    requires Extends(a, b) && Extends(b, c)
    ensures Extends(a, c)
  {
    forall j | 0 <= j < |a| ensures StartsWith(c[j].descrizione, a[j].descrizione) {
      var x, y, z := a[j].descrizione, b[j].descrizione, c[j].descrizione;
      assert z[..|y|] == y;
      assert z[..|x|] == z[..|y|][..|x|];
    }
  }

  /** Appending text to the last description extends the sequence. */
  lemma ExtendsLast(done: seq<Transaction>, t: Transaction, more: string, tail: seq<Transaction>)
    ensures Extends(done + [t] + tail, done + [t.(descrizione := t.descrizione + more)] + tail)
  {
    var a := done + [t] + tail;
    var b := done + [t.(descrizione := t.descrizione + more)] + tail;
    forall j | 0 <= j < |a| ensures StartsWith(b[j].descrizione, a[j].descrizione) {
      if j == |done| {
        assert (t.descrizione + more)[..|t.descrizione|] == t.descrizione;
      } else {
        assert a[j] == b[j];
      }
    }
  }
}
