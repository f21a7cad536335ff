/** The web front end's own logic (app.py): the output-filename sanitiser, the table of converters
    by bank and document type, and the bank and document-type lists the form offers. */
module App {
  import opened Wrappers
  import opened Scan
  import opened PyText

  // ---------------------------------------------------------------------------------------------
  // sanitize_filename

  /** The regex character class of app.py line 13: backslash, slash, star, question mark, colon,
      double quote, angle brackets and bar. */
  predicate IsForbidden(c: char) {
    c == '\\' || c == '/' || c == '*' || c == '?' || c == ':' || c == '"' || c == '<' || c == '>' || c == '|'
  }

  predicate NoForbidden(s: string) {
    forall i :: 0 <= i < |s| ==> !IsForbidden(s[i])
  }

  /** Every whitespace character is a single blank: none is another kind of space, and no two
      stand side by side. */
  predicate SpacesCollapsed(s: string) {
    forall i :: 0 <= i < |s| && IsSpace(s[i]) ==> s[i] == ' ' && (i + 1 == |s| || !IsSpace(s[i + 1]))
  }

  /** The first re.sub of `sanitize_filename`: the forbidden characters removed, the rest kept in
      order. */
  function DropForbidden(s: string): (r: string)
    ensures NoForbidden(r) && |r| <= |s|
    ensures NoForbidden(s) ==> r == s
    decreases |s|
  {
    if s == [] then []
    else (if IsForbidden(s[0]) then [] else [s[0]]) + DropForbidden(s[1..])
  }

  /** `re.sub(r'\s+', ' ', s)`: each maximal run of whitespace becomes one blank. */
  function Collapse(s: string): (r: string)
    ensures s != [] ==> r != [] && r[0] == (if IsSpace(s[0]) then ' ' else s[0])
    decreases |s|
  {
    if s == [] then []
    else if IsSpace(s[0]) then " " + Collapse(s[Run(s, 0, IsSpace)..])
    else [s[0]] + Collapse(s[1..])
  }

  /** The collapsed text has its spaces collapsed, and brings in no forbidden character. */
  lemma {:induction false} CollapseShape(s: string)
    ensures SpacesCollapsed(Collapse(s))
    ensures NoForbidden(s) ==> NoForbidden(Collapse(s))
    decreases |s|
  {
    if s != [] {
      var k := if IsSpace(s[0]) then Run(s, 0, IsSpace) else 1;
      var t := s[k..];
      CollapseShape(t);
      var h := if IsSpace(s[0]) then ' ' else s[0];
      assert Collapse(s) == [h] + Collapse(t);
      if IsSpace(s[0]) {
        RunSpan(s, 0, IsSpace);
      }
      assert IsSpace(s[0]) && t != [] ==> !IsSpace(t[0]) by {
        if IsSpace(s[0]) && t != [] {
          assert t[0] == s[k];
        }
      }
      ConsCollapsed(h, Collapse(t), t);
      if NoForbidden(s) {
        forall i | 0 <= i < |Collapse(s)| ensures !IsForbidden(Collapse(s)[i]) {
          if i > 0 {
            assert Collapse(s)[i] == Collapse(t)[i - 1];
          }
        }
      }
    }
  }

  /** A character in front of a collapsed text keeps it collapsed, unless two spaces meet. */
  lemma ConsCollapsed(h: char, r: string, t: string)
    requires SpacesCollapsed(r) && (IsSpace(h) ==> h == ' ')
    requires t != [] ==> r != [] && r[0] == (if IsSpace(t[0]) then ' ' else t[0])
    requires (t == [] ==> r == []) && (IsSpace(h) && t != [] ==> !IsSpace(t[0]))
    ensures SpacesCollapsed([h] + r)
  {
    var u := [h] + r;
    forall i | 0 <= i < |u| && IsSpace(u[i]) ensures u[i] == ' ' && (i + 1 == |u| || !IsSpace(u[i + 1])) {
      if i > 0 {
        assert u[i] == r[i - 1];
        if i + 1 < |u| {
          assert u[i + 1] == r[i];
        }
      }
    }
  }

  /** Collapsing leaves an already collapsed text alone. */
  lemma {:induction false} CollapseFixed(s: string)
    requires SpacesCollapsed(s)
    ensures Collapse(s) == s
    decreases |s|
  {
    if s != [] {
      if IsSpace(s[0]) {
        RunAt(s, 0, 1, IsSpace);
      }
      assert SpacesCollapsed(s[1..]) by {
        forall i | 0 <= i < |s| - 1 && IsSpace(s[1..][i]) ensures s[1..][i] == ' ' && (i + 1 == |s| - 1 || !IsSpace(s[1..][i + 1])) {
          assert s[1..][i] == s[i + 1];
        }
      }
      CollapseFixed(s[1..]);
      assert [s[0]] + s[1..] == s;
    }
  }

  /** A slice keeps a collapsed text collapsed and free of forbidden characters. */
  lemma SliceCollapsed(s: string, k: nat, n: nat)
    requires k + n <= |s| && SpacesCollapsed(s) && NoForbidden(s)
    ensures SpacesCollapsed(s[k..k + n]) && NoForbidden(s[k..k + n])
  {
    var t := s[k..k + n];
    forall i | 0 <= i < |t| ensures t[i] == s[k + i] {
    }
  }

  /** The cleaned name before the fallback and the suffix: forbidden characters removed,
      whitespace collapsed, ends stripped. */
  function Cleaned(name: string): (r: string)
    ensures NoForbidden(r) && SpacesCollapsed(r) && IsStripped(r)
  {
    var d := DropForbidden(name);
    var c := Collapse(d);
    CollapseShape(d);
    StripSlice(c);
    SliceCollapsed(c, StripStart(c), |Strip(c)|);
    Strip(c)
  }

  /** "output" for a cleaned name that is empty, "." or "..". */
  function WithFallback(c: string): string {
    if c == "" || c == "." || c == ".." then "output" else c
  }

  /** `sanitize_filename`. */
  function Sanitize(name: string): (r: string)
    ensures NoForbidden(r) && SpacesCollapsed(r) && IsStripped(r) && r != []
    ensures EndsWith(Lower(r), ".csv")
  {
    var s := WithFallback(Cleaned(name));
    FallbackShape(Cleaned(name));
    SuffixShape(s);
    if !EndsWith(Lower(s), ".csv") then s + ".csv" else s
  }

  /** The fallback keeps a cleaned name's shape, and never leaves it empty. */
  lemma FallbackShape(c: string)
    requires NoForbidden(c) && SpacesCollapsed(c) && IsStripped(c)
    ensures var s := WithFallback(c); NoForbidden(s) && SpacesCollapsed(s) && IsStripped(s) && s != []
  {
    var o := "output";
    assert forall i :: 0 <= i < |o| ==> !IsSpace(o[i]) && !IsForbidden(o[i]);
  }

  /** What appending ".csv" to a cleaned, non-empty name keeps and what it adds. */
  lemma SuffixShape(s: string)
    requires NoForbidden(s) && SpacesCollapsed(s) && IsStripped(s) && s != []
    ensures var r := s + ".csv";
      NoForbidden(r) && SpacesCollapsed(r) && IsStripped(r) && EndsWith(Lower(r), ".csv")
  {
    var r := s + ".csv";
    forall i | 0 <= i < |r| ensures r[i] == if i < |s| then s[i] else ".csv"[i - |s|] {
    }
    assert Lower(r)[|r| - 4..] == ".csv";
  }

  /** The three names that fall back: a name that cleans to nothing, "." or ".." becomes
      "output.csv". */
  lemma FallbackName(name: string)
    requires Cleaned(name) == "" || Cleaned(name) == "." || Cleaned(name) == ".."
    ensures Sanitize(name) == "output.csv"
  {
    assert Lower("output")[2] == 't';
  }

  /** The suffix is added only when missing: a name whose cleaned form already ends in ".csv", in
      any case, keeps it, and any other name gets ".csv" after a stem with no trailing space. */
  lemma SuffixOnlyWhenMissing(name: string)
    ensures var c := WithFallback(Cleaned(name));
      Sanitize(name) == (if EndsWith(Lower(c), ".csv") then c else c + ".csv")
      && c != [] && !IsSpace(c[|c| - 1])
  {
  }

  /** Sanitizing a sanitized name changes nothing. */
  lemma SanitizeIdempotent(name: string)
    ensures Sanitize(Sanitize(name)) == Sanitize(name)
  {
    var r := Sanitize(name);
    CollapseFixed(r);
    StripKeepsStripped(r);
    assert Cleaned(r) == r;
    assert r != "." && r != ".." by {
      assert |r| >= 4;
    }
  }

  // ---------------------------------------------------------------------------------------------
  // SCRIPT_MAP

  /** The keys of SCRIPT_MAP, in the order the dictionary literal lists them. */
  const ScriptKeys: seq<(string, string)> := [
    ("BPM", "Estratto conto"), ("BPM", "Lista movimenti"),
    ("Credit Agricole", "Estratto conto"), ("Credit Agricole", "Lista movimenti"),
    ("Qonto", "Estratto conto"), ("Sella", "Estratto conto"),
    ("Popolare di Sondrio", "Estratto conto"), ("Popolare di Sondrio", "Lista movimenti"),
    ("Buffetti", "Estratto conto"), ("Intesa San Paolo", "Estratto conto")]

  /** SCRIPT_MAP: the converter module for each (bank, document type). */
  const ScriptMap: map<(string, string), string> := map[
    ("BPM", "Estratto conto") := "script.EcBPM",
    ("BPM", "Lista movimenti") := "script.mBPM",
    ("Credit Agricole", "Estratto conto") := "script.EcCreditAgricole",
    ("Credit Agricole", "Lista movimenti") := "script.mCreditAgricole",
    ("Qonto", "Estratto conto") := "script.EcQONTO",
    ("Sella", "Estratto conto") := "script.EcSELLA",
    ("Popolare di Sondrio", "Estratto conto") := "script.EcSONDRIO",
    ("Popolare di Sondrio", "Lista movimenti") := "script.mSONDRIO",
    ("Buffetti", "Estratto conto") := "script.EcBuffetti",
    ("Intesa San Paolo", "Estratto conto") := "script.EcIntesa"]

  /** The key list is exactly the map's key set, each key once. */
  lemma ScriptKeysAreKeys()
    ensures forall k :: k in ScriptMap <==> k in ScriptKeys
    ensures forall i, j :: 0 <= i < j < |ScriptKeys| ==> ScriptKeys[i] != ScriptKeys[j]
  {
  }

  // ---------------------------------------------------------------------------------------------
  // String order and sorting

  /** Python's `<` on str: code point by code point, a proper prefix first. */
  predicate Less(a: string, b: string)
    decreases |a|
  {
    b != [] && (a == [] || a[0] < b[0] || (a[0] == b[0] && Less(a[1..], b[1..])))
  }

  lemma {:induction false} LessAsymmetric(a: string, b: string)
    ensures Less(a, b) ==> !Less(b, a)
    decreases |a|
  {
    if a != [] && b != [] && a[0] == b[0] {
      LessAsymmetric(a[1..], b[1..]);
    }
  }

  lemma {:induction false} LessTotal(a: string, b: string)
    ensures a == b || Less(a, b) || Less(b, a)
    decreases |a|
  {
    if a != [] && b != [] && a[0] == b[0] {
      LessTotal(a[1..], b[1..]);
      if a[1..] == b[1..] {
        assert a == [a[0]] + a[1..] && b == [b[0]] + b[1..];
      }
    }
  }

  /** No element is smaller than the one before it. */
  predicate Ordered(s: seq<string>) {
    forall i :: 0 < i < |s| ==> !Less(s[i], s[i - 1])
  }

  /** `x` placed in front of the first element that is not smaller than it. */
  function Insert(x: string, s: seq<string>): (r: seq<string>)
    ensures multiset(r) == multiset(s) + multiset{x}
    ensures r != [] && (r[0] == x || (s != [] && r[0] == s[0]))
    decreases |s|
  {
    if s == [] || !Less(s[0], x) then [x] + s
    else
      assert s == [s[0]] + s[1..];
      [s[0]] + Insert(x, s[1..])
  }

  lemma {:induction false} InsertOrdered(x: string, s: seq<string>)
    requires Ordered(s)
    ensures Ordered(Insert(x, s))
    decreases |s|
  {
    if s != [] && Less(s[0], x) {
      assert Ordered(s[1..]) by {
        forall i | 0 < i < |s| - 1 ensures !Less(s[1..][i], s[1..][i - 1]) {
          assert s[1..][i] == s[i + 1] && s[1..][i - 1] == s[i];
        }
      }
      InsertOrdered(x, s[1..]);
      LessAsymmetric(s[0], x);
      var t := Insert(x, s[1..]);
      assert t[0] == x || t[0] == s[1];
      forall i | 0 < i < |[s[0]] + t| ensures !Less(([s[0]] + t)[i], ([s[0]] + t)[i - 1]) {
        if i > 1 {
          assert ([s[0]] + t)[i] == t[i - 1] && ([s[0]] + t)[i - 1] == t[i - 2];
        }
      }
    }
  }

  /** `sorted(s)` and `s.sort()`: an insertion sort, which gives the one ordered permutation. */
  function Sort(s: seq<string>): (r: seq<string>)
    ensures multiset(r) == multiset(s)
    decreases |s|
  {
    if s == [] then []
    else
      assert s == [s[0]] + s[1..];
      Insert(s[0], Sort(s[1..]))
  }

  lemma {:induction false} SortOrdered(s: seq<string>)
    ensures Ordered(Sort(s))
    decreases |s|
  {
    if s != [] {
      SortOrdered(s[1..]);
      InsertOrdered(s[0], Sort(s[1..]));
    }
  }

  /** An ordered list without repeats is strictly increasing. */
  lemma StrictlyIncreasing(s: seq<string>)
    requires Ordered(s) && forall i, j :: 0 <= i < j < |s| ==> s[i] != s[j]
    ensures forall i :: 0 < i < |s| ==> Less(s[i - 1], s[i])
  {
    forall i | 0 < i < |s| ensures Less(s[i - 1], s[i]) {
      LessTotal(s[i - 1], s[i]);
    }
  }

  // ---------------------------------------------------------------------------------------------
  // all_banche and available_docs_by_bank

  /** The banks of the keys, each once (in an order the sort makes irrelevant). */
  function Banks(keys: seq<(string, string)>): (r: seq<string>)
    ensures forall b :: b in r <==> exists k :: k in keys && k.0 == b
    ensures forall i, j :: 0 <= i < j < |r| ==> r[i] != r[j]
    decreases |keys|
  {
    if keys == [] then []
    else
      var rest := Banks(keys[1..]);
      assert forall k :: k in keys <==> k == keys[0] || k in keys[1..];
      if keys[0].0 in rest then rest else [keys[0].0] + rest
  }

  /** `all_banche = sorted(list(set(k[0] for k in SCRIPT_MAP.keys())))`. */
  function AllBanks(keys: seq<(string, string)>): seq<string> {
    Sort(Banks(keys))
  }

  /** The bank list is sorted, has no repeats, names exactly the banks of the keys, and is empty
      only when there are no keys (the one case where the start-up check raises). */
  lemma AllBanksSpec(keys: seq<(string, string)>)
    ensures forall i :: 0 < i < |AllBanks(keys)| ==> Less(AllBanks(keys)[i - 1], AllBanks(keys)[i])
    ensures forall b :: b in AllBanks(keys) <==> exists k :: k in keys && k.0 == b
    ensures AllBanks(keys) == [] <==> keys == []
  {
    var bs := Banks(keys);
    SortOrdered(bs);
    SortMembers(bs);
    SortDistinct(bs);
    StrictlyIncreasing(Sort(bs));
    if keys != [] {
      assert keys[0] in keys;
    }
  }

  /** Sorting keeps exactly the elements it was given. */
  lemma SortMembers(s: seq<string>)
    ensures forall x :: x in Sort(s) <==> x in s
  {
    forall x ensures x in Sort(s) <==> x in s {
      assert x in Sort(s) <==> x in multiset(Sort(s));
    }
  }

  /** Sorting a list without repeats gives a list without repeats. */
  lemma SortDistinct(s: seq<string>)
    requires forall i, j :: 0 <= i < j < |s| ==> s[i] != s[j]
    ensures forall i, j :: 0 <= i < j < |Sort(s)| ==> Sort(s)[i] != Sort(s)[j]
  {
    var r := Sort(s);
    forall i, j | 0 <= i < j < |r| ensures r[i] != r[j] {
      MultiplicityOne(s, r[i]);
      if r[i] == r[j] {
        TwiceCounted(r, i, j);
      }
    }
  }

  /** An element found at two places is counted at least twice. */
  lemma TwiceCounted(r: seq<string>, i: nat, j: nat)
    requires i < j < |r| && r[i] == r[j]
    ensures multiset(r)[r[i]] >= 2
  {
    assert r == r[..j] + [r[j]] + r[j + 1..];
    assert r[i] in r[..j];
  }

  /** In a list without repeats every element occurs once. */
  lemma {:induction false} MultiplicityOne(s: seq<string>, x: string)
    requires forall i, j :: 0 <= i < j < |s| ==> s[i] != s[j]
    ensures multiset(s)[x] <= 1
    decreases |s|
  {
    if s != [] {
      assert s == [s[0]] + s[1..];
      MultiplicityOne(s[1..], x);
      if s[0] == x {
        forall j | 0 <= j < |s| - 1 ensures s[1..][j] != x {
          assert s[1..][j] == s[j + 1];
        }
        assert x !in s[1..];
      }
    }
  }

  /** The document type of a key, when the key is for bank `b`. */
  function DocOf(b: string): ((string, string)) -> Option<string> {
    (k: (string, string)) => if k.0 == b then Some(k.1) else None
  }

  /** The document types paired with `b`, in key order: what the `setdefault(...).append` loop
      collects for `b`. */
  function DocsOf(keys: seq<(string, string)>, b: string): seq<string> {
    FilterMap(DocOf(b), keys)
  }

  /** The first loop of the start-up block: one list per bank, each type appended under its bank. */
  method CollectDocs(keys: seq<(string, string)>) returns (docs: map<string, seq<string>>)
    ensures forall b :: b in docs <==> exists k :: k in keys && k.0 == b
    ensures forall b :: b in docs ==> docs[b] == DocsOf(keys, b)
  {
    docs := map[];
    var i := 0;
    while i < |keys|
      invariant 0 <= i <= |keys|
      invariant Collected(keys, i, docs)
    {
      var (banca, tipo) := keys[i];
      var list := if banca in docs then docs[banca] else [];
      CollectStep(keys, i, docs);
      docs := docs[banca := list + [tipo]];
      i := i + 1;
    }
    assert keys[..i] == keys;
  }

  /** The lists gathered from the first `i` keys: one per bank seen, holding its types in order. */
  ghost predicate Collected(keys: seq<(string, string)>, i: nat, docs: map<string, seq<string>>)
    requires i <= |keys|
  {
    (forall b :: b in docs <==> exists k :: k in keys[..i] && k.0 == b)
    && (forall b :: b in docs ==> docs[b] == DocsOf(keys[..i], b))
  }

  /** One pass of the first loop: `setdefault(banca, []).append(tipo)`. */
  lemma CollectStep(keys: seq<(string, string)>, i: nat, docs: map<string, seq<string>>)
    requires i < |keys| && Collected(keys, i, docs)
    ensures var (banca, tipo) := keys[i];
      Collected(keys, i + 1, docs[banca := (if banca in docs then docs[banca] else []) + [tipo]])
  {
    var (banca, tipo) := keys[i];
    forall b ensures DocsOf(keys[..i + 1], b) == DocsOf(keys[..i], b) + (if b == banca then [tipo] else []) {
      FilterMapTake(DocOf(b), keys, i);
    }
    assert forall k :: k in keys[..i + 1] <==> k in keys[..i] || k == keys[i];
    if banca !in docs {
      assert DocsOf(keys[..i], banca) == [] by {
        forall k | k in keys[..i] ensures DocOf(banca)(k).None? {
        }
        FilterMapNone(DocOf(banca), keys[..i]);
      }
    }
  }

  /** A filter that keeps nothing gives nothing. */
  lemma {:induction false} FilterMapNone<X, Y>(f: X -> Option<Y>, xs: seq<X>)
    requires forall x :: x in xs ==> f(x).None?
    ensures FilterMap(f, xs) == []
    decreases |xs|
  {
    if xs != [] {
      FilterMapNone(f, xs[..|xs| - 1]);
      FilterMapTake(f, xs, |xs| - 1);
      assert xs[..|xs|] == xs;
    }
  }

  /** The second loop: every bank's list sorted in place. */
  method SortDocs(docs: map<string, seq<string>>) returns (sorted: map<string, seq<string>>)
    ensures sorted.Keys == docs.Keys
    ensures forall b :: b in sorted ==> sorted[b] == Sort(docs[b])
  {
    sorted := docs;
    var left := docs.Keys;
    while left != {}
      invariant left <= docs.Keys && sorted.Keys == docs.Keys
      invariant forall b :: b in docs && b !in left ==> sorted[b] == Sort(docs[b])
      invariant forall b :: b in left ==> sorted[b] == docs[b]
      decreases left
    {
      var banca :| banca in left;
      sorted := sorted[banca := Sort(sorted[banca])];
      left := left - {banca};
    }
  }

  /** `available_docs_by_bank`: both loops. */
  method DocsByBank(keys: seq<(string, string)>) returns (docs: map<string, seq<string>>)
    ensures forall b :: b in docs <==> exists k :: k in keys && k.0 == b
    ensures forall b :: b in docs ==> docs[b] == Sort(DocsOf(keys, b))
  {
    var collected := CollectDocs(keys);
    docs := SortDocs(collected);
  }

  /** Each bank's list is sorted and holds exactly the document types paired with that bank in
      the keys, as often as they are paired with it. */
  lemma DocsOfSpec(keys: seq<(string, string)>, b: string)
    ensures Ordered(Sort(DocsOf(keys, b)))
    ensures multiset(Sort(DocsOf(keys, b))) == multiset(DocsOf(keys, b))
    ensures forall t :: t in Sort(DocsOf(keys, b)) <==> (b, t) in keys
  {
    SortOrdered(DocsOf(keys, b));
    FilterMapSound(DocOf(b), keys);
    FilterMapComplete(DocOf(b), keys);
    forall t ensures t in Sort(DocsOf(keys, b)) <==> t in DocsOf(keys, b) {
      assert t in Sort(DocsOf(keys, b)) <==> t in multiset(Sort(DocsOf(keys, b)));
    }
    forall t | (b, t) in keys ensures t in DocsOf(keys, b) {
      var i :| 0 <= i < |keys| && keys[i] == (b, t);
      assert DocOf(b)(keys[i]) == Some(t);
    }
  }

  /** Every bank and document type the form offers is a key of SCRIPT_MAP. */
  lemma OfferedPairsAreKeys(b: string, t: string)
    requires b in AllBanks(ScriptKeys) && t in Sort(DocsOf(ScriptKeys, b))
    ensures (b, t) in ScriptMap
  {
    DocsOfSpec(ScriptKeys, b);
    ScriptKeysAreKeys();
  }
}
