/** The few pieces of Python's str API the converters use, stated over seq<char>. */
module PyText {
  import opened Wrappers

  /** str.isspace() (and the regex class `\s`, and what strip() removes), for every character below U+10000. */
  predicate IsSpace(c: char) {
    ('\t' <= c <= '\r') || ('\U{1c}' <= c <= ' ') || c == '\U{85}' || c == '\U{a0}' || c == '\U{1680}'
    || ('\U{2000}' <= c <= '\U{200a}') || c == '\U{2028}' || c == '\U{2029}'
    || c == '\U{202f}' || c == '\U{205f}' || c == '\U{3000}'
  }

  /** The regex class `\d`, restricted to ASCII digits. */
  predicate IsDigit(c: char) {
    '0' <= c <= '9'
  }

  /** The characters at which str.splitlines() breaks a text. */
  predicate IsLineBreak(c: char) {
    c == '\n' || c == '\r' || c == '\U{0b}' || c == '\U{0c}' || ('\U{1c}' <= c <= '\U{1e}')
    || c == '\U{85}' || c == '\U{2028}' || c == '\U{2029}'
  }

  predicate IsLine(s: string) {
    forall i :: 0 <= i < |s| ==> !IsLineBreak(s[i])
  }

  /** One element of text.splitlines(): it holds no line-break character. */
  type Line = s: string | IsLine(s) witness ""

  predicate AllDigits(s: string) {
    forall i :: 0 <= i < |s| ==> IsDigit(s[i])
  }

  /** Neither end is whitespace: what strip() guarantees. */
  predicate IsStripped(s: string) {
    s == [] || (!IsSpace(s[0]) && !IsSpace(s[|s| - 1]))
  }

  /** strip(): drops the whitespace at both ends. */
  function Strip(s: string): (r: string)
    ensures IsStripped(r) && |r| <= |s|
    decreases |s|
  {
    if s == [] then s
    else if IsSpace(s[0]) then Strip(s[1..])
    else if IsSpace(s[|s| - 1]) then Strip(s[..|s| - 1])
    else s
  }

  /** The index where the slice that Strip keeps begins. */
  function StripStart(s: string): nat
    decreases |s|
  {
    if s == [] then 0
    else if IsSpace(s[0]) then 1 + StripStart(s[1..])
    else if IsSpace(s[|s| - 1]) then StripStart(s[..|s| - 1])
    else 0
  }

  /** strip() keeps one contiguous slice of its input. */
  lemma {:induction false} StripSlice(s: string)
    ensures StripStart(s) + |Strip(s)| <= |s| && Strip(s) == s[StripStart(s)..StripStart(s) + |Strip(s)|]
    decreases |s|
  {
    if s != [] && IsSpace(s[0]) {
      var t := s[1..];
      StripSlice(t);
      assert Strip(s) == Strip(t) && StripStart(s) == 1 + StripStart(t);
      SliceOfDrop(s, StripStart(t), |Strip(t)|);
    } else if s != [] && IsSpace(s[|s| - 1]) {
      var t := s[..|s| - 1];
      StripSlice(t);
      assert Strip(s) == Strip(t) && StripStart(s) == StripStart(t);
      SliceOfTake(s, StripStart(t), |Strip(t)|);
    }
  }

  lemma SliceOfDrop(s: string, k: nat, n: nat)
    requires 1 + k + n <= |s|
    ensures s[1..][k..k + n] == s[1 + k..1 + k + n]
  {
  }

  lemma SliceOfTake(s: string, k: nat, n: nat)
    requires k + n < |s|
    ensures s[..|s| - 1][k..k + n] == s[k..k + n]
  {
  }

  lemma StripKeepsStripped(s: string)
    requires IsStripped(s)
    ensures Strip(s) == s
  {
  }

  predicate NoSpace(s: string) {
    forall i :: 0 <= i < |s| ==> !IsSpace(s[i])
  }

  /** A string with no space at all is left alone by strip(). */
  lemma StripNoSpace(s: string)
    requires NoSpace(s)
    ensures Strip(s) == s
  {
    StripKeepsStripped(s);
  }

  predicate OccursAt(s: string, p: string, i: int) {
    0 <= i && i + |p| <= |s| && s[i..i + |p|] == p
  }

  /** The operator `p in s`. */
  predicate Contains(s: string, p: string) {
    exists i :: 0 <= i <= |s| - |p| && OccursAt(s, p, i)
  }

  predicate StartsWith(s: string, p: string) {
    |p| <= |s| && s[..|p|] == p
  }

  predicate EndsWith(s: string, p: string) {
    |p| <= |s| && s[|s| - |p|..] == p
  }

  /** str.find(): the first index at or after `k` where `p` occurs. */
  function FindFrom(s: string, p: string, k: nat): (r: Option<nat>)
    ensures r.Some? ==> k <= r.value && OccursAt(s, p, r.value)
    ensures forall i :: k <= i && (r.None? || i < r.value) ==> !OccursAt(s, p, i)
    decreases |s| - k
  {
    if k + |p| > |s| then None
    else if s[k..k + |p|] == p then Some(k)
    else FindFrom(s, p, k + 1)
  }

  function Find(s: string, p: string): (r: Option<nat>)
    ensures r.Some? <==> Contains(s, p)
    ensures r.Some? ==> OccursAt(s, p, r.value) && forall i :: 0 <= i < r.value ==> !OccursAt(s, p, i)
  {
    FindFrom(s, p, 0)
  }

  /** The last index where `p` occurs, searching at or below `k`. */
  function FindLastUpTo(s: string, p: string, k: int): (r: Option<nat>)
    ensures r.Some? ==> r.value <= k && OccursAt(s, p, r.value)
    ensures forall i :: i <= k && (r.None? || r.value < i) ==> !OccursAt(s, p, i)
    decreases k + 1
  {
    if k < 0 then None
    else if OccursAt(s, p, k) then Some(k)
    else FindLastUpTo(s, p, k - 1)
  }

  /** s.split(p)[0]: everything before the first occurrence of p (all of s when there is none). */
  function BeforeFirst(s: string, p: string): (r: string)
    requires |p| > 0
    ensures !Contains(r, p)
    ensures StartsWith(s, r)
    ensures if Contains(s, p) then OccursAt(s, p, |r|) else r == s
  {
    match Find(s, p)
    case None => s
    case Some(i) =>
      var r := s[..i];
      forall j | OccursAt(r, p, j) ensures OccursAt(s, p, j) {
        assert r[j..j + |p|] == s[j..j + |p|];
      }
      r
  }

  /** s.split(p)[-1]: everything after the last occurrence of p (all of s when there is none). */
  function AfterLast(s: string, p: string): (r: string)
    requires |p| > 0
    ensures !Contains(r, p)
    ensures EndsWith(s, r)
    ensures if Contains(s, p) then OccursAt(s, p, |s| - |r| - |p|) else r == s
  {
    match FindLastUpTo(s, p, |s| - |p|)
    case None => s
    case Some(i) =>
      var r := s[i + |p|..];
      forall j | OccursAt(r, p, j) ensures OccursAt(s, p, i + |p| + j) {
        assert r[j..j + |p|] == s[i + |p| + j..i + |p| + j + |p|];
      }
      r
  }

  /** s.replace(p, q): every non-overlapping occurrence of p, scanning left to right, becomes q. */
  function ReplaceAll(s: string, p: string, q: string): string
    requires |p| > 0
    decreases |s|
  {
    if |s| < |p| then s
    else if s[..|p|] == p then q + ReplaceAll(s[|p|..], p, q)
    else [s[0]] + ReplaceAll(s[1..], p, q)
  }

  /** Replacing a text that does not occur changes nothing. */
  lemma {:induction false} ReplaceAbsent(s: string, p: string, q: string)
    requires |p| > 0 && !Contains(s, p)
    ensures ReplaceAll(s, p, q) == s
    decreases |s|
  {
    if |s| >= |p| {
      assert !OccursAt(s, p, 0);
      forall j | OccursAt(s[1..], p, j) ensures OccursAt(s, p, j + 1) {
        assert s[1..][j..j + |p|] == s[j + 1..j + 1 + |p|];
      }
      ReplaceAbsent(s[1..], p, q);
      assert [s[0]] + s[1..] == s;
    }
  }

  /** A slice of a text lacks whatever the text lacks. */
  lemma SliceLacks(t: string, p: string, k: nat, n: nat)
    requires k + n <= |t| && !Contains(t, p)
    ensures !Contains(t[k..k + n], p)
  {
    var r := t[k..k + n];
    forall j | OccursAt(r, p, j) ensures OccursAt(t, p, k + j) {
      forall m | 0 <= m < |p| ensures t[k + j + m] == p[m] {
        assert r[j..j + |p|][m] == p[m];
      }
      assert t[k + j..k + j + |p|] == p;
    }
  }

  /** Stripping keeps a text free of whatever it lacked. */
  lemma StripLacks(t: string, p: string)
    requires !Contains(t, p)
    ensures !Contains(Strip(t), p)
  {
    StripSlice(t);
    SliceLacks(t, p, StripStart(t), |Strip(t)|);
  }

  /** `any(phrase in line for phrase in phrases)`. */
  predicate HasAny(line: string, phrases: seq<string>)
    decreases |phrases|
  {
    |phrases| > 0 && (Contains(line, phrases[0]) || HasAny(line, phrases[1..]))
  }

  /** Replacing a single character works piece by piece over a concatenation. */
  lemma {:induction false} ReplaceCharConcat(x: string, y: string, c: char, q: string)
    ensures ReplaceAll(x + y, [c], q) == ReplaceAll(x, [c], q) + ReplaceAll(y, [c], q)
    decreases |x|
  {
    if x == [] {
      assert x + y == y;
    } else {
      assert (x + y)[..1] == [x[0]];
      assert (x + y)[1..] == x[1..] + y;
      ReplaceCharConcat(x[1..], y, c, q);
    }
  }

  /** Replacing a character the text does not hold changes nothing. */
  lemma {:induction false} ReplaceCharAbsent(x: string, c: char, q: string)
    requires NoChar(x, c)
    ensures ReplaceAll(x, [c], q) == x
    decreases |x|
  {
    if x != [] {
      assert x[..1] == [x[0]];
      ReplaceCharAbsent(x[1..], c, q);
    }
  }

  /** Replacing one character by another keeps every position: each `c` becomes `d`, the rest stay. */
  lemma {:induction false} ReplaceCharPointwise(s: string, c: char, d: char)
    ensures |ReplaceAll(s, [c], [d])| == |s|
    ensures forall i :: 0 <= i < |s| ==> ReplaceAll(s, [c], [d])[i] == (if s[i] == c then d else s[i])
    decreases |s|
  {
    if |s| >= 1 {
      ReplaceCharPointwise(s[1..], c, d);
      var r := ReplaceAll(s, [c], [d]);
      var t := ReplaceAll(s[1..], [c], [d]);
      assert s[..1] == [s[0]];
      assert r == (if s[0] == c then [d] else [s[0]]) + t;
    }
  }

  /** Stripping a line leaves a line. */
  lemma StripLine(s: string)
    requires IsLine(s)
    ensures IsLine(Strip(s))
  {
    StripSlice(s);
    var k, r := StripStart(s), Strip(s);
    forall i | 0 <= i < |r| ensures !IsLineBreak(r[i]) {
      assert r[i] == s[k + i];
    }
  }

  /** Two lines side by side make one line. */
  lemma LineConcat(a: string, b: string)
    requires IsLine(a) && IsLine(b)
    ensures IsLine(a + b)
  {
    forall i | 0 <= i < |a + b| ensures !IsLineBreak((a + b)[i]) {
      if i >= |a| { assert (a + b)[i] == b[i - |a|]; }
    }
  }

  /** The length of the run of characters satisfying `p` that starts at index `i`. */
  function Run(s: string, i: nat, p: char -> bool): (k: nat)
    requires i <= |s|
    ensures i + k <= |s|
    decreases |s| - i
  {
    if i < |s| && p(s[i]) then 1 + Run(s, i + 1, p) else 0
  }

  /** Every character of the run satisfies `p`, and the one after it (if any) does not. */
  lemma {:induction false} RunSpan(s: string, i: nat, p: char -> bool)
    requires i <= |s|
    ensures forall j :: i <= j < i + Run(s, i, p) ==> p(s[j])
    ensures i + Run(s, i, p) < |s| ==> !p(s[i + Run(s, i, p)])
    decreases |s| - i
  {
    if i < |s| && p(s[i]) {
      RunSpan(s, i + 1, p);
    }
  }

  /** The run length can be read off a known stretch and the character that ends it. */
  lemma {:induction false} RunAt(s: string, i: nat, n: nat, p: char -> bool)
    requires i + n <= |s|
    requires forall j :: i <= j < i + n ==> p(s[j])
    requires i + n == |s| || !p(s[i + n])
    ensures Run(s, i, p) == n
    decreases n
  {
    if n > 0 {
      RunAt(s, i + 1, n - 1, p);
    }
  }

  /** A run that spells a known text satisfying `p` throughout. */
  lemma RunOver(s: string, i: nat, t: string, p: char -> bool)
    requires i + |t| <= |s|
    requires forall j :: i <= j < i + |t| ==> s[j] == t[j - i]
    requires forall j :: 0 <= j < |t| ==> p(t[j])
    requires i + |t| == |s| || !p(s[i + |t|])
    ensures Run(s, i, p) == |t|
  {
    forall j | i <= j < i + |t| ensures p(s[j]) {
      assert s[j] == t[j - i];
    }
    RunAt(s, i, |t|, p);
  }

  /** The regex tail `\s+(.+)$` tried at index `i` of a line (a line has no '\n', so `.` takes
      every character). The whitespace run is taken whole, except that when nothing follows it
      one whitespace character is given back to the group. */
  function SpacedTail(s: Line, i: nat): (r: Option<string>)
    requires i <= |s|
    ensures r.Some? <==> i + 1 < |s| && IsSpace(s[i])
    ensures r.Some? ==> 1 <= |r.value| < |s| - i && EndsWith(s, r.value)
                        && forall m :: i <= m < |s| - |r.value| ==> IsSpace(s[m])
  {
    var k := Run(s, i, IsSpace);
    RunSpan(s, i, IsSpace);
    if k == 0 then None
    else if i + k < |s| then Some(s[i + k..])
    else if k >= 2 then Some(s[|s| - 1..])
    else None
  }

  /** The separator of a date pattern: ' ' stands for the class `\s`, any other character for itself. */
  predicate IsSep(c: char, sep: char) {
    if sep == ' ' then IsSpace(c) else c == sep
  }

  /** The date pattern `\d{2}S\d{2}S\d{2}` (with `\d{4}` last when `longYear`) at index `i`,
      for the separator S given by `sep`. */
  predicate DateAt(s: string, i: nat, sep: char, longYear: bool) {
    i + (if longYear then 10 else 8) <= |s|
    && IsDigit(s[i]) && IsDigit(s[i + 1]) && IsSep(s[i + 2], sep)
    && IsDigit(s[i + 3]) && IsDigit(s[i + 4]) && IsSep(s[i + 5], sep)
    && IsDigit(s[i + 6]) && IsDigit(s[i + 7])
    && (longYear ==> IsDigit(s[i + 8]) && IsDigit(s[i + 9]))
  }

  /** A short date is a line. */
  lemma DateIsLine(x: string)
    requires |x| == 8 && DateAt(x, 0, '/', false)
    ensures IsLine(x)
  {
  }

  /** str.upper() on ASCII letters. */
  function Upper(s: string): (r: string)
    ensures |r| == |s|
  {
    seq(|s|, i requires 0 <= i < |s| => if 'a' <= s[i] <= 'z' then (s[i] as int - 32) as char else s[i])
  }

  /** str.lower() on ASCII letters. */
  function Lower(s: string): (r: string)
    ensures |r| == |s|
  {
    seq(|s|, i requires 0 <= i < |s| => if 'A' <= s[i] <= 'Z' then (s[i] as int + 32) as char else s[i])
  }

  predicate NoChar(s: string, c: char) {
    forall i :: 0 <= i < |s| ==> s[i] != c
  }

  /** Replacing a one-character string by a different one leaves none of it behind. */
  lemma {:induction false} ReplaceCharGone(s: string, c: char, d: char)
    requires c != d
    ensures NoChar(ReplaceAll(s, [c], [d]), c)
    decreases |s|
  {
    if |s| >= 1 {
      ReplaceCharGone(s[1..], c, d);
    }
  }

  /** A character absent from the text and from the replacement stays absent. */
  lemma {:induction false} ReplaceKeepsAbsent(s: string, p: string, q: string, c: char)
    requires |p| > 0 && NoChar(s, c) && NoChar(q, c)
    ensures NoChar(ReplaceAll(s, p, q), c)
    decreases |s|
  {
    if |s| >= |p| {
      if s[..|p|] == p {
        ReplaceKeepsAbsent(s[|p|..], p, q, c);
      } else {
        ReplaceKeepsAbsent(s[1..], p, q, c);
      }
    }
  }

  /** After `.replace('\\n', ' ')` no backslash is followed by `n`. */
  lemma {:induction false} ReplaceBackslashNGone(s: string)
    ensures var r := ReplaceAll(s, "\\n", " ");
      !Contains(r, "\\n") && (r != [] ==> s != [] && (r[0] == ' ' || r[0] == s[0]))
    decreases |s|
  {
    var r := ReplaceAll(s, "\\n", " ");
    if |s| >= 2 {
      var t := if s[..2] == "\\n" then s[2..] else s[1..];
      ReplaceBackslashNGone(t);
      var rt := ReplaceAll(t, "\\n", " ");
      var h := if s[..2] == "\\n" then ' ' else s[0];
      assert r == [h] + rt;
      assert h == '\\' && rt != [] ==> rt[0] != 'n' by {
        if h == '\\' && rt != [] {
          assert s[1] != 'n';
          assert rt[0] == ' ' || rt[0] == s[1];
        }
      }
      ConsLacksPair(h, rt);
    }
  }

  /** A character in front of a text without `\\n` adds none, unless it is a backslash before an `n`. */
  lemma ConsLacksPair(h: char, rt: string)
    requires !Contains(rt, "\\n") && (h == '\\' && rt != [] ==> rt[0] != 'n')
    ensures !Contains([h] + rt, "\\n")
  {
    var r := [h] + rt;
    forall j | 0 <= j <= |r| - 2 ensures !OccursAt(r, "\\n", j) {
      if j > 0 {
        assert r[j..j + 2] == rt[j - 1..j + 1];
        assert !OccursAt(rt, "\\n", j - 1);
      } else {
        assert r[..2] == [h, rt[0]];
      }
    }
  }

  /** Slices keep what their text lacks. */
  lemma SliceKeepsAbsent(t: string, k: nat, n: nat)
    requires k + n <= |t| && NoChar(t, '\n') && !Contains(t, "\\n")
    ensures NoChar(t[k..k + n], '\n') && !Contains(t[k..k + n], "\\n")
  {
    var r := t[k..k + n];
    var p := "\\n";
    forall j | 0 <= j <= |r| - |p| && OccursAt(r, p, j) ensures OccursAt(t, p, k + j) {
      assert r[j] == t[k + j] && r[j + 1] == t[k + j + 1];
      assert t[k + j..k + j + 2] == r[j..j + 2];
    }
  }

  lemma SingleLineSteps(s: string, a: string, b: string)
    requires a == ReplaceAll(s, "\n", " ") && b == ReplaceAll(a, "\\n", " ")
    ensures NoChar(Strip(b), '\n') && !Contains(Strip(b), "\\n")
  {
    ReplaceCharGone(s, '\n', ' ');
    ReplaceKeepsAbsent(a, "\\n", " ", '\n');
    ReplaceBackslashNGone(a);
    StripSlice(b);
    var k, n := StripStart(b), |Strip(b)|;
    SliceKeepsAbsent(b, k, n);
    assert Strip(b) == b[k..k + n];
  }

  /** The description cleanup every profile applies: `.replace('\n', ' ').replace('\\n', ' ').strip()`.
      Its result is one stripped line: no newline and no literal backslash-n is left. */
  function SingleLine(s: string): (r: string)
    ensures IsStripped(r)
    ensures NoChar(r, '\n') && !Contains(r, "\\n")
  {
    var a := ReplaceAll(s, "\n", " ");
    var b := ReplaceAll(a, "\\n", " ");
    SingleLineSteps(s, a, b);
    Strip(b)
  }

  /** Turning newlines into blanks works piece by piece over any cut of the text. */
  lemma NewlinesCut(s: string, k: nat)
    requires k <= |s|
    ensures ReplaceAll(s, "\n", " ") == ReplaceAll(s[..k], "\n", " ") + ReplaceAll(s[k..], "\n", " ")
  {
    ReplaceCharCut(s, k, '\n', " ");
  }

  /** Replacing one character works piece by piece over any cut of the text. */
  lemma ReplaceCharCut(s: string, k: nat, c: char, q: string)
    requires k <= |s|
    ensures ReplaceAll(s, [c], q) == ReplaceAll(s[..k], [c], q) + ReplaceAll(s[k..], [c], q)
  {
    var x, y := s[..k], s[k..];
    assert x + y == s;
    ReplaceCharConcat(x, y, c, q);
  }

  /** The two clean-ups commute over a text that opens with a literal backslash-n. */
  lemma OrderAfterPair(s: string)
    requires |s| >= 2 && s[..2] == "\\n"
    requires ReplaceAll(ReplaceAll(s[2..], "\\n", " "), "\n", " ") == ReplaceAll(ReplaceAll(s[2..], "\n", " "), "\\n", " ")
    ensures ReplaceAll(ReplaceAll(s, "\\n", " "), "\n", " ") == ReplaceAll(ReplaceAll(s, "\n", " "), "\\n", " ")
  {
    var n := ReplaceAll(s, "\n", " ");
    NewlinesCut(s, 2);
    ReplaceCharAbsent(s[..2], '\n', " ");
    assert n[..2] == "\\n" && n[2..] == ReplaceAll(s[2..], "\n", " ");
    var b := ReplaceAll(s[2..], "\\n", " ");
    assert ReplaceAll(s, "\\n", " ") == " " + b;
    ReplaceCharConcat(" ", b, '\n', " ");
    ReplaceCharAbsent(" ", '\n', " ");
  }

  /** The two clean-ups commute over a text that opens with anything else. */
  lemma OrderAfterChar(s: string)
    requires |s| >= 2 && s[..2] != "\\n"
    requires ReplaceAll(ReplaceAll(s[1..], "\\n", " "), "\n", " ") == ReplaceAll(ReplaceAll(s[1..], "\n", " "), "\\n", " ")
    ensures ReplaceAll(ReplaceAll(s, "\\n", " "), "\n", " ") == ReplaceAll(ReplaceAll(s, "\n", " "), "\\n", " ")
  {
    var n := ReplaceAll(s, "\n", " ");
    ReplaceCharPointwise(s, '\n', ' ');
    NewlinesCut(s, 1);
    ReplaceCharPointwise(s[..1], '\n', ' ');
    var h := ReplaceAll(s[..1], "\n", " ");
    assert h == n[..1] && n[1..] == ReplaceAll(s[1..], "\n", " ");
    assert s[..2] == [s[0], s[1]] && n[..2] == [n[0], n[1]];
    var b := ReplaceAll(s[1..], "\\n", " ");
    assert s[..1] == [s[0]];
    assert ReplaceAll(s, "\\n", " ") == s[..1] + b;
    ReplaceCharConcat(s[..1], b, '\n', " ");
  }

  /** `.replace('\\n', ' ').replace('\n', ' ')` and `.replace('\n', ' ').replace('\\n', ' ')` agree:
      neither replacement can make or break an occurrence of the other's pattern. */
  lemma {:induction false} ReplaceOrderCommutes(s: string)
    ensures ReplaceAll(ReplaceAll(s, "\\n", " "), "\n", " ") == ReplaceAll(ReplaceAll(s, "\n", " "), "\\n", " ")
    decreases |s|
  {
    if |s| < 2 {
      ReplaceCharPointwise(s, '\n', ' ');
    } else if s[..2] == "\\n" {
      ReplaceOrderCommutes(s[2..]);
      OrderAfterPair(s);
    } else {
      ReplaceOrderCommutes(s[1..]);
      OrderAfterChar(s);
    }
  }

  /** s.split(c) for a one-character separator: the pieces between the occurrences of `c`. */
  function Split(s: string, c: char): (parts: seq<string>)
    ensures |parts| >= 1
    decreases |s|
  {
    if s == [] then [""]
    else
      var rest := Split(s[1..], c);
      if s[0] == c then [""] + rest else [[s[0]] + rest[0]] + rest[1..]
  }

  /** c.join(parts). */
  function Join(parts: seq<string>, c: char): string
    requires |parts| >= 1
  {
    if |parts| == 1 then parts[0] else parts[0] + [c] + Join(parts[1..], c)
  }

  /** A text without the separator is one piece. */
  lemma {:induction false} SplitNone(x: string, c: char)
    requires NoChar(x, c)
    ensures Split(x, c) == [x]
    decreases |x|
  {
    if x != [] {
      SplitNone(x[1..], c);
      assert [x[0]] + x[1..] == x;
    }
  }

  /** The first separator ends the first piece. */
  lemma {:induction false} SplitFirst(x: string, c: char, y: string)
    requires NoChar(x, c)
    ensures Split(x + [c] + y, c) == [x] + Split(y, c)
    decreases |x|
  {
    var s := x + [c] + y;
    if x == [] {
      assert s[1..] == y;
    } else {
      assert s[1..] == x[1..] + [c] + y;
      SplitFirst(x[1..], c, y);
      assert [x[0]] + x[1..] == x;
    }
  }

  /** Splitting a joined text gives the pieces back, when no piece holds the separator. */
  lemma {:induction false} JoinSplit(parts: seq<string>, c: char)
    requires |parts| >= 1
    requires forall k :: 0 <= k < |parts| ==> NoChar(parts[k], c)
    ensures Split(Join(parts, c), c) == parts
    decreases |parts|
  {
    if |parts| == 1 {
      SplitNone(parts[0], c);
    } else {
      JoinSplit(parts[1..], c);
      SplitFirst(parts[0], c, Join(parts[1..], c));
      assert [parts[0]] + parts[1..] == parts;
    }
  }

  /** Joining the pieces of a split gives the text back. */
  lemma {:induction false} SplitJoin(s: string, c: char)
    ensures Join(Split(s, c), c) == s
    decreases |s|
  {
    if s != [] {
      SplitJoin(s[1..], c);
      var rest := Split(s[1..], c);
      if s[0] != c && |rest| > 1 {
        assert Join(rest, c) == rest[0] + [c] + Join(rest[1..], c);
        assert ([[s[0]] + rest[0]] + rest[1..])[1..] == rest[1..];
      } else if s[0] == c {
        assert ([""] + rest)[1..] == rest;
      }
      assert [s[0]] + s[1..] == s;
    }
  }
}
