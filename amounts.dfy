/** Decimal numerals: Python's float() on the literals the converters build, and the canonical
    European formatter f"{v:,.2f}" with ',' and '.' swapped afterwards. */
module Amounts {
  import opened Wrappers
  import opened PyText

  /** A float read from a decimal literal, kept exactly: (-1)^neg * units / 10^scale.
      `neg` is the sign as written, so "-0" gives negative zero, as in Python. */
  datatype PyFloat = PyFloat(neg: bool, units: nat, scale: nat)

  /** The regex class `[\d\.,]`: a character of a European numeral. */
  predicate IsAmountChar(c: char) {
    IsDigit(c) || c == '.' || c == ','
  }

  /** A run of amount characters is a line. */
  lemma AmountIsLine(a: string)
    requires forall j :: 0 <= j < |a| ==> IsAmountChar(a[j])
    ensures IsLine(a)
  {
  }

  function Pow10(n: nat): (r: nat)
    ensures r >= 1
  {
    if n == 0 then 1 else 10 * Pow10(n - 1)
  }

  function DigitValue(c: char): nat
    requires IsDigit(c)
  {
    c as int - '0' as int
  }

  function DigitChar(d: nat): (c: char)
    requires d < 10
    ensures IsDigit(c) && DigitValue(c) == d
  {
    ('0' as int + d) as char
  }

  /** int() of a string of ASCII digits ("" reads as 0). */
  function DigitsValue(s: string): nat
    requires AllDigits(s)
  {
    if s == [] then 0 else DigitsValue(s[..|s| - 1]) * 10 + DigitValue(s[|s| - 1])
  }

  lemma {:induction false} DigitsValueAppend(x: string, y: string)
    requires AllDigits(x) && AllDigits(y)
    ensures AllDigits(x + y)
    ensures DigitsValue(x + y) == DigitsValue(x) * Pow10(|y|) + DigitsValue(y)
    decreases |y|
  {
    var xy := x + y;
    assert AllDigits(xy) by {
      forall i | 0 <= i < |xy| ensures IsDigit(xy[i]) {
        if i < |x| { assert xy[i] == x[i]; } else { assert xy[i] == y[i - |x|]; }
      }
    }
    if y == [] {
      assert xy == x;
    } else {
      var y' := y[..|y| - 1];
      assert xy[..|xy| - 1] == x + y';
      DigitsValueAppend(x, y');
      var a, b, d := DigitsValue(x), DigitsValue(y'), DigitValue(y[|y| - 1]);
      assert DigitsValue(xy) == DigitsValue(x + y') * 10 + d;
      assert Pow10(|y|) == Pow10(|y'|) * 10;
      assert DigitsValue(y) == b * 10 + d;
      ShiftDigit(a, Pow10(|y'|), b, d);
    }
  }

  /** Appending one digit to a numeral whose value is a * p + b. */
  lemma ShiftDigit(a: int, p: int, b: int, d: int)
    ensures (a * p + b) * 10 + d == a * (p * 10) + (b * 10 + d)
  {
  }

  /** str(n): the decimal digits of n without leading zeros, "0" for zero. */
  function Digits(n: nat): (r: string)
    ensures |r| >= 1 && AllDigits(r) && DigitsValue(r) == n
    ensures |r| > 1 ==> r[0] != '0'
  {
    if n < 10 then [DigitChar(n)]
    else
      var r := Digits(n / 10) + [DigitChar(n % 10)];
      assert r[..|r| - 1] == Digits(n / 10);
      r
  }

  /** How many digits the string starts with. */
  function LeadingDigits(s: string): (k: nat)
    ensures k <= |s| && AllDigits(s[..k])
    ensures k < |s| ==> !IsDigit(s[k])
  {
    if s != [] && IsDigit(s[0]) then
      var k := 1 + LeadingDigits(s[1..]);
      assert s[..k] == [s[0]] + s[1..][..k - 1];
      k
    else 0
  }

  lemma {:induction false} LeadingDigitsOf(x: string, y: string)
    requires AllDigits(x) && (y == [] || !IsDigit(y[0]))
    ensures LeadingDigits(x + y) == |x|
    decreases |x|
  {
    if x == [] {
      assert x + y == y;
    } else {
      assert (x + y)[0] == x[0];
      assert (x + y)[1..] == x[1..] + y;
      LeadingDigitsOf(x[1..], y);
    }
  }

  /** The unsigned part of a float literal: digits with at most one '.', at least one digit in
      all. Gives (units, scale) for the value units / 10^scale. */
  function UnsignedLiteral(b: string): Option<(nat, nat)>
  {
    var i := LeadingDigits(b);
    var rest := b[i..];
    if rest == [] then
      if i > 0 then Some((DigitsValue(b[..i]), 0)) else None
    else if rest[0] == '.' && AllDigits(rest[1..]) && (i > 0 || |rest| > 1) then
      DigitsValueAppend(b[..i], rest[1..]);
      Some((DigitsValue(b[..i] + rest[1..]), |rest| - 1))
    else None
  }

  /** float(s) for a decimal literal: surrounding whitespace, an optional sign, then an unsigned
      literal. None where Python raises ValueError. */
  function ParseFloat(s: string): Option<PyFloat>
  {
    SignedLiteral(Strip(s))
  }

  /** An optional '+' or '-' followed by an unsigned literal. */
  function SignedLiteral(t: string): Option<PyFloat>
  {
    var signed := |t| > 0 && (t[0] == '-' || t[0] == '+');
    var u := UnsignedLiteral(if signed then t[1..] else t);
    if u.None? then None else Some(PyFloat(signed && t[0] == '-', u.value.0, u.value.1))
  }

  function Quotient(n: nat, d: nat): nat
    requires d >= 1
  {
    if n < d then 0 else 1 + Quotient(n - d, d)
  }

  /** The magnitude in hundredths that `.2f` prints. Exact for up to two decimals; a third or
      later decimal is rounded half up on the written digits. */
  function RoundCents(f: PyFloat): nat {
    if f.scale == 0 then 100 * f.units
    else if f.scale == 1 then 10 * f.units
    else if f.scale == 2 then f.units
    else Quotient(f.units + 5 * Pow10(f.scale - 3), Pow10(f.scale - 2))
  }

  /** The `,` thousands grouping of a digit string, already in the European form: a '.' every
      three digits from the right. */
  function Group(d: string): string
  {
    if |d| <= 3 then d else Group(d[..|d| - 3]) + "." + d[|d| - 3..]
  }

  /** Grouping keeps the leading digit in front. */
  lemma {:induction false} GroupHead(d: string)
    requires |d| >= 1
    ensures |Group(d)| >= 1 && Group(d)[0] == d[0]
    decreases |d|
  {
    if |d| > 3 {
      GroupHead(d[..|d| - 3]);
    }
  }

  /** Grouping a digit string leaves only digits and the dots it put in. */
  lemma {:induction false} GroupChars(d: string)
    requires AllDigits(d)
    ensures forall j :: 0 <= j < |Group(d)| ==> IsDigit(Group(d)[j]) || Group(d)[j] == '.'
    decreases |d|
  {
    if |d| > 3 {
      var h, t := d[..|d| - 3], d[|d| - 3..];
      GroupChars(h);
      var g := Group(h);
      assert Group(d) == g + "." + t;
      forall j | 0 <= j < |Group(d)| ensures IsDigit(Group(d)[j]) || Group(d)[j] == '.' {
        if j < |g| {
          assert Group(d)[j] == g[j];
        } else if j > |g| {
          assert Group(d)[j] == t[j - |g| - 1];
        }
      }
    }
  }

  /** The two digits after the decimal comma. */
  function CentsDigits(c: nat): (dd: string)
    ensures |dd| == 2 && AllDigits(dd) && DigitsValue(dd) == c % 100
  {
    var r := c % 100;
    var dd := [DigitChar(r / 10), DigitChar(r % 10)];
    assert dd[..1] == [dd[0]] && dd[..1][..0] == [];
    assert DigitsValue(dd[..1]) == r / 10;
    dd
  }

  /** The canonical amount text: f"{v:,.2f}" followed by the ','/'.' swap, for a value of sign
      `neg` whose magnitude is `cents` hundredths. Python prints the '-' for negative zero too. */
  function FormatCents(neg: bool, cents: nat): string
  {
    (if neg then "-" else "") + Group(Digits(cents / 100)) + "," + CentsDigits(cents)
  }

  /** Zero prints as "0,00", and negative zero keeps its sign. */
  lemma ZeroText()
    ensures FormatCents(false, 0) == "0,00" && FormatCents(true, 0) == "-0,00"
  {
    assert Digits(0) == "0" && Group("0") == "0";
    assert CentsDigits(0) == "00";
  }

  function FormatFloat(f: PyFloat): string {
    FormatCents(f.neg, RoundCents(f))
  }

  /** `.replace('.', '').replace(',', '.')`: the European numeral rewritten as a Python literal. */
  function EuToPy(s: string): string {
    ReplaceAll(ReplaceAll(s, ".", ""), ",", ".")
  }

  lemma {:induction false} Ungroup(d: string)
    requires AllDigits(d)
    ensures ReplaceAll(Group(d), ".", "") == d
    decreases |d|
  {
    if |d| <= 3 {
      ReplaceCharAbsent(d, '.', "");
    } else {
      var h, t := d[..|d| - 3], d[|d| - 3..];
      assert Group(d) == Group(h) + "." + t;
      Ungroup(h);
      assert AllDigits(t);
      DropJoiningDot(Group(h), h, t);
      assert h + t == d;
    }
  }

  lemma DropJoiningDot(g: string, h: string, t: string)
    requires ReplaceAll(g, ".", "") == h && AllDigits(t)
    ensures ReplaceAll(g + "." + t, ".", "") == h + t
  {
    ReplaceCharConcat(g + ".", t, '.', "");
    ReplaceCharConcat(g, ".", '.', "");
    ReplaceCharAbsent(t, '.', "");
    assert ReplaceAll(".", ".", "") == "";
  }

  /** Rewriting the canonical text as a Python literal gives its digits with one '.' before the cents. */
  lemma EuToPyOfFormat(neg: bool, c: nat)
    ensures EuToPy(FormatCents(neg, c)) == (if neg then "-" else "") + Digits(c / 100) + "." + CentsDigits(c)
  {
    DotsDropped(neg, c);
    CommaToPoint(if neg then "-" else "", Digits(c / 100), CentsDigits(c));
  }

  /** Dropping the thousands dots of the canonical text leaves its digits and the decimal comma. */
  lemma DotsDropped(neg: bool, c: nat)
    ensures ReplaceAll(FormatCents(neg, c), ".", "") == (if neg then "-" else "") + Digits(c / 100) + "," + CentsDigits(c)
  {
    var sg := if neg then "-" else "";
    var d := Digits(c / 100);
    var dd := CentsDigits(c);
    assert FormatCents(neg, c) == sg + Group(d) + "," + dd;
    Ungroup(d);
    ReplaceCharConcat(sg + Group(d) + ",", dd, '.', "");
    ReplaceCharConcat(sg + Group(d), ",", '.', "");
    ReplaceCharConcat(sg, Group(d), '.', "");
    ReplaceCharAbsent(sg, '.', "");
    ReplaceCharAbsent(",", '.', "");
    ReplaceCharAbsent(dd, '.', "");
  }

  /** The one comma becomes the decimal point. */
  lemma CommaToPoint(sg: string, d: string, dd: string)
    requires NoChar(sg, ',') && NoChar(d, ',') && NoChar(dd, ',')
    ensures ReplaceAll(sg + d + "," + dd, ",", ".") == sg + d + "." + dd
  {
    ReplaceCharConcat(sg + d + ",", dd, ',', ".");
    ReplaceCharConcat(sg + d, ",", ',', ".");
    ReplaceCharConcat(sg, d, ',', ".");
    ReplaceCharAbsent(sg, ',', ".");
    ReplaceCharAbsent(d, ',', ".");
    ReplaceCharAbsent(dd, ',', ".");
    assert ReplaceAll(",", ",", ".") == ".";
  }

  lemma UnsignedDecimal(d: string, f: string)
    requires |d| >= 1 && AllDigits(d) && AllDigits(f)
    ensures AllDigits(d + f)
    ensures UnsignedLiteral(d + "." + f) == Some((DigitsValue(d + f), |f|))
  {
    DigitsValueAppend(d, f);
    var body := d + "." + f;
    LeadingDigitsOf(d, "." + f);
    assert body == d + ("." + f);
    assert body[|d|..] == "." + f;
    assert body[..|d|] == d;
    assert ("." + f)[1..] == f;
  }

  lemma NumeralNoSpace(sg: string, d: string, f: string)
    requires sg == "" || sg == "-"
    requires AllDigits(d) && AllDigits(f)
    ensures NoSpace(sg + d + "." + f)
  {
    var t := sg + d + "." + f;
    forall i | 0 <= i < |t| ensures IsDigit(t[i]) || t[i] == '-' || t[i] == '.' {
      if i < |sg| { assert t[i] == sg[i]; }
      else if i < |sg| + |d| { assert t[i] == d[i - |sg|]; }
      else if i > |sg| + |d| { assert t[i] == f[i - |sg| - |d| - 1]; }
    }
  }

  /** A float literal holds at most one '.'. */
  lemma LiteralOneDot(b: string, i: nat, j: nat)
    requires i < j < |b| && b[i] == '.' && b[j] == '.'
    ensures UnsignedLiteral(b).None?
  {
    var k := LeadingDigits(b);
    var rest := b[k..];
    if i > k {
      assert !IsDigit(rest[i - k]);
    } else if i == k {
      assert !IsDigit(rest[j - k]);
    }
  }

  /** float() of an optional minus sign followed by a literal that starts with a digit. */
  lemma ParseFloatSigned(neg: bool, body: string)
    requires |body| >= 1 && IsDigit(body[0])
    requires NoSpace((if neg then "-" else "") + body)
    requires UnsignedLiteral(body).Some?
    ensures ParseFloat((if neg then "-" else "") + body)
         == Some(PyFloat(neg, UnsignedLiteral(body).value.0, UnsignedLiteral(body).value.1))
  {
    var t := (if neg then "-" else "") + body;
    StripNoSpace(t);
    assert ParseFloat(t) == SignedLiteral(t);
    if neg {
      assert t[0] == '-' && t[1..] == body;
    } else {
      assert t == body;
      assert !(t[0] == '-' || t[0] == '+');
    }
  }

  /** float() of "[-]<digits>.<digits>". */
  lemma ParseFloatDecimal(neg: bool, d: string, f: string)
    requires |d| >= 1 && AllDigits(d) && AllDigits(f)
    ensures AllDigits(d + f)
    ensures ParseFloat((if neg then "-" else "") + d + "." + f) == Some(PyFloat(neg, DigitsValue(d + f), |f|))
  {
    var sg, body := if neg then "-" else "", d + "." + f;
    UnsignedDecimal(d, f);
    NumeralNoSpace(sg, d, f);
    SignedBody(sg, d, f);
    ParseFloatSigned(neg, body);
  }

  lemma SignedBody(sg: string, d: string, f: string)
    requires |d| >= 1
    ensures sg + d + "." + f == sg + (d + "." + f) && (d + "." + f)[0] == d[0]
  {
  }

  /** The integer and cent digits together spell the cent count. */
  lemma CentsSplit(c: nat)
    ensures AllDigits(Digits(c / 100) + CentsDigits(c))
    ensures DigitsValue(Digits(c / 100) + CentsDigits(c)) == c
  {
    var d := Digits(c / 100);
    var dd := CentsDigits(c);
    DigitsValueAppend(d, dd);
    assert Pow10(2) == 100;
    var w := c / 100;
    assert DigitsValue(d + dd) == w * 100 + c % 100;
  }

  /** Reading back the canonical text gives exactly the value it was printed from. */
  lemma FormatParseRoundTrip(neg: bool, c: nat)
    ensures ParseFloat(EuToPy(FormatCents(neg, c))) == Some(PyFloat(neg, c, 2))
  {
    EuToPyOfFormat(neg, c);
    ParseFloatDecimal(neg, Digits(c / 100), CentsDigits(c));
    CentsSplit(c);
  }

  /** The canonical text has no whitespace at either end, so strip() leaves it alone. */
  lemma FormatCentsStripped(neg: bool, c: nat)
    ensures |FormatCents(neg, c)| >= 4 && Strip(FormatCents(neg, c)) == FormatCents(neg, c)
  {
    var g, cc := Group(Digits(c / 100)), CentsDigits(c);
    var s := FormatCents(neg, c);
    GroupHead(Digits(c / 100));
    assert s == (if neg then "-" else "") + g + "," + cc;
    assert s[|s| - 1] == cc[1];
    assert s[0] == (if neg then '-' else g[0]);
    StripKeepsStripped(s);
  }

  /** An unsigned literal with a decimal point. */
  lemma PlainDecimal(d: string, f: string)
    requires |d| >= 1 && AllDigits(d) && AllDigits(f)
    ensures AllDigits(d + f)
    ensures ParseFloat(d + "." + f) == Some(PyFloat(false, DigitsValue(d + f), |f|))
  {
    ParseFloatDecimal(false, d, f);
    assert "" + d == d;
  }

  lemma FormatFloatOfCents(neg: bool, c: nat)
    ensures FormatFloat(PyFloat(neg, c, 2)) == FormatCents(neg, c)
  {
  }
}
