/**
 * The text handling the counters and the calculator share: stripping a displayed text to its
 * digits and points, parseFloat on what is left, and JavaScript's rendering of an integer.
 */
module DecimalText {
  import opened Wrappers

  predicate IsDigit(c: char) { '0' <= c <= '9' }

  /** The characters `replace(/[^0-9.]/g, '')` keeps. */
  predicate IsNumeric(c: char) { IsDigit(c) || c == '.' }

  predicate AllDigits(s: string) { forall k :: 0 <= k < |s| ==> IsDigit(s[k]) }

  function Pow10(n: nat): (p: nat)
    ensures p >= 1
  {
    if n == 0 then 1 else 10 * Pow10(n - 1)
  }

  function DigitValue(c: char): nat
    requires IsDigit(c)
  {
    c as int - '0' as int
  }

  function DigitChar(k: nat): (c: char)
    requires k < 10
    ensures IsDigit(c) && DigitValue(c) == k
  {
    ('0' as int + k) as char
  }

  /** The number a string of decimal digits denotes; it has fewer digits than its power of ten. */
  function DigitsValue(d: string): (v: nat)
    requires AllDigits(d)
    ensures v < Pow10(|d|)
  {
    if d == [] then 0 else DigitsValue(d[..|d| - 1]) * 10 + DigitValue(d[|d| - 1])
  }

  /** The value of the digits after a decimal point: a fraction in [0, 1). */
  function Fraction(e: string): (f: real)
    requires AllDigits(e)
    ensures 0.0 <= f < 1.0
  {
    var v, p := DigitsValue(e) as real, Pow10(|e|) as real;
    QuotientBelowOne(v, p);
    v / p
  }

  lemma QuotientBelowOne(v: real, p: real)
    requires 0.0 <= v < p
    ensures 0.0 <= v / p < 1.0
  {
  }

  /** The text with every character other than a digit or a point removed, order kept. */
  function Strip(s: string): (r: string)
    ensures |r| <= |s|
    ensures forall k :: 0 <= k < |r| ==> IsNumeric(r[k])
  {
    if s == [] then []
    else if IsNumeric(s[0]) then [s[0]] + Strip(s[1..])
    else Strip(s[1..])
  }

  /** Stripping works character by character: it distributes over concatenation. */
  lemma {:induction false} StripConcat(a: string, b: string)
    ensures Strip(a + b) == Strip(a) + Strip(b)
  {
    if a == [] {
      assert a + b == b;
    } else {
      assert (a + b)[1..] == a[1..] + b;
      StripConcat(a[1..], b);
    }
  }

  /** Stripping leaves a text of digits and points as it is. */
  lemma {:induction false} StripNumeric(s: string)
    requires forall k :: 0 <= k < |s| ==> IsNumeric(s[k])
    ensures Strip(s) == s
  {
    if s != [] {
      StripNumeric(s[1..]);
    }
  }

  /** The number of digits the text starts with. */
  function LeadingDigits(s: string): (n: nat)
    ensures n <= |s| && AllDigits(s[..n])
    ensures n == |s| || !IsDigit(s[n])
  {
    if s == [] || !IsDigit(s[0]) then 0
    else
      var m := LeadingDigits(s[1..]);
      assert s[..m + 1] == [s[0]] + s[1..][..m];
      m + 1
  }

  lemma {:induction false} LeadingDigitsOf(d: string, t: string)
    requires AllDigits(d)
    requires t == [] || !IsDigit(t[0])
    ensures LeadingDigits(d + t) == |d|
  {
    if d != [] {
      assert (d + t)[1..] == d[1..] + t;
      LeadingDigitsOf(d[1..], t);
    }
  }

  /**
   * parseFloat on a text of digits and points: the longest prefix of the form
   * digits, or digits '.' digits, with at least one digit; None stands for NaN.
   */
  function ParseDecimal(s: string): (r: Option<real>)
    ensures r.Some? <==> (0 < |s| && IsDigit(s[0])) || (1 < |s| && s[0] == '.' && IsDigit(s[1]))
    ensures r.Some? ==> r.value >= 0.0
  {
    var i := LeadingDigits(s);
    var whole := DigitsValue(s[..i]) as real;
    if i < |s| && s[i] == '.' then
      var j := LeadingDigits(s[i + 1..]);
      if i == 0 && j == 0 then None
      else Some(whole + Fraction(s[i + 1..][..j]))
    else if i == 0 then None
    else Some(whole)
  }

  /** A plain run of digits parses to the number it denotes. */
  lemma ParseDigits(d: string)
    requires AllDigits(d) && d != []
    ensures ParseDecimal(d) == Some(DigitsValue(d) as real)
  {
    LeadingDigitsOf(d, []);
    assert d + [] == d;
    assert d[..|d|] == d;
  }

  /**
   * Only the first point counts: digits, a point, digits, then anything that does not
   * start with a digit (a second point, say) parse as the first two runs alone.
   */
  lemma ParseFraction(d: string, e: string, rest: string)
    requires AllDigits(d) && AllDigits(e) && (d != [] || e != [])
    requires rest == [] || !IsDigit(rest[0])
    ensures ParseDecimal(d + ['.'] + e + rest) == Some(DigitsValue(d) as real + Fraction(e))
  {
    var s := d + ['.'] + e + rest;
    var i, j := |d|, |e|;
    assert s[..i] == d && i < |s| && s[i] == '.' && s[i + 1..] == e + rest;
    assert LeadingDigits(s) == i && LeadingDigits(s[i + 1..]) == j by {
      assert s == d + (['.'] + e + rest);
      LeadingDigitsOf(d, ['.'] + e + rest);
      LeadingDigitsOf(e, rest);
    }
    assert s[i + 1..][..j] == e by {
      assert (e + rest)[..j] == e;
    }
    ParseAtPoint(s, d, e);
  }

  lemma ParseAtPoint(s: string, d: string, e: string)
    requires AllDigits(d) && AllDigits(e)
    requires |d| == LeadingDigits(s) && |d| < |s| && s[|d|] == '.' && s[..|d|] == d
    requires |e| == LeadingDigits(s[|d| + 1..]) && s[|d| + 1..][..|e|] == e
    requires d != [] || e != []
    ensures ParseDecimal(s) == Some(DigitsValue(d) as real + Fraction(e))
  {
  }

  /** JavaScript's String(n) for an integer n >= 0: its decimal digits. */
  function NatDigits(n: nat): (d: string)
    ensures AllDigits(d) && d != []
    ensures d[0] == '0' ==> n == 0
  {
    if n < 10 then [DigitChar(n)] else NatDigits(n / 10) + [DigitChar(n % 10)]
  }

  lemma {:induction false} NatDigitsValue(n: nat)
    ensures DigitsValue(NatDigits(n)) == n
  {
    if n >= 10 {
      NatDigitsValue(n / 10);
      var d := NatDigits(n);
      assert d[..|d| - 1] == NatDigits(n / 10);
    }
  }

  /** The amount label `'$' + amount`. */
  function DollarLabel(amount: int): (s: string)
    ensures |s| >= 2 && s[0] == '$'
    ensures s[1] == '-' <==> amount < 0
    ensures forall k :: 1 <= k < |s| && !(k == 1 && amount < 0) ==> IsDigit(s[k])
    ensures amount < 0 ==> |s| >= 3 && s[2] != '0'
    ensures amount >= 0 ==> (s[1] == '0' <==> amount == 0)
  {
    "$" + (if amount < 0 then "-" + NatDigits(-amount) else NatDigits(amount))
  }

  /** Stripping an amount label gives back the amount's digits (its sign is lost). */
  lemma LabelDigits(amount: int)
    ensures Strip(DollarLabel(amount)) == NatDigits(if amount < 0 then -amount else amount)
  {
    var d := NatDigits(if amount < 0 then -amount else amount);
    StripNumeric(d);
    if amount < 0 {
      StripConcat("$", "-" + d);
      StripConcat("-", d);
    } else {
      StripConcat("$", d);
    }
  }

  /** Parsing a stripped amount label returns the amount's magnitude. */
  lemma LabelRoundTrip(amount: int)
    ensures ParseDecimal(Strip(DollarLabel(amount))) == Some((if amount < 0 then -amount else amount) as real)
  {
    var n := if amount < 0 then -amount else amount;
    LabelDigits(amount);
    ParseDigits(NatDigits(n));
    NatDigitsValue(n);
  }
}
