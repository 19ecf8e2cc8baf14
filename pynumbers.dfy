/**
 * Python's `int(text)` and `float(text)` over a decimal grammar:
 * surrounding whitespace, an optional sign, and digits (`int`) or
 * digits with an optional decimal point (`float`: "12", "12.", "12.5", ".5").
 * A text outside the grammar raises ValueError, modelled as `None`.
 * The surrounding whitespace is what `strip` removes; Python's `int` and
 * `float` differ from that in one respect, rejecting the separators
 * U+001C to U+001F, which this model strips like other whitespace.
 */
module PyNumbers {
  import opened Wrappers
  import opened PyStrings

  predicate IsDigit(c: char) { '0' <= c <= '9' }

  predicate AllDigits(s: string) {
    forall k :: 0 <= k < |s| ==> IsDigit(s[k])
  }

  function DigitValue(c: char): nat
    requires IsDigit(c)
  {
    (c as int) - ('0' as int)
  }

  function DigitChar(d: nat): (c: char)
    requires d < 10
    ensures IsDigit(c) && DigitValue(c) == d
  {
    (('0' as int) + d) as char
  }

  /** The value of a run of decimal digits, most significant first. */
  function DigitsValue(s: string): nat
    requires AllDigits(s)
  {
    if s == [] then 0 else 10 * DigitsValue(s[..|s| - 1]) + DigitValue(s[|s| - 1])
  }

  function Pow10(n: nat): (p: nat)
    ensures p > 0
  {
    if n == 0 then 1 else 10 * Pow10(n - 1)
  }

  /** An optional leading sign: whether it is '-', and the rest of the text. */
  function SplitSign(s: string): (bool, string) {
    if s != [] && (s[0] == '+' || s[0] == '-') then (s[0] == '-', s[1..]) else (false, s)
  }

  /** One or more digits. */
  predicate IsUnsignedInt(s: string) {
    s != [] && AllDigits(s)
  }

  /** The number of digits `s` starts with. */
  function LeadingDigits(s: string): (i: nat)
    ensures i <= |s| && AllDigits(s[..i])
    ensures i == |s| || !IsDigit(s[i])
  {
    if s != [] && IsDigit(s[0]) then
      var k := LeadingDigits(s[1..]);
      assert s[..k + 1] == [s[0]] + s[1..][..k];
      k + 1
    else 0
  }

  /** Digits with at most one decimal point and at least one digit. */
  predicate IsUnsignedDecimal(s: string) {
    var i := LeadingDigits(s);
    if i == |s| then i > 0
    else s[i] == '.' && AllDigits(s[i + 1..]) && (i > 0 || i + 1 < |s|)
  }

  function DecimalValue(s: string): real
    requires IsUnsignedDecimal(s)
  {
    var i := LeadingDigits(s);
    var whole := DigitsValue(s[..i]) as real;
    if i == |s| then whole else whole + Fraction(DigitsValue(s[i + 1..]), |s| - i - 1)
  }

  /** `n` tenths, hundredths, ... as `w` is 1, 2, ... */
  function Fraction(n: nat, w: nat): real {
    if w == 0 then n as real else Fraction(n, w - 1) / 10.0
  }

  /** `int(s)`. */
  function PyInt(s: string): Option<int> {
    SignedInt(Strip(s))
  }

  /** `int` of a text without surrounding whitespace. */
  function SignedInt(t: string): Option<int> {
    var p := SplitSign(t);
    if IsUnsignedInt(p.1) then
      Some(if p.0 then -(DigitsValue(p.1) as int) else DigitsValue(p.1) as int)
    else None
  }

  /** `float(s)`. */
  function PyFloat(s: string): Option<real> {
    SignedDecimal(Strip(s))
  }

  /** `float` of a text without surrounding whitespace. */
  function SignedDecimal(t: string): Option<real> {
    var p := SplitSign(t);
    if IsUnsignedDecimal(p.1) then
      Some(if p.0 then -DecimalValue(p.1) else DecimalValue(p.1))
    else None
  }

  // ---------------------------------------------------------------------
  // Properties of the two parsers
  // ---------------------------------------------------------------------

  /** Whatever `int` accepts, `float` accepts with the same value. */
  lemma PyIntThenPyFloat(s: string)
    requires PyInt(s).Some?
    ensures PyFloat(s) == Some(PyInt(s).value as real)
  {
    var body := SplitSign(Strip(s)).1;
    LeadingDigitsOf(body, []);
    assert body + [] == body && body[..|body|] == body;
  }

  /** The leading digits of `a + rest` are `a`, when `rest` does not start with a digit. */
  lemma {:induction false} LeadingDigitsOf(a: string, rest: string)
    requires AllDigits(a)
    requires rest == [] || !IsDigit(rest[0])
    ensures LeadingDigits(a + rest) == |a|
  {
    if a != [] {
      assert (a + rest)[1..] == a[1..] + rest;
      LeadingDigitsOf(a[1..], rest);
    }
  }

  /** A character that is neither whitespace survives `strip`. */
  lemma StripKeeps(s: string, c: char)
    requires c in s && !IsSpace(c)
    ensures c in Strip(s)
  {
    var k :| 0 <= k < |s| && s[k] == c;
    assert s == s[..k] + [c] + s[k + 1..];
    StripAroundNonSpace(s[..k], c, s[k + 1..]);
  }

  /** `float` rejects any text holding a character outside its grammar, such as ':'. */
  lemma PyFloatRejects(s: string, c: char)
    requires c in s && !IsSpace(c) && !IsDigit(c) && c != '.' && c != '+' && c != '-'
    ensures PyFloat(s) == None
    ensures PyInt(s) == None
  {
    StripKeeps(s, c);
    var t := Strip(s);
    var body := SplitSign(t).1;
    assert c in body by {
      var k :| 0 <= k < |t| && t[k] == c;
      if t != [] && (t[0] == '+' || t[0] == '-') { assert body[k - 1] == c; }
    }
    var i := LeadingDigits(body);
    assert !IsUnsignedInt(body);
    if i < |body| && body[i] == '.' {
      var k :| 0 <= k < |body| && body[k] == c;
      assert k > i;
      assert body[i + 1..][k - i - 1] == c;
    }
  }

  /** Whitespace around the text does not matter to `float`. */
  lemma PyFloatIgnoresTrim(s: string)
    ensures PyFloat(TrimStart(s)) == PyFloat(s)
    ensures PyFloat(TrimEnd(s)) == PyFloat(s)
  {
    StripTrimStart(s);
    StripTrimEnd(s);
  }

  // ---------------------------------------------------------------------
  // Writing numbers, and reading them back
  // ---------------------------------------------------------------------

  /** The shortest decimal text of `n`. */
  function ShowNat(n: nat): (s: string)
    ensures IsUnsignedInt(s)
  {
    if n < 10 then [DigitChar(n)] else ShowNat(n / 10) + [DigitChar(n % 10)]
  }

  /** `n` written with exactly `w` digits, zero-padded on the left. */
  function Padded(n: nat, w: nat): (s: string)
    requires n < Pow10(w)
    ensures |s| == w && AllDigits(s)
  {
    if w == 0 then [] else Padded(n / 10, w - 1) + [DigitChar(n % 10)]
  }

  lemma {:induction false} ShowNatValue(n: nat)
    ensures DigitsValue(ShowNat(n)) == n
  {
    if n >= 10 {
      ShowNatValue(n / 10);
      var s := ShowNat(n);
      assert s[..|s| - 1] == ShowNat(n / 10);
    }
  }

  lemma {:induction false} PaddedValue(n: nat, w: nat)
    requires n < Pow10(w)
    ensures DigitsValue(Padded(n, w)) == n
  {
    if w > 0 {
      PaddedValue(n / 10, w - 1);
      var s := Padded(n, w);
      assert s[..|s| - 1] == Padded(n / 10, w - 1);
    }
  }

  /** A text with no whitespace at either end is left alone by `strip`. */
  lemma StripUnspaced(s: string)
    requires s != [] ==> !IsSpace(s[0]) && !IsSpace(s[|s| - 1])
    ensures Strip(s) == s
  {
  }

  lemma StripOfDigits(s: string)
    requires AllDigits(s)
    ensures Strip(s) == s
  {
    if s != [] {
      assert IsDigit(s[0]) && IsDigit(s[|s| - 1]);
      StripUnspaced(s);
    }
  }

  /** `int` reads back what `ShowNat` writes. */
  lemma PyIntShowNat(n: nat)
    ensures PyInt(ShowNat(n)) == Some(n)
  {
    StripOfDigits(ShowNat(n));
    ShowNatValue(n);
  }

  /** The value of digits, a point, and digits. */
  lemma DecimalValueOf(a: string, b: string)
    requires IsUnsignedInt(a) && AllDigits(b)
    ensures IsUnsignedDecimal(a + ['.'] + b)
    ensures DecimalValue(a + ['.'] + b) == DigitsValue(a) as real + Fraction(DigitsValue(b), |b|)
  {
    PointTextParts(a, b);
  }

  /** Where the parts of digits, a point, and digits sit. */
  lemma PointTextParts(a: string, b: string)
    requires AllDigits(a)
    ensures LeadingDigits(a + ['.'] + b) == |a|
    ensures (a + ['.'] + b)[|a|] == '.'
    ensures (a + ['.'] + b)[..|a|] == a && (a + ['.'] + b)[|a| + 1..] == b
  {
    var s := a + ['.'] + b;
    LeadingDigitsOf(a, ['.'] + b);
    assert s == a + (['.'] + b);
  }

  /** An unsigned decimal starting with a digit is read as itself. */
  lemma SignedDecimalUnsigned(s: string)
    requires IsUnsignedDecimal(s) && s != [] && IsDigit(s[0])
    ensures SignedDecimal(s) == Some(DecimalValue(s))
  {
    assert SplitSign(s) == (false, s);
  }

  /** `float` reads digits, a point, and `w` digits as their decimal value. */
  lemma PyFloatPointText(a: string, b: string, w: nat)
    requires IsUnsignedInt(a) && AllDigits(b) && |b| == w
    ensures PyFloat(a + ['.'] + b) == Some(DigitsValue(a) as real + Fraction(DigitsValue(b), w))
  {
    var s := a + ['.'] + b;
    assert s[0] == a[0];
    assert !IsSpace(s[|s| - 1]) by {
      if b != [] { assert s[|s| - 1] == b[|b| - 1]; }
    }
    StripUnspaced(s);
    DecimalValueOf(a, b);
    SignedDecimalUnsigned(s);
  }

  /** `float` reads back a decimal written as whole part, point, and `w` fraction digits. */
  lemma PyFloatDecimal(whole: nat, frac: nat, w: nat)
    requires frac < Pow10(w)
    ensures PyFloat(ShowNat(whole) + ['.'] + Padded(frac, w))
      == Some(whole as real + Fraction(frac, w))
  {
    ShowNatValue(whole);
    PaddedValue(frac, w);
    PyFloatOfDigits(ShowNat(whole), Padded(frac, w), w, whole, frac);
  }

  /** `PyFloatPointText` with the values of the two digit runs given. */
  lemma PyFloatOfDigits(a: string, b: string, w: nat, x: nat, y: nat)
    requires IsUnsignedInt(a) && AllDigits(b) && |b| == w
    requires DigitsValue(a) == x && DigitsValue(b) == y
    ensures PyFloat(a + ['.'] + b) == Some(x as real + Fraction(y, w))
  {
    PyFloatPointText(a, b, w);
  }
}
