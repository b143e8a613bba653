/**
 * Decimal digit strings and the subset of Python's `int(str)` and
 * `float(str)` conversions that the stream consumers rely on: an optional
 * sign, decimal digits, and for `float` an optional fraction and exponent,
 * with surrounding ASCII whitespace ignored. A Python float is modelled by
 * the exact rational value it denotes.
 */
module Numerals {
  import opened Wrappers

  predicate IsDigit(c: char) { '0' <= c <= '9' }

  predicate AllDigits(s: string) {
    forall i :: 0 <= i < |s| ==> IsDigit(s[i])
  }

  function DigitValue(c: char): (d: nat)
    requires IsDigit(c)
    ensures d < 10
  {
    c as int - '0' as int
  }

  function DigitChar(d: nat): (c: char)
    requires d < 10
    ensures IsDigit(c) && DigitValue(c) == d
  {
    ('0' as int + d) as char
  }

  /** The value of a string of decimal digits, most significant first; "" is 0. */
  function DigitsValue(s: string): nat
    requires AllDigits(s)
  {
    if s == [] then 0 else DigitsValue(s[..|s| - 1]) * 10 + DigitValue(s[|s| - 1])
  }

  function Pow10(k: nat): (r: nat)
    ensures r >= 1
  {
    if k == 0 then 1 else 10 * Pow10(k - 1)
  }

  /** A string of `k` digits denotes a number below `10^k`. */
  lemma {:induction false} DigitsValueBound(s: string)
    requires AllDigits(s)
    ensures DigitsValue(s) < Pow10(|s|)
  {
    if s != [] {
      DigitsValueBound(s[..|s| - 1]);
    }
  }

  /** Python's `str(n)` for a non-negative integer: no sign, no leading zeros. */
  function NatToString(n: nat): (r: string)
    ensures 0 < |r| && AllDigits(r)
    ensures |r| > 1 ==> r[0] != '0'
  {
    if n < 10 then [DigitChar(n)] else NatToString(n / 10) + [DigitChar(n % 10)]
  }

  lemma {:induction false} NatToStringValue(n: nat)
    ensures DigitsValue(NatToString(n)) == n
  {
    if n >= 10 {
      var prefix := NatToString(n / 10);
      var r := NatToString(n);
      assert r[..|r| - 1] == prefix;
      NatToStringValue(n / 10);
    }
  }

  /** Python's `str(i)` for any integer. */
  function IntToString(i: int): (r: string)
    ensures 0 < |r|
  {
    if i < 0 then "-" + NatToString(-i) else NatToString(i)
  }

  /**
   * Python's `str.isspace()` on ASCII: space, tab, line feed, vertical tab,
   * form feed, carriage return and the four separators 0x1C to 0x1F.
   */
  predicate IsSpace(c: char) {
    c == ' ' || c == '\t' || c == '\n' || c == '\r' || c as int == 0x0B || c as int == 0x0C ||
    0x1C <= c as int <= 0x1F
  }

  /** `s.strip()` restricted to ASCII white space. */
  function Strip(s: string): (r: string)
    ensures |r| <= |s|
    ensures r != [] ==> !IsSpace(r[0]) && !IsSpace(r[|r| - 1])
    ensures (forall i :: 0 <= i < |s| ==> !IsSpace(s[i])) ==> r == s
  {
    if s == [] then s
    else if IsSpace(s[0]) then Strip(s[1..])
    else if IsSpace(s[|s| - 1]) then Strip(s[..|s| - 1])
    else s
  }

  /** Index of the first occurrence of `c` in `s`, or `|s|` when there is none. */
  function Find(s: string, c: char): (i: nat)
    ensures i <= |s|
    ensures i < |s| ==> s[i] == c
    ensures forall j :: 0 <= j < i ==> s[j] != c
  {
    if s == [] then 0
    else if s[0] == c then 0
    else 1 + Find(s[1..], c)
  }

  /** An optional sign followed by at least one digit. */
  function SignedDigits(s: string): (r: Option<int>)
    ensures r.Some? <==> (s != [] && (s[0] == '+' || s[0] == '-' || IsDigit(s[0])) &&
                          |s| > (if s[0] == '+' || s[0] == '-' then 1 else 0) &&
                          AllDigits(s[(if s[0] == '+' || s[0] == '-' then 1 else 0)..]))
  {
    if s == [] then None
    else
      var start := if s[0] == '+' || s[0] == '-' then 1 else 0;
      var digits := s[start..];
      if digits == [] || !AllDigits(digits) then None
      else if s[0] == '-' then Some(-(DigitsValue(digits) as int))
      else Some(DigitsValue(digits))
  }

  /** Python's `int(s)` on a string: `None` stands for the ValueError it raises. */
  function ParseInteger(s: string): Option<int> {
    SignedDigits(Strip(s))
  }

  function Scale(k: int): (r: real)
    ensures r > 0.0
  {
    if k >= 0 then Pow10(k) as real else 1.0 / (Pow10(-k) as real)
  }

  /** The value of `whole.frac`, both digit strings, at least one of them non-empty. */
  function Mantissa(m: string): Option<real> {
    var dot := Find(m, '.');
    var whole := m[..dot];
    var frac := if dot < |m| then m[dot + 1..] else "";
    if AllDigits(whole) && AllDigits(frac) && |whole| + |frac| > 0 then
      Some(DigitsValue(whole) as real + DigitsValue(frac) as real / (Pow10(|frac|) as real))
    else None
  }

  /** A leading minus or plus sign, split off. */
  function SplitSign(t: string): (r: (bool, string))
    ensures r.0 <==> t != [] && t[0] == '-'
    ensures r.1 == if t != [] && (t[0] == '-' || t[0] == '+') then t[1..] else t
  {
    if t != [] && (t[0] == '-' || t[0] == '+') then (t[0] == '-', t[1..]) else (false, t)
  }

  /** `m` or `mEx`: a mantissa with an optional signed exponent. */
  function ParseUnsignedDecimal(body: string): Option<real> {
    var ie := if Find(body, 'e') < Find(body, 'E') then Find(body, 'e') else Find(body, 'E');
    var exponent := if ie == |body| then Some(0) else SignedDigits(body[ie + 1..]);
    var mantissa := Mantissa(body[..ie]);
    if mantissa.Some? && exponent.Some? then Some(mantissa.value * Scale(exponent.value)) else None
  }

  /** Python's `float(s)` on a string: `None` stands for the ValueError it raises. */
  function ParseDecimal(s: string): Option<real> {
    var (negative, body) := SplitSign(Strip(s));
    match ParseUnsignedDecimal(body)
    case Some(v) => Some(if negative then -v else v)
    case None => None
  }

  /** A digit string has no '.', 'e' or 'E' in it. */
  lemma DigitsHaveNoDot(s: string)
    requires AllDigits(s)
    ensures Find(s, '.') == |s| && Find(s, 'e') == |s| && Find(s, 'E') == |s|
  {
    assert forall k :: 0 <= k < |s| ==> s[k] != '.' && s[k] != 'e' && s[k] != 'E';
  }

  /** A plain digit string is a mantissa without a fraction. */
  lemma MantissaOfDigits(s: string)
    requires s != [] && AllDigits(s)
    ensures Mantissa(s) == Some(DigitsValue(s) as real)
  {
    DigitsHaveNoDot(s);
    assert s[..|s|] == s;
    assert AllDigits("") && DigitsValue("") == 0 && Pow10(0) == 1;
  }

  /** A plain digit string is a float literal denoting its integer value. */
  lemma UnsignedDecimalOfDigits(s: string)
    requires s != [] && AllDigits(s)
    ensures ParseUnsignedDecimal(s) == Some(DigitsValue(s) as real)
  {
    DigitsHaveNoDot(s);
    assert s[..|s|] == s;
    MantissaOfDigits(s);
    assert Scale(0) == 1.0;
  }

  /** `int(str(i)) == i`. */
  lemma IntegerRoundTrip(i: int)
    ensures ParseInteger(IntToString(i)) == Some(i)
  {
    var s := IntToString(i);
    var digits := NatToString(if i < 0 then -i else i);
    assert Strip(s) == s by {
      forall k | 0 <= k < |s| ensures !IsSpace(s[k]) {
        if i < 0 && k > 0 { assert s[k] == digits[k - 1]; }
      }
    }
    NatToStringValue(if i < 0 then -i else i);
    if i < 0 {
      assert s[1..] == digits;
    }
  }

  /** `float(str(n)) == n` for a non-negative integer literal. */
  lemma DecimalOfNatLiteral(n: nat)
    ensures ParseDecimal(NatToString(n)) == Some(n as real)
  {
    var s := NatToString(n);
    assert !IsSpace(s[0]);
    assert SplitSign(s) == (false, s);
    NatToStringValue(n);
    UnsignedDecimalOfDigits(s);
  }
}
