/**
 * The pieces of ECMAScript's string handling the storefront and the
 * product API rely on: white space, `String.prototype.trim` and the global
 * `parseInt` with no radix argument. A number produced by `parseInt` is an
 * integer or NaN; the sign of a zero is not kept (a negative zero behaves
 * as zero wherever these programs use it).
 */
module JsText {
  import opened Numerals

  /** ECMAScript white space and line terminators. */
  predicate IsJsSpace(c: char) {
    c == ' ' || c == '\t' || c == '\n' || c == '\r' || c as int == 0x0B || c as int == 0x0C ||
    c as int == 0xA0 || c as int == 0xFEFF || c as int == 0x1680 || 0x2000 <= c as int <= 0x200A ||
    c as int == 0x2028 || c as int == 0x2029 || c as int == 0x202F || c as int == 0x205F || c as int == 0x3000
  }

  /**
   * `String.prototype.trim`: the stretch of `s` between its leading and its
   * trailing white space.
   */
  function Trim(s: string): (r: string)
    ensures |r| <= |s|
    ensures r != [] ==> !IsJsSpace(r[0]) && !IsJsSpace(r[|r| - 1])
  {
    if s == [] then s
    else if IsJsSpace(s[0]) then Trim(s[1..])
    else if IsJsSpace(s[|s| - 1]) then Trim(s[..|s| - 1])
    else s
  }

  /** `trim` removes the leading white space and then the trailing white space. */
  lemma {:induction false} TrimIsBothEnds(s: string)
    ensures Trim(s) == TrimEnd(TrimStart(s))
    decreases |s|
  {
    if s == [] {
    } else if IsJsSpace(s[0]) {
      TrimIsBothEnds(s[1..]);
    } else if IsJsSpace(s[|s| - 1]) {
      var p := s[..|s| - 1];
      TrimIsBothEnds(p);
      assert TrimStart(p) == p && TrimStart(s) == s;
    }
  }

  /** `trim` gives the empty string exactly when the input is all white space. */
  lemma TrimEmptyIffAllSpace(s: string)
    ensures Trim(s) == [] <==> forall k :: 0 <= k < |s| ==> IsJsSpace(s[k])
  {
    TrimIsBothEnds(s);
    BothEndsEmptyIffAllSpace(s);
  }

  lemma BothEndsEmptyIffAllSpace(s: string)
    ensures TrimEnd(TrimStart(s)) == [] <==> forall k :: 0 <= k < |s| ==> IsJsSpace(s[k])
  {
    var t := TrimStart(s);
    assert TrimEnd(t) == [] ==> t == [];
  }

  /**
   * What `trim` keeps is the stretch of the input between its leading and
   * its trailing white space.
   */
  lemma BothEndsIsInfix(s: string)
    ensures var r, start := TrimEnd(TrimStart(s)), |s| - |TrimStart(s)|;
            start + |r| <= |s| && r == s[start..start + |r|] &&
            forall k :: start + |r| <= k < |s| ==> IsJsSpace(s[k])
  {
    var t := TrimStart(s);
    var r := TrimEnd(t);
    var start := |s| - |t|;
    assert t == s[start..];
    assert r == t[..|r|];
    forall k | start + |r| <= k < |s| ensures IsJsSpace(s[k]) {
      assert s[k] == t[k - start];
    }
  }

  /** The string without its trailing white space. */
  function TrimEnd(s: string): (r: string)
    ensures |r| <= |s| && r == s[..|r|]
    ensures r != [] ==> !IsJsSpace(r[|r| - 1])
    ensures forall k :: |r| <= k < |s| ==> IsJsSpace(s[k])
  {
    if s != [] && IsJsSpace(s[|s| - 1]) then TrimEnd(s[..|s| - 1]) else s
  }

  /** The string without its leading white space. */
  function TrimStart(s: string): (r: string)
    ensures |r| <= |s| && r == s[|s| - |r|..]
    ensures r != [] ==> !IsJsSpace(r[0])
    ensures forall k :: 0 <= k < |s| - |r| ==> IsJsSpace(s[k])
  {
    if s != [] && IsJsSpace(s[0]) then TrimStart(s[1..]) else s
  }

  /** A number as `parseInt` produces it. */
  datatype Num = Int(value: int) | NaN {
    /** JavaScript truthiness: zero and NaN are falsy. */
    predicate Truthy() { Int? && value != 0 }
  }

  predicate IsHexLetter(c: char) { 'a' <= c <= 'f' || 'A' <= c <= 'F' }

  predicate IsRadixDigit(c: char, hex: bool) {
    IsDigit(c) || (hex && IsHexLetter(c))
  }

  function RadixDigitValue(c: char, hex: bool): (d: nat)
    requires IsRadixDigit(c, hex)
    ensures d < (if hex then 16 else 10)
  {
    if IsDigit(c) then DigitValue(c)
    else if 'a' <= c <= 'f' then c as int - 'a' as int + 10
    else c as int - 'A' as int + 10
  }

  /** The length of the run of radix digits `s` starts with. */
  function DigitRun(s: string, hex: bool): (n: nat)
    ensures n <= |s|
    ensures forall k :: 0 <= k < n ==> IsRadixDigit(s[k], hex)
    ensures n < |s| ==> !IsRadixDigit(s[n], hex)
  {
    if s == [] || !IsRadixDigit(s[0], hex) then 0 else 1 + DigitRun(s[1..], hex)
  }

  function RadixValue(z: string, hex: bool): nat
    requires forall k :: 0 <= k < |z| ==> IsRadixDigit(z[k], hex)
  {
    if z == [] then 0
    else RadixValue(z[..|z| - 1], hex) * (if hex then 16 else 10) + RadixDigitValue(z[|z| - 1], hex)
  }

  /** The sign and the prefix split off the start of the text. */
  function Unsigned(t: string): string {
    if t != [] && (t[0] == '-' || t[0] == '+') then t[1..] else t
  }

  function IsHexPrefixed(u: string): bool {
    |u| >= 2 && u[0] == '0' && (u[1] == 'x' || u[1] == 'X')
  }

  /**
   * `parseInt(s)`: skip leading white space, take an optional sign, then a
   * `0x` or `0X` prefix selects base 16; the value is that of the longest
   * run of digits that follows, NaN when there is none.
   */
  function ParseInt(s: string): (r: Num)
    ensures r.NaN? <==> var u := Unsigned(TrimStart(s));
                        var body := if IsHexPrefixed(u) then u[2..] else u;
                        DigitRun(body, IsHexPrefixed(u)) == 0
  {
    var t := TrimStart(s);
    var negative := t != [] && t[0] == '-';
    var u := Unsigned(t);
    var hex := IsHexPrefixed(u);
    var body := if hex then u[2..] else u;
    var z := body[..DigitRun(body, hex)];
    if z == [] then NaN
    else
      var v := RadixValue(z, hex);
      Int(if negative then -(v as int) else v)
  }

  lemma {:induction false} RadixValueOfDecimal(s: string)
    requires AllDigits(s)
    ensures RadixValue(s, false) == DigitsValue(s)
  {
    if s != [] {
      RadixValueOfDecimal(s[..|s| - 1]);
    }
  }

  /** `parseInt(String(n)) === n` for every non-negative integer. */
  lemma ParseIntOfDecimal(n: nat)
    ensures ParseInt(NatToString(n)) == Int(n)
  {
    ParseIntOfCanonical(NatToString(n));
    NatToStringValue(n);
  }

  /** A run of decimal digits without a leading zero parses to its value. */
  lemma ParseIntOfCanonical(s: string)
    requires s != [] && AllDigits(s) && (|s| > 1 ==> s[0] != '0')
    ensures ParseInt(s) == Int(DigitsValue(s))
  {
    assert IsDigit(s[0]);
    assert TrimStart(s) == s;
    assert Unsigned(s) == s;
    ParseIntOfDigits(s);
  }

  /** A minus sign before the digits negates the value. */
  lemma ParseIntOfNegative(n: nat)
    ensures ParseInt("-" + NatToString(n)) == Int(-(n as int))
  {
    var s := NatToString(n);
    var m := "-" + s;
    assert TrimStart(m) == m;
    assert Unsigned(m) == s;
    ParseIntOfDigits(s);
    NatToStringValue(n);
  }

  lemma ParseIntOfDigits(s: string)
    requires s != [] && AllDigits(s) && (|s| > 1 ==> s[0] != '0')
    ensures !IsHexPrefixed(s) && DigitRun(s, false) == |s| && RadixValue(s[..|s|], false) == DigitsValue(s)
  {
    assert DigitRun(s, false) == |s|;
    assert s[..|s|] == s;
    RadixValueOfDecimal(s);
  }

  /** A text that starts with neither sign, digit nor white space is NaN. */
  lemma ParseIntRejectsNonNumeric(s: string)
    requires s != [] && !IsJsSpace(s[0]) && !IsDigit(s[0]) && s[0] != '-' && s[0] != '+'
    ensures ParseInt(s) == NaN
  {
    assert TrimStart(s) == s;
  }
}
