/**
 * The pieces of JavaScript string semantics the contact code relies on:
 * `String.prototype.trim`, the `isNaN` test applied to an imported id (the
 * StringToNumber conversion of section 7.1.4.1.1 of ECMA-262), and the
 * decimal rendering of an HTTP status code in a template literal.
 */
module JsText {

  /** The WhiteSpace and LineTerminator code points of ECMA-262 (sections
      12.2 and 12.3): what `trim` removes and what `Number()` skips around a
      numeral. */
  predicate IsWhitespace(c: char) {
    var n := c as int;
    n == 0x09 || n == 0x0A || n == 0x0B || n == 0x0C || n == 0x0D || n == 0x20
    || n == 0xA0 || n == 0x1680 || (0x2000 <= n <= 0x200A) || n == 0x2028
    || n == 0x2029 || n == 0x202F || n == 0x205F || n == 0x3000 || n == 0xFEFF
  }

  /** No whitespace at either end. */
  predicate Trimmed(s: string) {
    s == [] || (!IsWhitespace(s[0]) && !IsWhitespace(s[|s| - 1]))
  }

  /** `s` with its leading whitespace removed. */
  function TrimStart(s: string): (r: string)
    ensures |r| <= |s|
    ensures r == [] || !IsWhitespace(r[0])
    decreases |s|
  {
    if |s| > 0 && IsWhitespace(s[0]) then TrimStart(s[1..]) else s
  }

  /** `s` with its trailing whitespace removed. */
  function TrimEnd(s: string): (r: string)
    ensures |r| <= |s|
    ensures r == [] || !IsWhitespace(r[|r| - 1])
    ensures r != [] ==> r[0] == s[0]
    ensures s != [] && !IsWhitespace(s[0]) ==> r != []
    decreases |s|
  {
    if |s| > 0 && IsWhitespace(s[|s| - 1]) then TrimEnd(s[..|s| - 1]) else s
  }

  /** `String.prototype.trim`. */
  function Trim(s: string): (r: string)
    ensures Trimmed(r)
  {
    TrimEnd(TrimStart(s))
  }

  /** `TrimStart` cuts a run of whitespace off the front and nothing else. */
  lemma {:induction false} TrimStartIsSuffix(s: string)
    ensures var r := TrimStart(s);
      && r == s[|s| - |r|..]
      && forall i :: 0 <= i < |s| - |r| ==> IsWhitespace(s[i])
    decreases |s|
  {
    if |s| > 0 && IsWhitespace(s[0]) {
      TrimStartIsSuffix(s[1..]);
    }
  }

  /** `TrimEnd` cuts a run of whitespace off the back and nothing else. */
  lemma {:induction false} TrimEndIsPrefix(s: string)
    ensures var r := TrimEnd(s);
      && r == s[..|r|]
      && forall i :: |r| <= i < |s| ==> IsWhitespace(s[i])
    decreases |s|
  {
    if |s| > 0 && IsWhitespace(s[|s| - 1]) {
      TrimEndIsPrefix(s[..|s| - 1]);
    }
  }

  /** A prefix `r` of a suffix `t` of `s`, with whitespace outside, is an
      infix of `s` with whitespace outside. */
  lemma InfixWithWhitespaceAround(s: string, t: string, r: string)
    requires |t| <= |s| && t == s[|s| - |t|..]
    requires forall i :: 0 <= i < |s| - |t| ==> IsWhitespace(s[i])
    requires |r| <= |t| && r == t[..|r|]
    requires forall i :: |r| <= i < |t| ==> IsWhitespace(t[i])
    ensures var k := |s| - |t|;
      && r == s[k..k + |r|]
      && (forall i :: k + |r| <= i < |s| ==> IsWhitespace(s[i]))
  {
    var k := |s| - |t|;
    forall i | k + |r| <= i < |s|
      ensures IsWhitespace(s[i])
    {
      assert s[i] == t[i - k];
    }
  }

  /** What `trim` cuts is whitespace only: the result is the infix of `s`
      left once its leading and trailing whitespace runs are removed. */
  lemma TrimIsInfix(s: string)
    ensures var r := Trim(s); var k := |s| - |TrimStart(s)|;
      && k + |r| <= |s|
      && r == s[k..k + |r|]
      && (forall i :: 0 <= i < k ==> IsWhitespace(s[i]))
      && (forall i :: k + |r| <= i < |s| ==> IsWhitespace(s[i]))
  {
    TrimStartIsSuffix(s);
    TrimEndIsPrefix(TrimStart(s));
    InfixWithWhitespaceAround(s, TrimStart(s), Trim(s));
  }

  /** Trimming leaves an already trimmed string alone. */
  lemma TrimKeepsTrimmed(s: string)
    requires Trimmed(s)
    ensures Trim(s) == s
  {
    assert TrimStart(s) == s;
    assert TrimEnd(s) == s;
  }

  lemma TrimIdempotent(s: string)
    ensures Trim(Trim(s)) == Trim(s)
  {
    TrimKeepsTrimmed(Trim(s));
  }

  /** A string that starts with a non-whitespace character keeps it as its
      first character after trimming. */
  lemma TrimKeepsFirst(s: string)
    requires |s| > 0 && !IsWhitespace(s[0])
    ensures |Trim(s)| > 0 && Trim(s)[0] == s[0]
  {
    assert TrimStart(s) == s;
  }

  // ---------------------------------------------------------------------
  // The StringNumericLiteral grammar (section 7.1.4.1 of ECMA-262)
  // ---------------------------------------------------------------------

  predicate IsDecimalDigit(c: char) { '0' <= c <= '9' }
  predicate IsHexDigit(c: char) { IsDecimalDigit(c) || 'a' <= c <= 'f' || 'A' <= c <= 'F' }
  predicate IsOctalDigit(c: char) { '0' <= c <= '7' }
  predicate IsBinaryDigit(c: char) { c == '0' || c == '1' }

  predicate AllDecimal(s: string) { forall i :: 0 <= i < |s| ==> IsDecimalDigit(s[i]) }
  predicate AllHex(s: string) { forall i :: 0 <= i < |s| ==> IsHexDigit(s[i]) }
  predicate AllOctal(s: string) { forall i :: 0 <= i < |s| ==> IsOctalDigit(s[i]) }
  predicate AllBinary(s: string) { forall i :: 0 <= i < |s| ==> IsBinaryDigit(s[i]) }

  /** DecimalDigits: one or more decimal digits. */
  predicate DecimalDigits(s: string) { |s| > 0 && AllDecimal(s) }

  predicate IsSign(c: char) { c == '+' || c == '-' }

  /** Position of the first '.', or |s| when there is none. */
  function DotIndex(s: string): (i: nat)
    ensures i <= |s|
    ensures i < |s| ==> s[i] == '.'
    ensures forall j :: 0 <= j < i ==> s[j] != '.'
  {
    if s == [] then 0
    else if s[0] == '.' then 0
    else 1 + DotIndex(s[1..])
  }

  /** Position of the first exponent mark 'e' or 'E', or |s| when there is none. */
  function ExponentIndex(s: string): (i: nat)
    ensures i <= |s|
    ensures i < |s| ==> s[i] == 'e' || s[i] == 'E'
    ensures forall j :: 0 <= j < i ==> s[j] != 'e' && s[j] != 'E'
  {
    if s == [] then 0
    else if s[0] == 'e' || s[0] == 'E' then 0
    else 1 + ExponentIndex(s[1..])
  }

  /** NonDecimalIntegerLiteral: `0x…`, `0o…` or `0b…` with at least one digit. */
  predicate NonDecimalLiteral(t: string) {
    && |t| > 2
    && t[0] == '0'
    && (if t[1] == 'x' || t[1] == 'X' then AllHex(t[2..])
        else if t[1] == 'o' || t[1] == 'O' then AllOctal(t[2..])
        else if t[1] == 'b' || t[1] == 'B' then AllBinary(t[2..])
        else false)
  }

  /** The part of a StrUnsignedDecimalLiteral before its exponent:
      `DecimalDigits`, `DecimalDigits . [DecimalDigits]` or `. DecimalDigits`. */
  predicate Mantissa(m: string) {
    var d := DotIndex(m);
    if d == |m| then DecimalDigits(m)
    else |m| > 1 && AllDecimal(m[..d]) && AllDecimal(m[d + 1..])
  }

  /** ExponentPart without its mark: SignedInteger. */
  predicate SignedInteger(s: string) {
    DecimalDigits(s) || (|s| > 0 && IsSign(s[0]) && DecimalDigits(s[1..]))
  }

  predicate UnsignedDecimalLiteral(t: string) {
    || t == "Infinity"
    || (var e := ExponentIndex(t);
        Mantissa(t[..e]) && (e == |t| || SignedInteger(t[e + 1..])))
  }

  predicate DecimalLiteral(t: string) {
    || UnsignedDecimalLiteral(t)
    || (|t| > 0 && IsSign(t[0]) && UnsignedDecimalLiteral(t[1..]))
  }

  /** `!isNaN(s)` for a string `s`: `Number(s)` is a number, which happens
      exactly when the trimmed string is empty (it reads as 0) or is a
      StringNumericLiteral. */
  predicate IsNumeric(s: string) {
    var t := Trim(s);
    t == [] || NonDecimalLiteral(t) || DecimalLiteral(t)
  }

  /** A run of decimal digits is numeric. */
  lemma DigitsAreNumeric(s: string)
    requires DecimalDigits(s)
    ensures IsNumeric(s)
  {
    assert !IsWhitespace(s[0]) && !IsWhitespace(s[|s| - 1]);
    TrimKeepsTrimmed(s);
    assert forall j :: 0 <= j < |s| ==> s[j] != 'e' && s[j] != 'E' && s[j] != '.';
    assert ExponentIndex(s) == |s| && DotIndex(s) == |s|;
    assert s[..|s|] == s;
    assert Mantissa(s);
  }

  /** An id that starts with a capital letter other than 'I' (every Stellar
      account id starts with 'G') is not numeric. */
  lemma LetterLedIdIsNotNumeric(s: string)
    requires |s| > 0 && 'A' <= s[0] <= 'Z' && s[0] != 'I'
    ensures !IsNumeric(s)
  {
    TrimKeepsFirst(s);
    var t := Trim(s);
    assert t[0] == s[0];
    assert !NonDecimalLiteral(t);
    assert !IsSign(t[0]);
    assert "Infinity"[0] == 'I';
    assert t != "Infinity";
    var e := ExponentIndex(t);
    var m := t[..e];
    if e == 0 {
      assert m == [];
      assert !Mantissa(m);
    } else {
      assert m[0] == t[0];
      var d := DotIndex(m);
      if d == |m| {
        assert !IsDecimalDigit(m[0]);
      } else {
        assert d != 0;
        assert m[..d][0] == m[0];
        assert !AllDecimal(m[..d]);
      }
      assert !Mantissa(m);
    }
    assert !UnsignedDecimalLiteral(t);
  }

  // ---------------------------------------------------------------------
  // Decimal rendering of a status code
  // ---------------------------------------------------------------------

  function DigitChar(d: nat): (c: char)
    requires d < 10
  {
    ('0' as int + d) as char
  }

  /** The decimal numeral of `n`, as a template literal renders a number. */
  function NatToDecimal(n: nat): (r: string)
    ensures DecimalDigits(r)
    decreases n
  {
    if n < 10 then [DigitChar(n)] else NatToDecimal(n / 10) + [DigitChar(n % 10)]
  }

  /** The value of a run of decimal digits. */
  function DecimalValue(s: string): nat
    requires AllDecimal(s)
  {
    if s == [] then 0
    else 10 * DecimalValue(s[..|s| - 1]) + (s[|s| - 1] as int - '0' as int)
  }

  /** The numeral denotes the number it was rendered from. */
  lemma {:induction false} DecimalRoundTrip(n: nat)
    ensures DecimalValue(NatToDecimal(n)) == n
    decreases n
  {
    if n >= 10 {
      DecimalRoundTrip(n / 10);
      var r := NatToDecimal(n);
      assert r[..|r| - 1] == NatToDecimal(n / 10);
    }
  }
}
