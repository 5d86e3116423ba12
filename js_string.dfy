/** The few ECMAScript string built-ins the core relies on, over `seq<char>`:
    the white-space set, `String.prototype.trim`, `parseInt(s, 10)` and the
    decimal rendering of an integer `Number`. */
module JsString {
  import opened Wrappers

  /** WhiteSpace and LineTerminator code points of ECMAScript: the characters
      `trim` removes and `parseInt` skips. The Zs category is written out. */
  predicate IsWhiteSpace(c: char) {
    c == '\t' || c == '\n' || c == '\U{000B}' || c == '\U{000C}' || c == '\r' || c == ' '
    || c == '\U{00A0}' || c == '\U{1680}' || ('\U{2000}' <= c <= '\U{200A}')
    || c == '\U{2028}' || c == '\U{2029}' || c == '\U{202F}' || c == '\U{205F}'
    || c == '\U{3000}' || c == '\U{FEFF}'
  }

  /** An optional string that JavaScript treats as true: present and not `''`. */
  predicate Truthy(s: Option<string>) {
    s.Some? && s.value != []
  }

  predicate IsDigit(c: char) {
    '0' <= c <= '9'
  }

  predicate AllDigits(s: string) {
    forall i :: 0 <= i < |s| ==> IsDigit(s[i])
  }

  predicate AllWhiteSpace(s: string) {
    forall i :: 0 <= i < |s| ==> IsWhiteSpace(s[i])
  }

  /** The string with its leading white space removed (`trimStart`). */
  function TrimStart(s: string): (r: string)
    ensures |r| <= |s| && r == s[|s| - |r|..]
    ensures AllWhiteSpace(s[..|s| - |r|])
    ensures r == [] || !IsWhiteSpace(r[0])
  {
    if s != [] && IsWhiteSpace(s[0]) then
      var r := TrimStart(s[1..]);
      assert s[..|s| - |r|] == [s[0]] + s[1..][..|s[1..]| - |r|];
      r
    else s
  }

  /** The string with its trailing white space removed (`trimEnd`). */
  function TrimEnd(s: string): (r: string)
    ensures |r| <= |s| && r == s[..|r|]
    ensures AllWhiteSpace(s[|r|..])
    ensures r == [] || !IsWhiteSpace(r[|r| - 1])
  {
    if s != [] && IsWhiteSpace(s[|s| - 1]) then
      var r := TrimEnd(s[..|s| - 1]);
      assert s[|r|..] == s[..|s| - 1][|r|..] + [s[|s| - 1]];
      r
    else s
  }

  /** `String.prototype.trim`: the slice of the input that remains once the
      white space at both ends is cut off; it neither starts nor ends with
      white space. */
  function Trim(s: string): (r: string)
    ensures |r| <= |TrimStart(s)| <= |s|
    ensures var i := |s| - |TrimStart(s)|; r == s[i..i + |r|]
    ensures var i := |s| - |TrimStart(s)|; AllWhiteSpace(s[..i]) && AllWhiteSpace(s[i + |r|..])
    ensures r == [] || (!IsWhiteSpace(r[0]) && !IsWhiteSpace(r[|r| - 1]))
  {
    var t := TrimStart(s);
    var r := TrimEnd(t);
    SliceOfSuffix(s, t, r);
    r
  }

  /** A string that neither starts nor ends with white space is its own trim. */
  lemma TrimOfUnpadded(s: string)
    requires s != [] && !IsWhiteSpace(s[0]) && !IsWhiteSpace(s[|s| - 1])
    ensures Trim(s) == s
  {
    assert TrimStart(s) == s;
    assert TrimEnd(s) == s;
  }

  /** A prefix `r` of a suffix `t` of `s` is a slice of `s`, and what follows
      `r` in `t` is what follows it in `s`. */
  lemma SliceOfSuffix(s: string, t: string, r: string)
    requires |t| <= |s| && t == s[|s| - |t|..]
    requires |r| <= |t| && r == t[..|r|]
    ensures var i := |s| - |t|; r == s[i..i + |r|] && s[i + |r|..] == t[|r|..]
  {
  }

  function DigitValue(c: char): (d: nat)
    requires IsDigit(c)
    ensures d < 10
  {
    (c as int) - ('0' as int)
  }

  function DigitChar(d: nat): (c: char)
    requires d < 10
    ensures IsDigit(c) && DigitValue(c) == d
  {
    ((d + '0' as int) as char)
  }

  /** The value of a string of decimal digits, most significant first. */
  function DigitsValue(ds: string): nat
    requires AllDigits(ds)
  {
    if ds == [] then 0 else DigitsValue(ds[..|ds| - 1]) * 10 + DigitValue(ds[|ds| - 1])
  }

  /** The longest prefix of `s` made of decimal digits. */
  function LeadingDigits(s: string): (r: string)
    ensures |r| <= |s| && r == s[..|r|] && AllDigits(r)
    ensures |r| < |s| ==> !IsDigit(s[|r|])
  {
    if s != [] && IsDigit(s[0]) then [s[0]] + LeadingDigits(s[1..]) else []
  }

  /** `parseInt(s, 10)` (ECMA-262, section 19.2.5, radix 10): skip leading
      white space, take one optional sign, then the longest run of decimal
      digits; `None` stands for NaN, returned when that run is empty. */
  function ParseInt10(s: string): Option<int> {
    ParseSigned(TrimStart(s))
  }

  /** What is left of `t` once one optional sign is taken off. */
  function Unsigned(t: string): string {
    if t != [] && (t[0] == '-' || t[0] == '+') then t[1..] else t
  }

  /** One optional sign, then the digits. */
  function ParseSigned(t: string): Option<int> {
    if t != [] && t[0] == '-' then
      match ParseDigits(t[1..])
      case None => None
      case Some(v) => Some(-v)
    else if t != [] && t[0] == '+' then ParseDigits(t[1..])
    else ParseDigits(t)
  }

  /** The value of the longest digit prefix, `None` when there is none. */
  function ParseDigits(u: string): Option<int> {
    var z := LeadingDigits(u);
    if z == [] then None else Some(DigitsValue(z))
  }

  /** Decimal digits of a natural number, without leading zeros. */
  function NatToDecimal(n: nat): (r: string)
    ensures r != [] && AllDigits(r)
    ensures |r| == 1 <==> n < 10
    ensures r[0] == '0' <==> n == 0
  {
    if n < 10 then [DigitChar(n)] else NatToDecimal(n / 10) + [DigitChar(n % 10)]
  }

  /** `Number.prototype.toString()` of an integer of magnitude below 10^21
      (larger ones are written in exponent notation by JavaScript, which this
      function does not model): a `-` exactly for negative numbers, then the
      decimal digits. */
  function IntToDecimal(n: int): (r: string)
    ensures r != []
    ensures r[0] == '-' <==> n < 0
    ensures AllDigits(if n < 0 then r[1..] else r)
    ensures var d := if n < 0 then r[1..] else r; d != [] && (d[0] == '0' ==> r == "0")
  {
    if n < 0 then "-" + NatToDecimal(-n) else NatToDecimal(n)
  }

  lemma {:induction false} DigitsValueOfDecimal(n: nat)
    ensures DigitsValue(NatToDecimal(n)) == n
  {
    if n >= 10 {
      var ds := NatToDecimal(n);
      assert ds[..|ds| - 1] == NatToDecimal(n / 10);
      DigitsValueOfDecimal(n / 10);
    }
  }

  lemma {:induction false} LeadingDigitsOfDigits(ds: string, tail: string)
    requires AllDigits(ds)
    requires tail == [] || !IsDigit(tail[0])
    ensures LeadingDigits(ds + tail) == ds
  {
    if ds != [] {
      assert (ds + tail)[1..] == ds[1..] + tail;
      LeadingDigitsOfDigits(ds[1..], tail);
    } else {
      assert ds + tail == tail;
    }
  }

  lemma {:induction false} TrimStartSkipsWhiteSpace(ws: string, rest: string)
    requires AllWhiteSpace(ws)
    requires rest == [] || !IsWhiteSpace(rest[0])
    ensures TrimStart(ws + rest) == rest
  {
    if ws != [] {
      assert (ws + rest)[1..] == ws[1..] + rest;
      TrimStartSkipsWhiteSpace(ws[1..], rest);
    } else {
      assert ws + rest == rest;
    }
  }

  lemma ParseDigitsOfDecimal(m: nat, tail: string)
    requires tail == [] || !IsDigit(tail[0])
    ensures ParseDigits(NatToDecimal(m) + tail) == Some(m)
  {
    LeadingDigitsOfDigits(NatToDecimal(m), tail);
    DigitsValueOfDecimal(m);
  }

  /** A `-` followed by the digits of `m` reads as `-m`. */
  lemma ParseSignedMinus(m: nat, tail: string)
    requires tail == [] || !IsDigit(tail[0])
    ensures ParseSigned("-" + (NatToDecimal(m) + tail)) == Some(-(m as int))
  {
    var u := NatToDecimal(m) + tail;
    var t := "-" + u;
    assert t[0] == '-' && t[1..] == u;
    ParseDigitsOfDecimal(m, tail);
  }

  lemma ParseSignedNegative(n: int, tail: string)
    requires n < 0
    requires tail == [] || !IsDigit(tail[0])
    ensures ParseSigned(IntToDecimal(n) + tail) == Some(n)
  {
    var m: nat := -n;
    var d := NatToDecimal(m);
    assert IntToDecimal(n) == "-" + d;
    assert ("-" + d) + tail == "-" + (d + tail);
    ParseSignedMinus(m, tail);
  }

  lemma ParseSignedNonNegative(n: int, tail: string)
    requires n >= 0
    requires tail == [] || !IsDigit(tail[0])
    ensures ParseSigned(IntToDecimal(n) + tail) == Some(n)
  {
    var t := IntToDecimal(n) + tail;
    assert t == NatToDecimal(n) + tail;
    assert t[0] == NatToDecimal(n)[0];
    assert IsDigit(t[0]);
    ParseDigitsOfDecimal(n, tail);
    assert ParseSigned(t) == ParseDigits(t);
  }

  lemma ParseSignedOfDecimal(n: int, tail: string)
    requires tail == [] || !IsDigit(tail[0])
    ensures ParseSigned(IntToDecimal(n) + tail) == Some(n)
  {
    if n < 0 {
      ParseSignedNegative(n, tail);
    } else {
      ParseSignedNonNegative(n, tail);
    }
  }

  /** `parseInt` reads back what `toString` wrote, also after leading white
      space and before any tail that does not continue the digits ("42px"). */
  lemma ParseIntOfDecimal(ws: string, n: int, tail: string)
    requires AllWhiteSpace(ws)
    requires tail == [] || !IsDigit(tail[0])
    ensures ParseInt10(ws + IntToDecimal(n) + tail) == Some(n)
  {
    var rest := IntToDecimal(n) + tail;
    assert ws + IntToDecimal(n) + tail == ws + rest;
    assert !IsWhiteSpace(rest[0]);
    TrimStartSkipsWhiteSpace(ws, rest);
    ParseSignedOfDecimal(n, tail);
  }

  /** `parseInt(n.toString(), 10) == n`. */
  lemma ParseIntOfToString(n: int)
    ensures ParseInt10(IntToDecimal(n)) == Some(n)
  {
    var s := IntToDecimal(n);
    assert !IsWhiteSpace(s[0]);
    assert s + [] == s;
    ParseSignedOfDecimal(n, []);
  }

  /** After white space and the one optional sign, `parseInt` is NaN exactly
      when no digit follows, and a `-` never gives a positive value. */
  lemma ParseSignedCases(t: string)
    ensures ParseSigned(t).None? <==> Unsigned(t) == [] || !IsDigit(Unsigned(t)[0])
    ensures ParseSigned(t).Some? && t != [] && t[0] == '-' ==> ParseSigned(t).value <= 0
    ensures ParseSigned(t).Some? && !(t != [] && t[0] == '-') ==> ParseSigned(t).value >= 0
  {
  }

  /** A sign with no digit after it is NaN. */
  lemma ParseIntSignWithoutDigits(ws: string, sign: char, rest: string)
    requires AllWhiteSpace(ws) && (sign == '-' || sign == '+')
    requires rest == [] || !IsDigit(rest[0])
    ensures ParseInt10(ws + [sign] + rest) == None
  {
    assert ws + [sign] + rest == ws + ([sign] + rest);
    TrimStartSkipsWhiteSpace(ws, [sign] + rest);
    assert ([sign] + rest)[1..] == rest;
  }

  /** A string whose first non-blank character is neither a sign nor a digit is NaN. */
  lemma ParseIntWithoutDigits(ws: string, rest: string)
    requires AllWhiteSpace(ws)
    requires rest == [] || !(IsWhiteSpace(rest[0]) || IsDigit(rest[0]) || rest[0] == '-' || rest[0] == '+')
    ensures ParseInt10(ws + rest) == None
  {
    TrimStartSkipsWhiteSpace(ws, rest);
  }
}
