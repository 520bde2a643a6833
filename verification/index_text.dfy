/** Route indices travel as text: the worker's result lists node indices, the
    client reads them back with JavaScript's `parseInt(s)` (no radix argument)
    in src/frontend-react/src/App.tsx. `NaN` is modelled as `None`. */
module IndexText {
  import opened Wrappers

  /** The whitespace `parseInt` skips before the number (ASCII part). */
  predicate IsSpace(c: char)
  {
    c == ' ' || c == '\t' || c == '\n' || c == '\r'
  }

  /** `s` without its leading whitespace. */
  function TrimStart(s: string): (t: string)
    ensures |t| <= |s|
    ensures t == s[|s| - |t|..]
    ensures forall i :: 0 <= i < |s| - |t| ==> IsSpace(s[i])
    ensures t != [] ==> !IsSpace(t[0])
  {
    if s != [] && IsSpace(s[0]) then TrimStart(s[1..]) else s
  }

  /** The value of `c` as a digit of base `radix`, if it is one. */
  function DigitValue(c: char, radix: nat): (d: Option<nat>)
    ensures d.Some? ==> d.value < radix
  {
    var v :=
      if '0' <= c <= '9' then c as int - '0' as int
      else if 'a' <= c <= 'z' then c as int - 'a' as int + 10
      else if 'A' <= c <= 'Z' then c as int - 'A' as int + 10
      else 36;
    if v < radix then Some(v) else None
  }

  /** The length of the longest prefix of `s` made of base-`radix` digits. */
  function DigitPrefix(s: string, radix: nat): (n: nat)
    ensures n <= |s|
    ensures forall i :: 0 <= i < n ==> DigitValue(s[i], radix).Some?
    ensures n < |s| ==> DigitValue(s[n], radix).None?
  {
    if s == [] || DigitValue(s[0], radix).None? then 0 else 1 + DigitPrefix(s[1..], radix)
  }

  /** The value of a string of base-`radix` digits, most significant first. */
  function DigitsValue(s: string, radix: nat): nat
    requires forall i :: 0 <= i < |s| ==> DigitValue(s[i], radix).Some?
  {
    if s == [] then 0
    else DigitsValue(s[..|s| - 1], radix) * radix + DigitValue(s[|s| - 1], radix).value
  }

  /** `parseInt(s)`: skip leading whitespace, read an optional sign, then the
      digits (see `ParseMagnitude`); no digit at all is `NaN`. */
  function ParseInt(s: string): (r: Option<int>)
    ensures TrimStart(s) == [] ==> r.None?
    ensures r.Some? && r.value < 0 ==> TrimStart(s)[0] == '-'
  {
    var t := TrimStart(s);
    if t != [] && (t[0] == '-' || t[0] == '+') then
      match ParseMagnitude(t[1..])
      case None => None
      case Some(m) => var v: int := m; Some(if t[0] == '-' then -v else v)
    else
      match ParseMagnitude(t)
      case None => None
      case Some(m) => Some(m)
  }

  /** An unsigned number: a "0x"/"0X" prefix selects base 16, anything else base
      10, and as many digits of that base as there are are read. */
  function ParseMagnitude(u: string): Option<nat>
  {
    var hex := |u| >= 2 && u[0] == '0' && (u[1] == 'x' || u[1] == 'X');
    var radix := if hex then 16 else 10;
    var v := if hex then u[2..] else u;
    var n := DigitPrefix(v, radix);
    if n == 0 then None else Some(DigitsValue(v[..n], radix))
  }

  function DecimalDigit(d: nat): (c: char)
    requires d < 10
    ensures '0' <= c <= '9' && DigitValue(c, 10) == Some(d)
  {
    ('0' as int + d) as char
  }

  /** The decimal text of `n`, as Python's `str` and JavaScript's `String` write it. */
  function Show(n: nat): (s: string)
    ensures |s| > 0
    ensures forall i :: 0 <= i < |s| ==> '0' <= s[i] <= '9'
    ensures s[0] == '0' ==> n == 0 && |s| == 1
  {
    if n < 10 then [DecimalDigit(n)] else Show(n / 10) + [DecimalDigit(n % 10)]
  }

  /** Reading back the decimal digits of `n` gives `n`. */
  lemma {:induction false} DigitsValueShow(n: nat)
    ensures forall i :: 0 <= i < |Show(n)| ==> DigitValue(Show(n)[i], 10).Some?
    ensures DigitsValue(Show(n), 10) == n
  {
    var s := Show(n);
    forall i | 0 <= i < |s| ensures DigitValue(s[i], 10).Some? {
      assert '0' <= s[i] <= '9';
    }
    if n >= 10 {
      DigitsValueShow(n / 10);
      assert s[..|s| - 1] == Show(n / 10);
    }
  }

  /** A string of digits is read to its end. */
  lemma {:induction false} DigitPrefixAll(s: string, radix: nat)
    requires forall i :: 0 <= i < |s| ==> DigitValue(s[i], radix).Some?
    ensures DigitPrefix(s, radix) == |s|
  {
    if s != [] {
      assert DigitValue(s[0], radix).Some?;
      assert forall i :: 0 <= i < |s[1..]| ==> s[1..][i] == s[i + 1];
      DigitPrefixAll(s[1..], radix);
    }
  }

  /** A decimal numeral, leading zeros included, is read as itself: a digit
      after a leading 0 is never the "x" of a hexadecimal prefix. */
  lemma ParseMagnitudeDecimal(s: string)
    requires s != [] && forall i :: 0 <= i < |s| ==> DigitValue(s[i], 10).Some?
    ensures ParseMagnitude(s) == Some(DigitsValue(s, 10))
  {
    if |s| >= 2 {
      assert DigitValue(s[1], 10).Some?;
      assert s[1] != 'x' && s[1] != 'X';
    }
    DigitPrefixAll(s, 10);
    assert s[..|s|] == s;
  }

  /** `parseInt` of a decimal numeral, leading zeros included, is its value. */
  lemma ParseIntDecimal(s: string)
    requires s != [] && forall i :: 0 <= i < |s| ==> '0' <= s[i] <= '9'
    ensures forall i :: 0 <= i < |s| ==> DigitValue(s[i], 10).Some?
    ensures ParseInt(s) == Some(DigitsValue(s, 10))
  {
    assert forall i :: 0 <= i < |s| ==> DigitValue(s[i], 10).Some?;
    assert !IsSpace(s[0]) && s[0] != '-' && s[0] != '+';
    assert TrimStart(s) == s;
    ParseMagnitudeDecimal(s);
  }

  /** `parseInt` undoes `Show`: index text from the worker parses back to the index. */
  lemma ParseIntShow(n: nat)
    ensures ParseInt(Show(n)) == Some(n)
  {
    ParseIntDecimal(Show(n));
    DigitsValueShow(n);
  }
}
