/** JavaScript's integer parsing and printing, and the `value || default` idiom on numbers.
    NaN is represented by `None`. */
module JsNumbers {
  import opened Wrappers
  import opened Text

  predicate AllDigits(s: string) { forall i :: 0 <= i < |s| ==> IsDigit(s[i]) }

  function DigitValue(c: char): nat
    requires IsDigit(c)
  {
    c as int - '0' as int
  }

  function DigitChar(d: nat): (c: char)
    requires d < 10
    ensures IsDigit(c) && DigitValue(c) == d
  {
    ('0' as int + d) as char
  }

  /** The longest prefix of `s` made of decimal digits. */
  function DigitPrefix(s: string): (r: string)
    ensures |r| <= |s| && r == s[..|r|] && AllDigits(r)
    ensures |r| < |s| ==> !IsDigit(s[|r|])
  {
    if |s| > 0 && IsDigit(s[0]) then [s[0]] + DigitPrefix(s[1..]) else []
  }

  /** The value of a decimal digit string, most significant digit first. */
  function DigitsValue(ds: string): nat
    requires AllDigits(ds)
  {
    if ds == [] then 0 else DigitsValue(ds[..|ds| - 1]) * 10 + DigitValue(ds[|ds| - 1])
  }

  /** The decimal digits of a natural number, without leading zeros. */
  function NatDigits(n: nat): (r: string)
    ensures |r| > 0 && AllDigits(r)
  {
    if n < 10 then [DigitChar(n)] else NatDigits(n / 10) + [DigitChar(n % 10)]
  }

  /** `String(n)` for an integer `n`. */
  function DecimalString(n: int): string {
    if n < 0 then "-" + NatDigits(-n) else NatDigits(n)
  }

  /** `parseInt(s, 10)`: leading white space is skipped, one optional sign is read, then the
      longest run of decimal digits; no digit at all gives NaN. */
  function ParseInt(s: string): (r: Option<int>)
    ensures var t := TrimStart(s);
      var digits := if |t| > 0 && (t[0] == '-' || t[0] == '+') then t[1..] else t;
      r.None? <==> digits == [] || !IsDigit(digits[0])
    ensures r.Some? && r.value < 0 ==> TrimStart(s)[0] == '-'
  {
    ParseSigned(TrimStart(s))
  }

  /** The part of `parseInt` after the leading white space. */
  function ParseSigned(t: string): Option<int> {
    if |t| > 0 && t[0] == '-' then
      var ds := DigitPrefix(t[1..]);
      if ds == [] then None else Some(-(DigitsValue(ds) as int))
    else
      var ds := DigitPrefix(if |t| > 0 && t[0] == '+' then t[1..] else t);
      if ds == [] then None else Some(DigitsValue(ds))
  }

  /** `v || d` where `v` is a number: NaN and zero (also -0) are falsy and give `d`. */
  function OrDefault(v: Option<int>, d: int): (r: int)
    ensures (v.None? || v == Some(0)) ==> r == d
    ensures v.Some? && v.value != 0 ==> r == v.value
  {
    if v.None? || v.value == 0 then d else v.value
  }

  lemma {:induction false} DigitsValueOfNatDigits(n: nat)
    ensures DigitsValue(NatDigits(n)) == n
  {
    if n >= 10 {
      var prefix := NatDigits(n / 10);
      var ds := prefix + [DigitChar(n % 10)];
      assert ds[..|ds| - 1] == prefix;
      DigitsValueOfNatDigits(n / 10);
    }
  }

  lemma {:induction false} DigitPrefixOfDigits(ds: string, rest: string)
    requires AllDigits(ds)
    requires rest == [] || !IsDigit(rest[0])
    ensures DigitPrefix(ds + rest) == ds
  {
    if ds != [] {
      assert (ds + rest)[1..] == ds[1..] + rest;
      DigitPrefixOfDigits(ds[1..], rest);
    }
  }

  /** `parseInt` reads back what `String` prints for every integer. */
  lemma ParseIntOfDecimal(n: int)
    ensures ParseInt(DecimalString(n)) == Some(n)
  {
    var m: nat := if n < 0 then -n else n;
    var t := DecimalString(n);
    assert t[0] == '-' || IsDigit(t[0]);
    assert TrimStart(t) == t;
    DigitPrefixOfDigits(NatDigits(m), []);
    assert NatDigits(m) + [] == NatDigits(m);
    DigitsValueOfNatDigits(m);
    if n < 0 {
      assert t[1..] == NatDigits(m);
    }
  }

  /** `parseInt` stops at the first character that is not a digit ("12abc" and "12.9" give 12). */
  lemma ParseIntReadsDigitPrefix(ds: string, rest: string)
    requires ds != [] && AllDigits(ds)
    requires rest == [] || !IsDigit(rest[0])
    ensures ParseInt(ds + rest) == Some(DigitsValue(ds))
  {
    var t := ds + rest;
    assert t[0] == ds[0];
    assert TrimStart(t) == t;
    DigitPrefixOfDigits(ds, rest);
  }

  /** Leading white space never changes what `parseInt` reads. */
  lemma ParseIntSkipsLeadingSpace(ws: string, s: string)
    requires AllSpace(ws)
    ensures ParseInt(ws + s) == ParseInt(s)
  {
    TrimStartSkipsSpace(ws, s);
  }
}
