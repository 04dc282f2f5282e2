/** `std::to_string` on 64-bit integers and the digit loop that reads them
    back, with signed overflow as an outcome of its own. */
module Decimal {
  import opened ByteStrings

  const INT64_MAX := 0x7fff_ffff_ffff_ffff
  const INT64_MIN := -0x8000_0000_0000_0000

  predicate IsDigit(c: Octet) {
    '0' <= c <= '9'
  }

  function DigitChar(d: nat): Octet
    requires d < 10
  {
    ('0' as int + d) as char
  }

  function DigitValue(c: Octet): nat
    requires IsDigit(c)
  {
    c as int - '0' as int
  }

  predicate AllDigits(s: Bytes) {
    forall k :: 0 <= k < |s| ==> IsDigit(s[k])
  }

  function Digits(n: nat): (s: Bytes)
    ensures |s| > 0 && AllDigits(s)
  {
    if n < 10 then [DigitChar(n)] else Digits(n / 10) + [DigitChar(n % 10)]
  }

  function ToString(n: int): Bytes {
    if n < 0 then "-" + Digits(-n) else Digits(n)
  }

  const NUMERALS: Bytes := "0123456789"

  /** Decimal notation: a digit below ten, and otherwise the tens before the units. */
  lemma DecimalNotation(n: nat)
    ensures n < 10 ==> ToString(n) == [NUMERALS[n]]
    ensures n >= 10 ==> ToString(n) == ToString(n / 10) + ToString(n % 10)
    ensures var m: int := n; m > 0 ==> ToString(-m) == ['-'] + ToString(m)
  {
    if n < 10 { Numerals(n); }
  }

  lemma Numerals(n: nat)
    requires n < 10
    ensures NUMERALS[n] == DigitChar(n)
  {
  }

  // ---------- Reading ----------

  /** What reading a number comes to; `Undefined` when the C++ would overflow a
      signed 64-bit integer on the way. */
  datatype Scan = Value(n: int) | Undefined

  function PushDigit(val: nat, c: Octet): Option<nat>
    requires IsDigit(c)
  {
    var next := 10 * val + DigitValue(c);
    if next > INT64_MAX then None else Some(next)
  }

  /** The digit loop from a given accumulator. */
  function ScanDigits(s: Bytes, val: nat): (r: Scan)
    ensures r.Value? ==> r.n >= val
  {
    if |s| == 0 || !IsDigit(s[0]) then Value(val)
    else match PushDigit(val, s[0])
      case None => Undefined
      case Some(next) => ScanDigits(s[1..], next)
  }

  /** An optional minus sign, then digits. */
  function ScanInt(s: Bytes): Scan {
    if |s| > 0 && s[0] == '-' then
      match ScanDigits(s[1..], 0)
      case Undefined => Undefined
      case Value(n) => Value(-n)
    else ScanDigits(s, 0)
  }

  predicate StartsWithDigit(s: Bytes) {
    |s| > 0 && IsDigit(s[0])
  }

  /** Reading a run of digits in two parts. */
  lemma {:induction false} ScanDigitsConcat(a: Bytes, b: Bytes, val: nat)
    requires AllDigits(a)
    ensures ScanDigits(a + b, val) ==
            match ScanDigits(a, val) case Undefined => Undefined case Value(n) => ScanDigits(b, n)
    decreases |a|
  {
    if |a| == 0 {
      assert a + b == b;
    } else {
      assert (a + b)[1..] == a[1..] + b;
      match PushDigit(val, a[0])
      case None =>
      case Some(next) => ScanDigitsConcat(a[1..], b, next);
    }
  }

  /** Printed digits read back as the number, exactly when it fits. */
  lemma {:induction false} ScanPrinted(n: nat)
    ensures ScanDigits(Digits(n), 0) == if n <= INT64_MAX then Value(n) else Undefined
  {
    if n < 10 {
      assert ScanDigits(Digits(n)[1..], n) == Value(n);
    } else {
      ScanPrinted(n / 10);
      var last: Bytes := [DigitChar(n % 10)];
      ScanDigitsConcat(Digits(n / 10), last, 0);
      if n / 10 <= INT64_MAX {
        assert DigitValue(last[0]) == n % 10;
        assert 10 * (n / 10) + n % 10 == n;
        assert n <= INT64_MAX ==> ScanDigits(last[1..], n) == Value(n);
      }
    }
  }

  /** The reader stops where the digits stop; only the least integer, whose
      magnitude does not fit, cannot be read. */
  lemma ScanIntPrinted(n: int, rest: Bytes)
    requires INT64_MIN <= n <= INT64_MAX
    requires !StartsWithDigit(rest)
    ensures ScanInt(ToString(n) + rest) == if n == INT64_MIN then Undefined else Value(n)
  {
    hide Digits;
    var m: nat := if n < 0 then -n else n;
    var s := ToString(n) + rest;
    ScanPrinted(m);
    ScanDigitsConcat(Digits(m), rest, 0);
    if n < 0 {
      assert s[0] == '-' && s[1..] == Digits(m) + rest;
    } else {
      assert s == Digits(m) + rest && IsDigit(s[0]);
    }
  }

  /** Printing is injective. */
  lemma ToStringInjective(m: int, n: int)
    requires ToString(m) == ToString(n)
    ensures m == n
  {
    hide Digits;
    var a: nat, b: nat := if m < 0 then -m else m, if n < 0 then -n else n;
    assert IsDigit(Digits(a)[0]) && IsDigit(Digits(b)[0]);
    if m < 0 {
      assert ToString(m)[0] == '-';
      assert n < 0 && ToString(m)[1..] == Digits(a) && ToString(n)[1..] == Digits(b);
    } else {
      assert IsDigit(ToString(n)[0]);
    }
    DigitsInjective(a, b);
  }

  lemma {:induction false} DigitsInjective(a: nat, b: nat)
    requires Digits(a) == Digits(b)
    ensures a == b
    decreases a
  {
    var s := Digits(a);
    assert |Digits(a)| == 1 <==> a < 10;
    assert |Digits(b)| == 1 <==> b < 10;
    if a >= 10 {
      assert Digits(a / 10) == s[..|s| - 1] == Digits(b / 10);
      DigitsInjective(a / 10, b / 10);
      assert DigitChar(a % 10) == s[|s| - 1] == DigitChar(b % 10);
    }
  }
}
