/** The two integer conversions applied to table cells: Python's int() cast,
    which fails on text that is not an integer, and pandas' to_numeric with
    errors="coerce" followed by fillna(0), which turns such text into 0. */
module Numerals {
  import opened Wrappers

  predicate IsDigit(c: char) {
    '0' <= c <= '9'
  }

  predicate AllDigits(s: string) {
    forall i :: 0 <= i < |s| ==> IsDigit(s[i])
  }

  /** The value of a run of decimal digits, most significant first. */
  function DigitsValue(ds: string): nat
    requires AllDigits(ds)
  {
    if ds == [] then 0
    else DigitsValue(ds[..|ds| - 1]) * 10 + ((ds[|ds| - 1] as int) - ('0' as int))
  }

  /** An optional sign followed by one or more ASCII digits, read as an
      integer; anything else is not an integer. */
  function ParseInt(s: string): Option<int> {
    var negative := s != [] && s[0] == '-';
    var digits := if s != [] && (s[0] == '-' || s[0] == '+') then s[1..] else s;
    if digits != [] && AllDigits(digits) then
      Some(if negative then 0 - DigitsValue(digits) as int else DigitsValue(digits) as int)
    else None
  }

  /** A cell coerced leniently: its integer value, or 0 when it is not one. */
  function Lenient(s: string): (n: int)
    ensures ParseInt(s).None? ==> n == 0
    ensures ParseInt(s).Some? ==> n == ParseInt(s).value
  {
    match ParseInt(s)
    case Some(v) => v
    case None => 0
  }

  /** Decimal digits of a natural number, as str() writes them. */
  function NatDecimal(n: nat): (ds: string)
    ensures ds != [] && AllDigits(ds)
  {
    if n < 10 then [('0' as int + n) as char]
    else NatDecimal(n / 10) + [('0' as int + n % 10) as char]
  }

  /** str(n) for an integer `n`. */
  function Decimal(n: int): string {
    if n < 0 then "-" + NatDecimal(-n) else NatDecimal(n)
  }

  lemma {:induction false} NatDecimalValue(n: nat)
    ensures DigitsValue(NatDecimal(n)) == n
  {
    if n >= 10 {
      var ds := NatDecimal(n);
      assert ds[..|ds| - 1] == NatDecimal(n / 10);
      NatDecimalValue(n / 10);
    }
  }

  /** Round trip: the decimal text of any integer reads back as that
      integer, so a numeric cell keeps its value under both casts. */
  lemma ParseDecimal(n: int)
    ensures ParseInt(Decimal(n)) == Some(n)
    ensures Lenient(Decimal(n)) == n
  {
    var ds := NatDecimal(if n < 0 then -n else n);
    NatDecimalValue(if n < 0 then -n else n);
    assert ds[0] != '-' && ds[0] != '+' by {
      assert IsDigit(ds[0]);
    }
    if n < 0 {
      var text := "-" + ds;
      assert text[0] == '-' && text[1..] == ds;
      assert ParseInt(text) == Some(0 - DigitsValue(ds) as int);
    } else {
      assert ParseInt(ds) == Some(DigitsValue(ds) as int);
    }
  }

  /** Text that holds no digit at all (an empty cell, a dash) is not an
      integer, so lenient coercion gives 0 for it. */
  lemma LenientNoDigit(s: string)
    requires forall i :: 0 <= i < |s| ==> !IsDigit(s[i])
    ensures ParseInt(s) == None
    ensures Lenient(s) == 0
  {
    if s != [] && (s[0] == '-' || s[0] == '+') && |s| > 1 {
      assert !IsDigit(s[1..][0]);
    } else if s != [] && s[0] != '-' && s[0] != '+' {
      assert !IsDigit(s[0]);
    }
  }
}
