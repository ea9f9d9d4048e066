/** Decimal text of integers, as the standard library writes and reads it. */
module Decimal {
  import opened Wrappers

  function Digit(d: int): char
    requires 0 <= d < 10
  {
    '0' + d as char
  }

  predicate IsDigit(c: char) {
    '0' <= c <= '9'
  }

  /** The decimal digits of n, without leading zeros. */
  function Digits(n: nat): (s: string)
    ensures s != []
    decreases n
  {
    if n < 10 then [Digit(n)] else Digits(n / 10) + [Digit(n % 10)]
  }

  function Itoa(i: int): string {
    if i < 0 then "-" + Digits(-i) else Digits(i)
  }

  predicate AllDigits(s: string) {
    forall k :: 0 <= k < |s| ==> IsDigit(s[k])
  }

  /** The number a text of digits stands for. */
  function Value(s: string): nat
    requires AllDigits(s)
  {
    if s == [] then 0 else Value(s[..|s| - 1]) * 10 + (s[|s| - 1] - '0') as nat
  }

  lemma {:induction false} DigitsValue(n: nat)
    ensures AllDigits(Digits(n)) && Value(Digits(n)) == n
    ensures Digits(n)[0] == '0' ==> n == 0
    decreases n
  {
    var s := Digits(n);
    if n < 10 {
      assert Value(s[..0]) == 0;
    } else {
      DigitsValue(n / 10);
      assert s[..|s| - 1] == Digits(n / 10);
    }
  }

  lemma DigitsInjective(m: nat, n: nat)
    requires Digits(m) == Digits(n)
    ensures m == n
  {
    DigitsValue(m);
    DigitsValue(n);
  }

  lemma ItoaInjective(i: int, j: int)
    requires Itoa(i) == Itoa(j)
    ensures i == j
  {
    DigitsValue(if i < 0 then -i else i);
    DigitsValue(if j < 0 then -j else j);
    if i < 0 && j < 0 {
      assert Digits(-i) == Itoa(i)[1..] && Digits(-j) == Itoa(j)[1..];
      DigitsInjective(-i, -j);
    } else if i >= 0 && j >= 0 {
      DigitsInjective(i, j);
    }
  }

  const MIN_INT64 := -0x8000_0000_0000_0000
  const MAX_INT64 := 0x7fff_ffff_ffff_ffff

  /** Reading a 64-bit integer: an optional sign and at least one digit; anything
      else, or a number out of range, is refused. */
  function ParseInt(s: string): Option<int> {
    var signed := s != [] && (s[0] == '-' || s[0] == '+');
    var digits := if signed then s[1..] else s;
    if digits == [] || !AllDigits(digits) then None
    else
      var v: int := if signed && s[0] == '-' then -(Value(digits) as int) else Value(digits);
      if MIN_INT64 <= v <= MAX_INT64 then Some(v) else None
  }

  /** A text is the integer v: one or more digits of its amount, and a sign that a
      number from zero on may have too. */
  ghost predicate Spells(s: string, v: int) {
    || (s != [] && AllDigits(s) && v == Value(s))
    || (|s| > 1 && s[0] == '+' && AllDigits(s[1..]) && v == Value(s[1..]))
    || (|s| > 1 && s[0] == '-' && AllDigits(s[1..]) && v == -(Value(s[1..]) as int))
  }

  /** ParseInt reads exactly the texts of 64-bit integers. */
  lemma ParseIntReads(s: string, v: int)
    ensures ParseInt(s) == Some(v) <==> Spells(s, v) && MIN_INT64 <= v <= MAX_INT64
  {
    if s != [] {
      assert !IsDigit('+') && !IsDigit('-');
      assert AllDigits(s) ==> IsDigit(s[0]);
    }
  }

  /** What Itoa writes ParseInt reads back. */
  lemma ParseItoa(i: int)
    requires MIN_INT64 <= i <= MAX_INT64
    ensures ParseInt(Itoa(i)) == Some(i)
  {
    var n := if i < 0 then -i else i;
    DigitsValue(n);
    if i < 0 {
      assert Itoa(i)[1..] == Digits(n);
    } else {
      assert IsDigit(Itoa(i)[0]);
    }
  }

  /** Integers are written without the given character, if it is no digit and no
      sign. */
  lemma ItoaAvoids(i: int, c: char)
    requires !IsDigit(c) && c != '-'
    ensures c !in Itoa(i)
  {
    DigitsValue(if i < 0 then -i else i);
  }
}
