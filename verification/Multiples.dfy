/** Facts about multiples of a positive width that the window and bucket
    arithmetic rests on. */
module Multiples {

  /** A product with an integer factor of absolute value at least one is at
      least as large as the other factor. */
  lemma Spread(b: int, q: int)
    requires b > 0
    ensures q >= 1 ==> b * q >= b
    ensures q <= -1 ==> b * q <= -b
  {}

  lemma MultipleMod(q: int, b: int)
    requires b > 0
    ensures (b * q) % b == 0
  {
    var r := (b * q) % b;
    var d := (b * q) / b;
    assert b * (q - d) == r;
    Spread(b, q - d);
  }

  lemma ModOfDifference(a: int, b: int)
    requires b > 0
    ensures (a - a % b) % b == 0
  {
    assert a - a % b == b * (a / b);
    MultipleMod(a / b, b);
  }

  lemma NegatedMod(a: int, b: int)
    requires b > 0
    ensures (a + (-a) % b) % b == 0
    ensures (-a) % b == 0 <==> a % b == 0
  {
    assert a + (-a) % b == b * (-((-a) / b));
    MultipleMod(-((-a) / b), b);
    if a % b == 0 {
      assert -a == b * (-(a / b));
      MultipleMod(-(a / b), b);
    }
  }

  /** Two multiples of b less than b apart are equal. */
  lemma CloseMultiples(x: int, y: int, b: int)
    requires b > 0 && x % b == 0 && y % b == 0 && -b < x - y < b
    ensures x == y
  {
    assert x - y == b * (x / b - y / b);
    Spread(b, x / b - y / b);
  }

  lemma NextMultiple(x: int, b: int)
    requires b > 0 && x % b == 0
    ensures (x + b) % b == 0
  {
    assert x + b == b * (x / b + 1);
    MultipleMod(x / b + 1, b);
  }

  lemma DivModUnique(a: int, b: int, q: int, r: int)
    requires b > 0 && a == b * q + r && 0 <= r < b
    ensures a / b == q && a % b == r
  {
    assert b * (a / b - q) == r - a % b;
    Spread(b, a / b - q);
  }

  lemma QuotientStep(n: nat, width: int)
    requires width > 0
    ensures n % width + 1 == width ==> (n + 1) / width == n / width + 1 && (n + 1) % width == 0
    ensures n % width + 1 < width ==> (n + 1) / width == n / width && (n + 1) % width == n % width + 1
  {
    var q := n / width;
    assert n == width * q + n % width;
    if n % width + 1 == width {
      assert n + 1 == width * (q + 1);
      DivModUnique(n + 1, width, q + 1, 0);
    } else {
      DivModUnique(n + 1, width, q, n % width + 1);
    }
  }

  lemma SmallMod(a: int, b: int)
    requires 0 <= a < b
    ensures a % b == a && a / b == 0
  {
    DivModUnique(a, b, 0, a);
  }

  lemma NextMod(a: nat, b: int)
    requires b > 0
    ensures (a + 1) % b == (a % b + 1) % b
  {
    QuotientStep(a, b);
    if a % b + 1 < b {
      SmallMod(a % b + 1, b);
    } else {
      DivModUnique(b, b, 1, 0);
    }
  }
}
