/** Facts about remainders that the counters and tokens need. */
module Remainders {

  lemma MultipleIsZeroOrLarge(d: int, m: int)
    requires m > 0
    ensures d == 0 || d * m >= m || d * m <= -m
  {
    if d >= 1 {
      assert d * m == (d - 1) * m + m;
    } else if d <= -1 {
      assert d * m == (d + 1) * m - m;
    }
  }

  lemma ProductsOrder(n: int, a: int, b: int)
    requires n > 0
    ensures n * a <= n * b <==> a <= b
  {
    MultipleIsZeroOrLarge(a - b, n);
    assert n * a - n * b == (a - b) * n;
  }

  lemma DivModUnique(x: int, q: int, r: int, m: int)
    requires m > 0 && 0 <= r < m && x == q * m + r
    ensures x / m == q && x % m == r
  {
    var d := x / m - q;
    assert d * m == r - x % m;
    MultipleIsZeroOrLarge(d, m);
  }

  lemma RemainderAfter(x: nat, m: int)
    requires m > 1
    ensures (x + 1) % m == if x % m == m - 1 then 0 else x % m + 1
  {
    if x % m == m - 1 {
      DivModUnique(x + 1, x / m + 1, 0, m);
    } else {
      DivModUnique(x + 1, x / m, x % m + 1, m);
    }
  }

  lemma SameRemainder(x: int, y: int, m: int)
    requires m > 0
    ensures x % m == y % m <==> (x - y) % m == 0
  {
    var d := x % m - y % m;
    var q := x / m - y / m;
    assert x - y == q * m + d;
    if d >= 0 {
      DivModUnique(x - y, q, d, m);
    } else {
      DivModUnique(x - y, q - 1, d + m, m);
    }
  }

  /** Adding whole turns does not change a remainder. */
  lemma TurnsDoNotCount(x: int, turns: int, m: int)
    requires m > 0
    ensures (x + turns * m) % m == x % m
  {
    DivModUnique(x + turns * m, x / m + turns, x % m, m);
  }

  lemma SamePlace(a: int, b: int, k: int, m: int)
    requires m > 0 && a % m == b % m
    ensures (a + k) % m == (b + k) % m
  {
    assert a + k == b + k + (a / m - b / m) * m;
    TurnsDoNotCount(b + k, a / m - b / m, m);
  }

  /** Places less than one turn apart differ. */
  lemma PlacesDiffer(x: int, y: int, m: int)
    requires m > 0 && x < y < x + m
    ensures x % m != y % m
  {
    if x % m == y % m {
      SameRemainder(y, x, m);
      DivModUnique(y - x, 0, y - x, m);
    }
  }

  predicate PowerOfTwo(n: nat) {
    n == 1 || (n > 0 && n % 2 == 0 && PowerOfTwo(n / 2))
  }

  lemma {:induction false} PowersDivide(n: nat, whole: nat) returns (k: nat)
    requires PowerOfTwo(n) && PowerOfTwo(whole) && n <= whole
    ensures whole == k * n
  {
    if n == 1 {
      k := whole;
    } else {
      k := PowersDivide(n / 2, whole / 2);
    }
  }

  lemma Regrouped(x: int, y: int, z: int)
    ensures (x * y) * z == x * (y * z)
  {
  }

  lemma DoubledPower(n: nat)
    requires PowerOfTwo(n)
    ensures PowerOfTwo(2 * n)
  {
    assert 2 * n / 2 == n;
  }

  lemma {:induction false} ProductOfPowers(a: nat, b: nat)
    requires PowerOfTwo(a) && PowerOfTwo(b)
    ensures PowerOfTwo(a * b)
  {
    if a > 1 {
      var half := a / 2;
      ProductOfPowers(half, b);
      Regrouped(2, half, b);
      DoubledPower(half * b);
    } else {
      assert a * b == b;
    }
  }

  lemma Turns(x: nat, n: nat, k: nat, whole: nat)
    requires n > 0 && whole > 0 && whole == k * n
    ensures x == x % whole + (x / whole * k) * n
  {
    var q := x / whole;
    assert x == x % whole + q * whole;
    assert q * (k * n) == (q * k) * n;
  }

  /** A remainder of a power of two is kept by a remainder of a greater one. */
  lemma NestedRemainder(x: nat, n: nat, whole: nat)
    requires PowerOfTwo(n) && PowerOfTwo(whole) && n <= whole
    ensures x % whole % n == x % n
  {
    var k := PowersDivide(n, whole);
    Turns(x, n, k, whole);
    TurnsDoNotCount(x % whole, x / whole * k, n);
  }
}
