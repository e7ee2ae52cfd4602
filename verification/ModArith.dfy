/** Division and remainder facts used by the index arithmetic of the other modules. */
module ModArith {

  lemma MulMono(a: int, b: int, c: int)
    requires a <= b && 0 <= c
    ensures a * c <= b * c
  {
    assert 0 <= (b - a) * c;
  }

  lemma DivMod(a: int, n: int)
    requires 0 < n
    ensures a == a / n * n + a % n && 0 <= a % n < n
    ensures 0 <= a ==> 0 <= a / n
  {
  }

  // The only multiple of n strictly between -n and n is 0.
  lemma SmallMultiple(e: int, n: int)
    requires 0 < n && -n < e * n < n
    ensures e == 0
  {
    assert 1 <= e ==> n <= e * n;
    assert e <= -1 ==> e * n <= -n;
  }

  // Quotient and remainder are unique.
  lemma DivModUnique(q: int, n: int, x: int)
    requires 0 < n && 0 <= x < n
    ensures (q * n + x) / n == q && (q * n + x) % n == x
  {
    var y := q * n + x;
    var e := y / n - q;
    assert y == y / n * n + y % n;
    assert e * n == y / n * n - q * n;
    SmallMultiple(e, n);
  }

  lemma ModPlusMultiple(a: int, q: int, n: int)
    requires 0 < n
    ensures (a + q * n) % n == a % n
  {
    assert a == a / n * n + a % n;
    assert a + q * n == (a / n + q) * n + a % n by {
      assert (a / n + q) * n == a / n * n + q * n;
    }
    DivModUnique(a / n + q, n, a % n);
  }

  lemma ModAdd(a: int, b: int, n: int)
    requires 0 < n
    ensures (a % n + b) % n == (a + b) % n
    ensures (b + a % n) % n == (a + b) % n
  {
    var q := a / n;
    assert a == q * n + a % n;
    ModPlusMultiple(a % n + b, q, n);
  }

  lemma QuotientBelow(a: int, n: int, m: int)
    requires 0 < n && a / n < m
    ensures a < m * n
  {
    DivMod(a, n);
    MulMono(a / n + 1, m, n);
    assert (a / n + 1) * n == a / n * n + n;
  }

  lemma FactorBelow(q: nat, t: nat, x: nat, m: int)
    requires 0 < t && q * t + x < m
    ensures q < m
  {
    MulMono(1, t, q);
  }

  // A cyclic shift by b is undone by a shift by -b.
  lemma ModShift(a: int, b: int, n: int)
    requires 0 <= a < n
    ensures ((a + b) % n - b) % n == a
    ensures ((a - b) % n + b) % n == a
  {
    ModAdd(a + b, -b, n);
    ModAdd(a - b, b, n);
    ModSmall(a, n);
  }

  lemma ShiftBack(a: int, b: int, n: int, x: int)
    requires 0 <= a < n && x == (a + b) % n
    ensures (x - b) % n == a
  {
    ModShift(a, b, n);
  }

  lemma ModSmall(a: int, n: int)
    requires 0 <= a < n
    ensures a % n == a && a / n == 0
  {
    DivModUnique(0, n, a);
  }

  // A cell number below rows * cols has its row below rows.
  lemma DivBound(k: nat, rows: nat, n: nat)
    requires k < rows * n
    ensures 0 < n && k / n < rows
  {
    assert k == k / n * n + k % n;
    var q := k / n;
    assert rows <= q ==> rows * n <= q * n;
  }

  // Less than n apart, two numbers have different remainders.
  lemma ModApart(a: int, b: int, n: int)
    requires 0 < n && a < b < a + n
    ensures a % n != b % n
  {
    var e := b / n - a / n;
    DivMod(a, n);
    DivMod(b, n);
    assert e * n == b / n * n - a / n * n;
    if a % n == b % n {
      SmallMultiple(e, n);
    }
  }

  // The remainder by a divisor of m is not changed by first taking the remainder by m.
  lemma ModOfMod(a: int, m: int, n: int)
    requires 0 < n && 0 < m && m % n == 0
    ensures a % m % n == a % n
  {
    DivMod(a, m);
    DivMod(m, n);
    assert a % m == a + (-(a / m) * (m / n)) * n;
    ModPlusMultiple(a, -(a / m) * (m / n), n);
  }

  // Counting on modulo n.
  lemma ModNext(a: int, n: int)
    requires 0 < n
    ensures (a % n + 1) % n == (a + 1) % n
  {
    ModAdd(a, 1, n);
  }

  // n rounded up to a whole number of bytes.
  function ByteAligned(n: nat): (p: nat)
    ensures n <= p < n + 8 && p % 8 == 0
  {
    if n % 8 > 0 then (n / 8 + 1) * 8 else n
  }
}
