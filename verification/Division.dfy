/** Quotients and remainders. */
module Division {

  lemma AtLeast(k: int, m: int)
    requires k >= 1 && m > 0
    ensures k * m >= m
  {
  }

  /** Quotient and remainder are unique. */
  lemma DivisionIsUnique(c: int, r: int, c': int, r': int, m: int)
    requires c * m + r == c' * m + r' && 0 <= r < m && 0 <= r' < m
    ensures c == c' && r == r'
  {
    assert (c - c') * m == c * m - c' * m;
    assert (c' - c) * m == c' * m - c * m;
    if c > c' { AtLeast(c - c', m); }
    if c < c' { AtLeast(c' - c, m); }
  }

  lemma ModOfSum(k: int, m: int, r: int)
    requires 0 <= r < m
    ensures (k * m + r) % m == r
  {
    var v := k * m + r;
    var c, rest := v / m, v % m;
    assert v == c * m + rest;
    DivisionIsUnique(k, r, c, rest, m);
  }

  lemma ModOfMultiple(k: int, m: int)
    requires m > 0
    ensures (k * m) % m == 0
  {
    ModOfSum(k, m, 0);
  }

  lemma SumDivides(a: int, b: int, g: int)
    requires g > 0 && a % g == 0 && b % g == 0
    ensures (a + b) % g == 0
  {
    var m, n := a / g, b / g;
    assert a + b == (m + n) * g;
    ModOfMultiple(m + n, g);
  }

  lemma MultipleOf(a: int, b: int, m: int)
    requires m > 0 && a % m == 0
    ensures (a * b) % m == 0
  {
    var k := a / m;
    assert a == k * m;
    assert a * b == (k * b) * m;
    ModOfMultiple(k * b, m);
  }

  lemma ModStep(n: nat, size: nat)
    requires 0 < size <= n
    ensures n % size == (n - size) % size
  {
    var c, r := (n - size) / size, (n - size) % size;
    assert n == (c + 1) * size + r;
    ModOfSum(c + 1, size, r);
  }

  lemma MultipleAtLeast(n: nat, size: nat)
    requires n > 0 && size > 0 && n % size == 0
    ensures n >= size
  {
    if n < size { ModOfSum(0, size, n); }
  }

  /** `n` bytes are whole blocks of `size`, with nothing left over. */
  predicate Whole(n: nat, size: nat)
    requires size > 0
  {
    if n < size then n == 0 else Whole(n - size, size)
  }

  lemma {:induction false} WholeMeansNoRemainder(n: nat, size: nat)
    requires size > 0
    ensures Whole(n, size) <==> n % size == 0
  {
    if n >= size {
      ModStep(n, size);
      WholeMeansNoRemainder(n - size, size);
    } else {
      ModOfSum(0, size, n);
    }
  }

  /** The distance to the next multiple, which is never zero, is the one amount up to `size` that makes
      the remainder vanish. */
  lemma DistanceToMultiple(a: nat, b: nat, size: nat)
    requires 0 < b <= size
    ensures (a + b) % size == 0 <==> b == size - a % size
  {
    var c, r := a / size, a % size;
    assert a == c * size + r;
    assert (c + 1) * size == c * size + size;
    if r + b < size {
      ModOfSum(c, size, r + b);
    } else {
      assert a + b == (c + 1) * size + (r + b - size);
      ModOfSum(c + 1, size, r + b - size);
    }
  }
}
