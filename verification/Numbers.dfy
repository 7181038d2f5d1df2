/** Arithmetic shared by the models: Euclidean division by a positive number,
    powers of two, and the cyclic successor used by every ring of cells. */
module Numbers {

  /** Quotient and remainder are determined by any decomposition a == q*n + r. */
  lemma DivModUnique(a: int, n: int, q: int, r: int)
    requires 0 < n && 0 <= r < n && a == q * n + r
    ensures a / n == q && a % n == r
  {
    var d, m := a / n, a % n;
    assert (d + 1) * n == d * n + n && (q + 1) * n == q * n + n;
    if d < q {
      MulMono(d + 1, q, n);
    } else if q < d {
      MulMono(q + 1, d, n);
    }
  }

  /** Multiplication by a non-negative number is monotone. */
  lemma MulMono(a: int, b: int, n: int)
    requires a <= b && 0 <= n
    ensures a * n <= b * n
  {
    assert b * n - a * n == (b - a) * n;
  }

  lemma MulSucc(n: int, q: int)
    ensures (n + 1) * q == n * q + q
  {}

  /** x < q*n is the same as x/n < q. */
  lemma DivBelow(x: nat, q: nat, n: nat)
    requires 0 < n
    ensures x < q * n <==> x / n < q
    ensures x == (x / n) * n + x % n
  {
    if x / n < q {
      MulMono(x / n + 1, q, n);
      assert (x / n + 1) * n == (x / n) * n + n;
    } else {
      MulMono(q, x / n, n);
    }
  }

  /** An index written as block and offset stays inside all the blocks. */
  lemma BlockIndex(i: nat, j: nat, count: nat, size: nat)
    requires i < count && j < size
    ensures 0 <= i * size + j < count * size
    ensures (i * size + j) / size == i && (i * size + j) % size == j
    ensures i * size + size <= count * size
  {
    MulMono(i + 1, count, size);
    assert (i + 1) * size == i * size + size;
    MulMono(0, i, size);
    DivModUnique(i * size + j, size, i, j);
  }

  /** Dividing twice divides by the product. */
  lemma DivDiv(x: nat, m: nat, n: nat)
    requires 0 < m && 0 < n
    ensures 0 < m * n && (x / m) / n == x / (m * n)
  {
    var q := (x / m) / n;
    MulMono(1, m, n);
    var r := ((x / m) % n) * m + x % m;
    assert x == (x / m) * m + x % m;
    assert x / m == q * n + (x / m) % n;
    assert (q * n + (x / m) % n) * m == q * n * m + ((x / m) % n) * m;
    assert q * n * m == q * (m * n);
    MulMono((x / m) % n + 1, n, m);
    assert ((x / m) % n + 1) * m == ((x / m) % n) * m + m;
    MulMono(0, (x / m) % n, m);
    DivModUnique(x, m * n, q, r);
  }

  /** An exact multiple is its quotient times its divisor. */
  lemma ExactDiv(a: nat, n: nat)
    requires 0 < n && a % n == 0
    ensures a == (a / n) * n
  {}

  /** A multiple of a multiple: the sizes of the three nested levels agree. */
  lemma NestedDiv(a: nat, b: nat, c: nat)
    requires 0 < c && 0 < b && b % c == 0 && a % b == 0
    ensures a % c == 0 && a / c == (a / b) * (b / c)
    ensures 0 < b / c
  {
    var p, q := a / b, b / c;
    assert a == p * b && b == q * c;
    assert p * (q * c) == (p * q) * c;
    DivModUnique(a, c, p * q, 0);
  }

  // ----- cyclic positions

  /** The position after i on a ring of n positions. */
  function Next(i: nat, n: nat): (r: nat)
    requires i < n
    ensures r < n
  {
    if i + 1 == n then 0 else i + 1
  }

  lemma NextIsModulo(i: nat, n: nat)
    requires 0 < n
    ensures i % n < n && Next(i % n, n) == (i + 1) % n
  {
    var q, r := i / n, i % n;
    if r + 1 == n {
      assert i + 1 == (q + 1) * n + 0 by { assert (q + 1) * n == q * n + n; }
      DivModUnique(i + 1, n, q + 1, 0);
    } else {
      DivModUnique(i + 1, n, q, r + 1);
    }
  }

  lemma SmallModulo(i: nat, n: nat)
    requires i < n
    ensures i % n == i && i / n == 0
  {}

  lemma AddModulo(k: nat, n: nat)
    requires 0 < n
    ensures (n + k) % n == k % n
  {
    assert n + k == (1 + k / n) * n + k % n by { assert (1 + k / n) * n == n + k / n * n; }
    DivModUnique(n + k, n, 1 + k / n, k % n);
  }

  /** The position k steps after s on a ring of n positions. */
  function Turn(s: nat, k: nat, n: nat): (r: nat)
    requires s < n && k < n
    ensures r < n
  {
    if s + k < n then s + k else s + k - n
  }

  /** How many steps after s the position p comes: the inverse of Turn. */
  function Ahead(s: nat, p: nat, n: nat): (k: nat)
    requires s < n && p < n
    ensures k < n && Turn(s, k, n) == p
    ensures forall j | 0 <= j < n && Turn(s, j, n) == p :: j == k
  {
    if s <= p then p - s else p + n - s
  }

  // ----- powers of two

  function Pow2(k: nat): (r: nat)
    ensures 0 < r
  {
    if k == 0 then 1 else 2 * Pow2(k - 1)
  }

  /** Bitwise conjunction of two non-negative numbers. */
  function And(x: nat, y: nat): nat {
    if x == 0 || y == 0 then 0
    else (if x % 2 == 1 && y % 2 == 1 then 1 else 0) + 2 * And(x / 2, y / 2)
  }

  /** Masking with 2^k - 1 keeps the low k bits, that is, the remainder by 2^k. */
  lemma {:induction false} AndMask(x: nat, k: nat)
    ensures And(x, Pow2(k) - 1) == x % Pow2(k)
  {
    if k == 0 {
    } else if x == 0 {
      SmallModulo(0, Pow2(k));
    } else {
      var p := Pow2(k - 1);
      AndMask(x / 2, k - 1);
      AndStep(x, p);
      HalveModulo(x, p);
    }
  }

  lemma AndStep(x: nat, p: nat)
    requires 0 < p
    ensures And(x, 2 * p - 1) == x % 2 + 2 * And(x / 2, p - 1)
  {
    OddMask(p);
  }

  lemma OddMask(p: nat)
    requires 0 < p
    ensures (2 * p - 1) % 2 == 1 && (2 * p - 1) / 2 == p - 1
  {}

  lemma HalveModulo(x: nat, p: nat)
    requires 0 < p
    ensures x % (2 * p) == x % 2 + 2 * ((x / 2) % p)
  {
    var q, r := (x / 2) / p, (x / 2) % p;
    assert x == 2 * (q * p + r) + x % 2;
    assert 2 * (q * p) == q * (2 * p);
    DivModUnique(x, 2 * p, q, 2 * r + x % 2);
  }

  lemma {:induction false} Pow2Mono(a: nat, b: nat)
    requires a <= b
    ensures Pow2(a) <= Pow2(b)
  {
    if a < b { Pow2Mono(a, b - 1); }
  }

  function Sum(s: seq<nat>): nat {
    if s == [] then 0 else Sum(s[..|s| - 1]) + s[|s| - 1]
  }

  lemma SumMore(s: seq<nat>, n: nat)
    ensures Sum(s + [n]) == Sum(s) + n
  {
    assert (s + [n])[..|s|] == s;
  }
}
