/** The chunk size of convert_pointers_to_branches (multichase/br_asm.c): the length of the ring
    divided by the power of two nearest to the wanted number of chunks. */
module ChunkSize {
  import opened Numbers

  /** 2^k is the power of two nearest to r/c on the logarithmic scale:
      2^(2k-1) * c^2 <= r^2 <= 2^(2k+1) * c^2. Equality on either side is impossible. */
  ghost predicate NearestExponent(k: nat, r: nat, c: nat) {
    var d := c * Pow2(k);
    r * r <= 2 * (d * d) && d * d < 2 * (r * r)
  }

  /** lround(log2(r / c)) for 1 <= c <= r. */
  function RoundedLog2(r: nat, c: nat): (k: nat)
    requires 0 < c
    decreases 2 * r - c
  {
    if r * r <= 2 * (c * c) then 0
    else
      assert c < r by { if r <= c { MulMono(r, c, r); MulMono(r, c, c); } }
      1 + RoundedLog2(r, 2 * c)
  }

  lemma {:induction false} RoundedLog2IsNearest(r: nat, c: nat)
    requires 0 < c && (c <= r || c * c < 2 * (r * r))
    ensures NearestExponent(RoundedLog2(r, c), r, c)
    decreases 2 * r - c
  {
    if c <= r {
      MulMono(c, r, c);
      MulMono(c, r, r);
      MulMono(1, r, r);
    }
    if r * r > 2 * (c * c) {
      assert (2 * c) * (2 * c) == 4 * (c * c);
      assert c < r by { if r <= c { MulMono(r, c, r); MulMono(r, c, c); } }
      RoundedLog2IsNearest(r, 2 * c);
      var k := RoundedLog2(r, 2 * c);
      assert (2 * c) * Pow2(k) == c * Pow2(k + 1);
    } else {
      assert c * Pow2(0) == c;
    }
  }

  /** There is only one nearest exponent. */
  lemma NearestUnique(k: nat, l: nat, r: nat, c: nat)
    requires NearestExponent(k, r, c) && NearestExponent(l, r, c)
    ensures k == l
  {
    if k < l {
      NearestNotLarger(k, l, r, c);
    } else if l < k {
      NearestNotLarger(l, k, r, c);
    }
  }

  lemma NearestNotLarger(k: nat, l: nat, r: nat, c: nat)
    requires k < l && NearestExponent(k, r, c)
    ensures !NearestExponent(l, r, c)
  {
    var d, e := c * Pow2(k), c * Pow2(l);
    Pow2Mono(k + 1, l);
    MulMono(Pow2(k + 1), Pow2(l), c);
    assert 2 * d == c * Pow2(k + 1);
    SquareMono(2 * d, e);
    assert (2 * d) * (2 * d) == 4 * (d * d);
  }

  /** Nodes per chunk, before the remainder is spread over the chunks. */
  function BaseChunkSize(r: nat, c: nat): nat
    requires 0 < c
  {
    if r < c then r else r / Pow2(RoundedLog2(r, c))
  }

  /** A ring no longer than the request makes one chunk; a longer one is divided by the nearest power of
      two to the quotient. */
  ghost predicate ChunkSizeIs(r: nat, c: nat, s: nat) {
    if r <= c then s == r else exists k: nat :: NearestExponent(k, r, c) && s == r / Pow2(k)
  }

  lemma BaseChunkSizeIs(r: nat, c: nat)
    requires 0 < r && 0 < c
    ensures ChunkSizeIs(r, c, BaseChunkSize(r, c))
  {
    if c <= r {
      RoundedLog2IsNearest(r, c);
    }
    if r == c {
      MulMono(0, r, r);
      assert RoundedLog2(r, c) == 0 && Pow2(0) == 1;
      DivModUnique(r, 1, r, 0);
    }
  }

  lemma SameChunkSize(r: nat, c: nat, s: nat, t: nat)
    requires ChunkSizeIs(r, c, s) && ChunkSizeIs(r, c, t)
    ensures s == t
  {
    if c < r {
      var k: nat :| NearestExponent(k, r, c) && s == r / Pow2(k);
      var l: nat :| NearestExponent(l, r, c) && t == r / Pow2(l);
      NearestUnique(k, l, r, c);
    }
  }

  /** What the chunking needs: the size is at least one, and the nodes left over are fewer
      than the chunks. */
  ghost predicate Chunkable(r: nat, s: nat) {
    0 < s && r % s < r / s
  }

  lemma PowerChunkable(r: nat, p: nat)
    requires 0 < p <= r
    ensures Chunkable(r, r / p)
  {
    var s, t := r / p, r % p;
    DivBelow(r, 1, p);
    assert r == s * p + t;
    if t < s {
      assert s * p == p * s;
      DivModUnique(r, s, p, t);
    } else {
      var a, b := t / s, t % s;
      assert r == (p + a) * s + b by { assert (p + a) * s == p * s + a * s; assert s * p == p * s; }
      DivModUnique(r, s, p + a, b);
    }
  }

  /** For a requested size of at least two, no division by zero can occur, and the remainder
      can be spread one node to a chunk. */
  lemma ChunkSizeIsGood(r: nat, c: nat)
    requires 0 < r && 2 <= c
    ensures Chunkable(r, BaseChunkSize(r, c))
  {
    if r < c {
      DivModUnique(r, r, 1, 0);
    } else {
      RoundedLog2IsNearest(r, c);
      var p := Pow2(RoundedLog2(r, c));
      PowerBelow(r, c, p);
      PowerChunkable(r, p);
    }
  }

  /** Any positive chunk size will do. */
  lemma ChunkSizeIsEnough(r: nat, c: nat)
    requires 0 < r && 0 < c && 0 < BaseChunkSize(r, c)
    ensures Chunkable(r, BaseChunkSize(r, c))
  {
    if r < c {
      DivModUnique(r, r, 1, 0);
    } else {
      var p := Pow2(RoundedLog2(r, c));
      DivBelow(r, 1, p);
      PowerChunkable(r, p);
    }
  }

  lemma PowerBelow(r: nat, c: nat, p: nat)
    requires 2 <= c && (c * p) * (c * p) < 2 * (r * r)
    ensures p <= r
  {
    MulMono(2, c, p);
    assert (2 * r) * (2 * r) == 4 * (r * r);
    if r < p {
      SquareMono(2 * r, c * p);
    }
  }

  /** Requesting one node per chunk can fail: a ring of three nodes would get chunks of size zero. */
  lemma OneNodeChunksCanFail()
    ensures BaseChunkSize(3, 1) == 0
  {
    assert RoundedLog2(3, 1) == 1 + RoundedLog2(3, 2) == 2;
    assert Pow2(2) == 4;
  }

  /** Exactly when a request of one fails: when the ring length lies between 1/sqrt(2) times a power
      of two and that power. */
  lemma OneNodeChunksFailExactly(r: nat)
    requires 0 < r
    ensures BaseChunkSize(r, 1) == 0 <==> exists k: nat :: r < Pow2(k) && Pow2(k) * Pow2(k) < 2 * (r * r)
  {
    var p := Pow2(RoundedLog2(r, 1));
    RoundedLog2IsNearest(r, 1);
    DivBelow(r, 1, p);
    DivBelow(r, 0, p);
    if k: nat :| r < Pow2(k) && Pow2(k) * Pow2(k) < 2 * (r * r) {
      SquareMono(r, Pow2(k));
      NearestUnique(k, RoundedLog2(r, 1), r, 1);
    }
  }

  /** The size differs from the requested one by at most a factor of the square root of two. */
  lemma ChunkSizeNearRequest(r: nat, c: nat)
    requires 2 <= c <= r
    ensures var s := BaseChunkSize(r, c);
            s * s <= 2 * (c * c) && c * c < 2 * ((s + 1) * (s + 1))
  {
    RoundedLog2IsNearest(r, c);
    var p := Pow2(RoundedLog2(r, c));
    var s := r / p;
    DivBelow(r, s + 1, p);
    DivBelow(r, s, p);
    DivBelow(r, 0, p);
    MulMono(0, s, p);
    SquareMono(s * p, r);
    SquareMono(r, (s + 1) * p);
    SquaredScale(s, c, p);
    SquaredScale(c, s + 1, p);
  }

  /** A common factor p can be taken out of a comparison of squares. */
  lemma SquaredScale(a: nat, b: nat, p: nat)
    requires 0 < p
    ensures (a * p) * (a * p) <= 2 * ((b * p) * (b * p)) ==> a * a <= 2 * (b * b)
    ensures (a * p) * (a * p) < 2 * ((b * p) * (b * p)) ==> a * a < 2 * (b * b)
  {
    var x, y := a * a, 2 * (b * b);
    assert (a * p) * (a * p) == x * (p * p);
    assert 2 * ((b * p) * (b * p)) == y * (p * p);
    MulMono(1, p, p);
    if y < x {
      MulLess(y, x, p * p);
    }
    if y <= x {
      MulMono(y, x, p * p);
    }
  }

  lemma SquareMono(a: nat, b: nat)
    requires a <= b
    ensures a * a <= b * b
  {
    MulMono(a, b, a);
    MulMono(a, b, b);
  }

  lemma MulLess(a: int, b: int, n: nat)
    requires a < b && 0 < n
    ensures a * n < b * n
  {
    assert b * n - a * n == (b - a) * n;
    MulMono(1, b - a, n);
  }
}
