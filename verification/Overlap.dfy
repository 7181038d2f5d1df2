/** Pointer stores that overlap: what a pointer cell holds of two pointers, in numbers. */
module Overlap {
  import opened Numbers
  import opened Memory

  lemma {:induction false} Pow256Sum(a: nat, b: nat)
    ensures Pow256(a + b) == Pow256(a) * Pow256(b)
  {
    if a != 0 {
      Pow256Sum(a - 1, b);
      assert 256 * (Pow256(a - 1) * Pow256(b)) == (256 * Pow256(a - 1)) * Pow256(b);
    }
  }

  lemma {:induction false} FromBytesAppend(s: seq<byte>, t: seq<byte>)
    ensures FromBytes(s + t) == FromBytes(s) + Pow256(|s|) * FromBytes(t)
    decreases |s|
  {
    if s == [] {
      assert s + t == t;
    } else {
      FromBytesAppend(s[1..], t);
      assert (s + t)[1..] == s[1..] + t;
      ShiftedSum(s[0], FromBytes(s[1..]), Pow256(|s| - 1), FromBytes(t));
    }
  }

  lemma ShiftedSum(first: int, rest: int, p: int, v: int)
    ensures first + 256 * (rest + p * v) == first + 256 * rest + (256 * p) * v
  {
    assert 256 * (p * v) == (256 * p) * v;
  }

  lemma {:induction false} ToBytesTake(v: nat, n: nat, k: nat)
    requires k <= n
    ensures ToBytes(v, n)[..k] == ToBytes(v, k)
  {
    if k != 0 {
      ToBytesTake(v / 256, n - 1, k - 1);
      assert ToBytes(v, n)[..k] == [v % 256] + ToBytes(v / 256, n - 1)[..k - 1];
    }
  }

  lemma {:induction false} ToBytesDrop(v: nat, n: nat, k: nat)
    requires k <= n
    ensures ToBytes(v, n)[k..] == ToBytes(v / Pow256(k), n - k)
  {
    if k != 0 {
      ToBytesDrop(v / 256, n - 1, k - 1);
      assert ToBytes(v, n)[k..] == ToBytes(v / 256, n - 1)[k - 1..];
      DivDiv(v, 256, Pow256(k - 1));
    }
  }

  lemma {:induction false} BytesModulo(v: nat, n: nat)
    ensures FromBytes(ToBytes(v, n)) == v % Pow256(n)
  {
    if n != 0 {
      BytesModulo(v / 256, n - 1);
      assert ToBytes(v, n)[1..] == ToBytes(v / 256, n - 1);
      SplitModulo(v, Pow256(n - 1));
    }
  }

  lemma SplitModulo(v: nat, p: nat)
    requires 0 < p
    ensures 0 < 256 * p && v % (256 * p) == v % 256 + 256 * ((v / 256) % p)
  {
    var u := v / 256;
    var q, r := u / p, u % p;
    assert u == q * p + r;
    assert v == q * (256 * p) + (v % 256 + 256 * r) by {
      assert 256 * (q * p) == q * (256 * p);
    }
    DivModUnique(v, 256 * p, q, v % 256 + 256 * r);
  }

  /** The high bytes of pointer a, followed by the high bytes of pointer b: what is left of b in a
      cell whose first 8 - offset bytes have been overwritten by the end of a. */
  function HighBytes(a: nat, b: nat, offset: nat): nat
    requires offset <= PTR_SIZE
  {
    a / Pow256(offset) + Pow256(PTR_SIZE - offset) * (b / Pow256(PTR_SIZE - offset))
  }

  /** The low bytes of pointer a, followed by the low bytes of pointer b: what is left of a in a cell
      from whose byte `offset` on b has been written. */
  function LowBytes(a: nat, b: nat, offset: nat): nat
    requires offset <= PTR_SIZE
  {
    a % Pow256(offset) + Pow256(offset) * (b % Pow256(PTR_SIZE - offset))
  }

  lemma SliceHas(m: Memory, q: nat, s: seq<byte>)
    requires m.Has(q, |s|) && forall i | 0 <= i < |s| :: m.Byte(q + i) == s[i]
    ensures m.Slice(q, |s|) == s
  {
    forall i | 0 <= i < |s|
      ensures m.Slice(q, |s|)[i] == s[i]
    {
      assert m.Byte(q + i) == s[i];
    }
  }

  lemma BytesOfHigh(a: nat, b: nat, offset: nat)
    requires offset <= PTR_SIZE && a < ADDRESS_LIMIT && b < ADDRESS_LIMIT
    ensures FromBytes(ToBytes(a, PTR_SIZE)[offset..] + ToBytes(b, PTR_SIZE)[PTR_SIZE - offset..]) ==
              HighBytes(a, b, offset)
  {
    var rest := PTR_SIZE - offset;
    PointerBytes();
    Pow256Sum(offset, rest);
    ToBytesDrop(a, PTR_SIZE, offset);
    ToBytesDrop(b, PTR_SIZE, rest);
    QuotientBelow(a, offset, rest);
    QuotientBelow(b, rest, offset);
    BytesRoundTrip(a / Pow256(offset), rest);
    BytesRoundTrip(b / Pow256(rest), offset);
    FromBytesAppend(ToBytes(a, PTR_SIZE)[offset..], ToBytes(b, PTR_SIZE)[rest..]);
  }

  lemma QuotientBelow(v: nat, a: nat, b: nat)
    requires v < Pow256(a + b)
    ensures 0 <= v / Pow256(a) < Pow256(b)
  {
    Pow256Sum(a, b);
    assert Pow256(a) * Pow256(b) == Pow256(b) * Pow256(a);
    DivBelow(v, Pow256(b), Pow256(a));
    DivBelow(v, 0, Pow256(a));
  }

  lemma BytesOfLow(a: nat, b: nat, offset: nat)
    requires offset <= PTR_SIZE
    ensures FromBytes(ToBytes(a, PTR_SIZE)[..offset] + ToBytes(b, PTR_SIZE)[..PTR_SIZE - offset]) ==
              LowBytes(a, b, offset)
  {
    ToBytesTake(a, PTR_SIZE, offset);
    ToBytesTake(b, PTR_SIZE, PTR_SIZE - offset);
    BytesModulo(a, offset);
    BytesModulo(b, PTR_SIZE - offset);
    FromBytesAppend(ToBytes(a, PTR_SIZE)[..offset], ToBytes(b, PTR_SIZE)[..PTR_SIZE - offset]);
  }

  /** b is stored at p + offset, then a at p: what the cell at p + offset holds. */
  lemma OverwrittenFront(m: Memory, v: Memory, w: Memory, p: nat, offset: nat, a: nat, b: nat)
    requires offset <= PTR_SIZE && a < ADDRESS_LIMIT && b < ADDRESS_LIMIT
    requires Stored(m, v, p + offset, ToBytes(b, PTR_SIZE)) && Stored(v, w, p, ToBytes(a, PTR_SIZE))
    ensures w.Has(p + offset, PTR_SIZE) && w.Load(p + offset) == HighBytes(a, b, offset)
  {
    var s := ToBytes(a, PTR_SIZE)[offset..] + ToBytes(b, PTR_SIZE)[PTR_SIZE - offset..];
    forall i | 0 <= i < PTR_SIZE
      ensures w.Byte(p + offset + i) == s[i]
    {
      if i < PTR_SIZE - offset {
        assert w.Byte(p + (offset + i)) == ToBytes(a, PTR_SIZE)[offset + i];
      } else {
        assert v.Byte(p + offset + i) == ToBytes(b, PTR_SIZE)[i];
      }
    }
    SliceHas(w, p + offset, s);
    BytesOfHigh(a, b, offset);
  }

  /** The cell at p holds a, and b is stored at p + offset: what the cell at p holds then. */
  lemma OverwrittenBack(m: Memory, w: Memory, p: nat, offset: nat, a: nat, b: nat)
    requires offset <= PTR_SIZE && m.Has(p, PTR_SIZE) && m.Load(p) == a
             && Stored(m, w, p + offset, ToBytes(b, PTR_SIZE))
    ensures w.Load(p) == LowBytes(a, b, offset)
  {
    CellBytes(m, p);
    var s := ToBytes(a, PTR_SIZE)[..offset] + ToBytes(b, PTR_SIZE)[..PTR_SIZE - offset];
    forall i | 0 <= i < PTR_SIZE
      ensures w.Byte(p + i) == s[i]
    {
      if i < offset {
        assert w.Byte(p + i) == m.Byte(p + i);
      } else {
        assert w.Byte(p + offset + (i - offset)) == ToBytes(b, PTR_SIZE)[i - offset];
      }
    }
    SliceHas(w, p, s);
    BytesOfLow(a, b, offset);
  }

  /** The bytes of a cell are those of the pointer it holds. */
  lemma CellBytes(m: Memory, p: nat)
    requires m.Has(p, PTR_SIZE)
    ensures forall i | 0 <= i < PTR_SIZE :: m.Byte(p + i) == ToBytes(m.Load(p), PTR_SIZE)[i]
  {
    BytesBack(m.Slice(p, PTR_SIZE));
  }

  lemma {:induction false} BytesBack(s: seq<byte>)
    ensures ToBytes(FromBytes(s), |s|) == s
  {
    if s != [] {
      BytesBack(s[1..]);
      SplitByte(s[0], FromBytes(s[1..]));
      assert s == [s[0]] + s[1..];
    }
  }

  lemma SplitByte(b: byte, rest: nat)
    ensures (b + 256 * rest) % 256 == b && (b + 256 * rest) / 256 == rest
  {}

  /** The second word is intact if and only if the overwritten part happens to be the same. */
  lemma HighBytesIntact(a: nat, b: nat, offset: nat)
    requires offset <= PTR_SIZE
    ensures HighBytes(a, b, offset) == b <==> b % Pow256(PTR_SIZE - offset) == a / Pow256(offset)
  {
    var n := Pow256(PTR_SIZE - offset);
    assert b == n * (b / n) + b % n;
  }

  lemma LowBytesIntact(a: nat, b: nat, offset: nat)
    requires offset <= PTR_SIZE
    ensures LowBytes(a, b, offset) == a <==> a / Pow256(offset) == b % Pow256(PTR_SIZE - offset)
  {
    var n := Pow256(offset);
    assert a == n * (a / n) + a % n;
    SameFactor(n, a / n, b % Pow256(PTR_SIZE - offset));
  }

  lemma SameFactor(n: nat, a: int, b: int)
    requires 0 < n
    ensures n * a == n * b <==> a == b
  {
    if a < b {
      SmallerProduct(n, a, b);
    } else if b < a {
      SmallerProduct(n, b, a);
    }
  }

  lemma SmallerProduct(n: nat, a: int, b: int)
    requires 0 < n && a < b
    ensures n * a < n * b
  {
    assert n * b == n * a + n * (b - a);
  }
}
