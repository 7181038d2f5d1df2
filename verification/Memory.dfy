/** Byte-addressed memory: the arena through which every chase is threaded.
    A pointer is an absolute address; a pointer cell is eight little-endian bytes. */
module Memory {
  import opened Numbers

  type byte = x: int | 0 <= x < 256

  const PTR_SIZE: nat := 8
  const ADDRESS_LIMIT: nat := 0x1_0000_0000_0000_0000

  function Pow256(n: nat): (r: nat)
    ensures 0 < r
  {
    if n == 0 then 1 else 256 * Pow256(n - 1)
  }

  function FromBytes(s: seq<byte>): (v: nat)
    ensures v < Pow256(|s|)
  {
    if s == [] then 0 else s[0] + 256 * FromBytes(s[1..])
  }

  /** The n low-order bytes of v, least significant first. */
  function ToBytes(v: nat, n: nat): (s: seq<byte>)
    ensures |s| == n
  {
    if n == 0 then [] else [v % 256] + ToBytes(v / 256, n - 1)
  }

  lemma {:induction false} BytesRoundTrip(v: nat, n: nat)
    requires v < Pow256(n)
    ensures FromBytes(ToBytes(v, n)) == v
  {
    if n != 0 {
      BytesRoundTrip(v / 256, n - 1);
      assert ToBytes(v, n)[1..] == ToBytes(v / 256, n - 1);
    }
  }

  lemma {:induction false} ToBytesAt(v: nat, n: nat, i: nat)
    requires i < n
    ensures ToBytes(v, n)[i] == (v / Pow256(i)) % 256
  {
    if i != 0 {
      ToBytesAt(v / 256, n - 1, i - 1);
      DivDiv(v, 256, Pow256(i - 1));
    }
  }

  lemma PointerBytes()
    ensures Pow256(PTR_SIZE) == ADDRESS_LIMIT
  {
    assert Pow256(2) == 0x1_0000;
    assert Pow256(4) == 0x1_0000_0000;
    assert Pow256(6) == 0x1_0000_0000_0000;
  }

  /** A snapshot of the memory: |bytes| bytes at addresses base, base+1, ... */
  datatype Memory = Memory(base: nat, bytes: seq<byte>) {

    /** The memory is not at address zero and ends below 2^64. */
    ghost predicate Valid() {
      0 < base && base + |bytes| < ADDRESS_LIMIT
    }

    predicate Has(p: nat, n: nat) {
      base <= p && p + n <= base + |bytes|
    }

    function Byte(p: nat): byte
      requires Has(p, 1)
    {
      bytes[p - base]
    }

    /** The pointer stored in the cell at p. */
    function Load(p: nat): nat
      requires Has(p, PTR_SIZE)
    {
      FromBytes(Slice(p, PTR_SIZE))
    }

    /** The n bytes at p. */
    function Slice(p: nat, n: nat): (s: seq<byte>)
      requires Has(p, n)
      ensures |s| == n
    {
      bytes[p - base..p - base + n]
    }

    /** The memory after a store of these bytes at p. */
    function Written(p: nat, s: seq<byte>): (m: Memory)
      requires Has(p, |s|)
      ensures m.base == base && |m.bytes| == |bytes|
    {
      Memory(base, bytes[..p - base] + s + bytes[p - base + |s|..])
    }

    /** `other` is the same memory except for the n bytes at p. */
    ghost predicate SameOutside(other: Memory, p: nat, n: nat) {
      base == other.base && |bytes| == |other.bytes| &&
      forall a: nat {:trigger Byte(a)} {:trigger other.Byte(a)} | Has(a, 1) && (a < p || p + n <= a) ::
        Byte(a) == other.Byte(a)
    }
  }

  /** w is m after a store of these bytes at p. */
  ghost predicate Stored(m: Memory, w: Memory, p: nat, s: seq<byte>) {
    m.Has(p, |s|) && w.SameOutside(m, p, |s|) && forall i | 0 <= i < |s| :: w.Byte(p + i) == s[i]
  }

  lemma IsWritten(m: Memory, w: Memory, p: nat, s: seq<byte>)
    requires Stored(m, w, p, s)
    ensures w == m.Written(p, s)
  {
    var v := m.Written(p, s);
    forall k | 0 <= k < |w.bytes|
      ensures w.bytes[k] == v.bytes[k]
    {
      var a := w.base + k;
      if p <= a < p + |s| {
        assert w.Byte(p + (a - p)) == s[a - p];
      } else {
        assert w.Byte(a) == m.Byte(a);
      }
    }
    assert w.bytes == v.bytes;
  }

  lemma WrittenAt(m: Memory, p: nat, s: seq<byte>)
    requires m.Has(p, |s|)
    ensures forall a: nat | m.Has(a, 1) :: m.Written(p, s).Byte(a) == if p <= a < p + |s| then s[a - p] else m.Byte(a)
  {}

  /** Storing the bytes of s one after the other. */
  lemma WrittenMore(m: Memory, p: nat, s: seq<byte>, i: nat)
    requires m.Has(p, |s|) && i < |s|
    ensures Stored(m.Written(p, s[..i]), m.Written(p, s[..i + 1]), p + i, [s[i]])
  {
    WrittenAt(m, p, s[..i]);
    WrittenAt(m, p, s[..i + 1]);
  }

  /** Two stores, one behind the other. */
  lemma StoredTwice(m: Memory, v: Memory, w: Memory, p: nat, s: seq<byte>, t: seq<byte>)
    requires Stored(m, v, p, s) && Stored(v, w, p + |s|, t)
    ensures Stored(m, w, p, s + t)
  {
    forall i | 0 <= i < |s + t|
      ensures w.Byte(p + i) == (s + t)[i]
    {
      if i < |s| {
        assert v.Byte(p + i) == s[i];
      } else {
        assert w.Byte(p + |s| + (i - |s|)) == t[i - |s|];
      }
    }
  }

  /** A cell whose eight bytes agree in two memories holds the same pointer. */
  lemma LoadFrame(m: Memory, w: Memory, q: nat)
    requires m.base == w.base && |m.bytes| == |w.bytes| && m.Has(q, PTR_SIZE)
    requires forall a | q <= a < q + PTR_SIZE :: m.Byte(a) == w.Byte(a)
    ensures m.Load(q) == w.Load(q)
  {
    var o := q - m.base;
    var s, t := m.bytes[o..o + PTR_SIZE], w.bytes[o..o + PTR_SIZE];
    forall i | 0 <= i < |s|
      ensures s[i] == t[i]
    {
      assert m.Byte(q + i) == w.Byte(q + i);
    }
    assert s == t;
  }

  /** A cell holding the bytes of v holds v. */
  lemma LoadIs(m: Memory, q: nat, v: nat)
    requires m.Has(q, PTR_SIZE) && v < ADDRESS_LIMIT
    requires forall i | 0 <= i < PTR_SIZE :: m.Byte(q + i) == ToBytes(v, PTR_SIZE)[i]
    ensures m.Load(q) == v
  {
    var o := q - m.base;
    var s, t := m.bytes[o..o + PTR_SIZE], ToBytes(v, PTR_SIZE);
    forall i | 0 <= i < |s|
      ensures s[i] == t[i]
    {
      assert m.Byte(q + i) == t[i];
    }
    assert s == t;
    PointerBytes();
    BytesRoundTrip(v, PTR_SIZE);
  }

  /** The arena itself: mutable bytes at a fixed address. */
  class Arena {
    const base: nat
    const bytes: array<byte>

    ghost predicate Valid()
      reads this
    {
      0 < base && base + bytes.Length < ADDRESS_LIMIT
    }

    ghost function View(): (m: Memory)
      reads this, bytes
      ensures m.base == base && |m.bytes| == bytes.Length
    {
      Memory(base, bytes[..])
    }

    /** A fresh arena of n zero bytes, as an anonymous mapping delivers it. */
    constructor (base: nat, n: nat)
      requires 0 < base && base + n < ADDRESS_LIMIT
      ensures Valid() && this.base == base && bytes.Length == n && fresh(bytes)
      ensures forall i | 0 <= i < n :: bytes[i] == 0
    {
      this.base := base;
      bytes := new byte[n](_ => 0);
    }

    /** Dereference of a pointer to a pointer. */
    method Load(p: nat) returns (v: nat)
      requires View().Has(p, PTR_SIZE)
      ensures v == View().Load(p)
    {
      var s := bytes[p - base..p - base + PTR_SIZE];
      assert s == bytes[..][p - base..p - base + PTR_SIZE];
      v := FromBytes(s);
    }

    method StoreByte(p: nat, b: byte)
      requires View().Has(p, 1)
      modifies bytes
      ensures View().Byte(p) == b
      ensures View().SameOutside(old(View()), p, 1)
      ensures Stored(old(View()), View(), p, [b])
    {
      bytes[p - base] := b;
    }

    /** Store of a pointer: eight bytes, least significant first. */
    method Store(p: nat, v: nat)
      requires Valid() && View().Has(p, PTR_SIZE) && v < ADDRESS_LIMIT
      modifies bytes
      ensures View().Load(p) == v
      ensures View().SameOutside(old(View()), p, PTR_SIZE)
      ensures Stored(old(View()), View(), p, ToBytes(v, PTR_SIZE))
    {
      var s := ToBytes(v, PTR_SIZE);
      StoreBytes(p, s);
      LoadIs(View(), p, v);
    }

    method StoreBytes(p: nat, s: seq<byte>)
      requires View().Has(p, |s|)
      modifies bytes
      ensures Stored(old(View()), View(), p, s)
    {
      var i := 0;
      while i < |s|
        invariant 0 <= i <= |s|
        invariant forall k | 0 <= k < i :: View().Byte(p + k) == s[k]
        invariant View().SameOutside(old(View()), p, |s|)
      {
        bytes[p - base + i] := s[i];
        i := i + 1;
      }
    }
  }
}
