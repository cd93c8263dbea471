/**
 Double hashing and the Bloom filter in front of the frequency sketch
 (internal/tinylfu/hashfuncs.go, internal/tinylfu/doorkeeper.go).
 */
module Doorkeeper {
  import opened Keys

  // ---------------------------------------------------------------------------------------
  // Double hashing
  // ---------------------------------------------------------------------------------------

  const WORD64 := 0x1_0000_0000_0000_0000

  /** A hasher: any function of the bytes; its value is cut to 64 bits by `Sum64`. */
  type Hasher = seq<Byte> -> nat

  function Sum64(h: Hasher, data: seq<Byte>): nat { h(data) % WORD64 }

  /** The second hash, made odd. */
  function OddHash(h: Hasher, data: seq<Byte>): nat {
    var h2 := Sum64(h, data + [1]);
    if h2 % 2 == 0 then h2 + 1 else h2
  }

  /** Index `i` of `data` among `m` buckets. */
  function IndexOf(h: Hasher, data: seq<Byte>, m: nat, i: nat): (v: nat)
    requires m > 0
    ensures v < m
  {
    StepIndex(Sum64(h, data), OddHash(h, data), m, i)
  }

  /** `i` steps of `h2` from `h1`, in 64 bits. */
  function StepIndex(h1: nat, h2: nat, m: nat, i: nat): (v: nat)
    requires m > 0
    ensures v < m
  {
    Reduce(h1 + i * h2, m)
  }

  function Reduce(x: nat, m: nat): (v: nat)
    requires m > 0
    ensures v < m
  {
    x % 0x1_0000_0000_0000_0000 % m
  }

  /**
   `DoubleHashIndices`: steps of the second hash, made odd, from the first.  For a power of two of buckets and no more
   indices than buckets, no index comes twice.
   */
  method DoubleHashIndices(h: Hasher, data: seq<Byte>, k: nat, m: nat) returns (indices: seq<nat>)
    requires m > 0
    ensures |indices| == k
    ensures var h1, h2 := h(data) % 0x1_0000_0000_0000_0000, h(data + [1]) % 0x1_0000_0000_0000_0000;
            forall i :: 0 <= i < k ==> IsStep(h1, if h2 % 2 == 0 then h2 + 1 else h2, m, i, indices[i])
    ensures IsPowerOfTwo(m) && k <= m ==> forall i, j :: 0 <= i < j < k ==> indices[i] != indices[j]
    ensures forall i :: 0 <= i < k ==> indices[i] == IndexOf(h, data, m, i)
  {
    var h1 := Sum64(h, data);
    var h2 := Sum64(h, data + [1]);
    if h2 % 2 == 0 {
      h2 := h2 + 1;
    }
    indices := [];
    for i := 0 to k
      invariant |indices| == i && forall j :: 0 <= j < i ==> indices[j] == StepIndex(h1, h2, m, j)
    {
      indices := indices + [StepIndex(h1, h2, m, i)];
    }
    forall i | 0 <= i < k ensures IsStep(h1, h2, m, i, indices[i]) {}
    if IsPowerOfTwo(m) && k <= m {
      forall i, j | 0 <= i < j < k ensures indices[i] != indices[j] { StepsDistinct(h1, h2, m, i, j); }
    }
  }

  /** `v` is what `i` steps of `h2` from `h1` leave modulo 2^64, then modulo `m`. */
  ghost predicate IsStep(h1: nat, h2: nat, m: nat, i: nat, v: nat)
    requires m > 0
  {
    v == (h1 + i * h2) % 0x1_0000_0000_0000_0000 % m
  }

  // ---------------------------------------------------------------------------------------
  // Why the second hash is made odd
  // ---------------------------------------------------------------------------------------

  ghost function Pow2(n: nat): (r: nat)
    ensures r > 0
  {
    if n == 0 then 1 else 2 * Pow2(n - 1)
  }

  /** A power of two that divides 2^64. */
  ghost predicate IsPowerOfTwo(m: nat) { exists a: nat :: a <= 64 && m == Pow2(a) }

  lemma {:induction false} Pow2Adds(a: nat, b: nat)
    ensures Pow2(a + b) == Pow2(a) * Pow2(b)
  {
    if a > 0 {
      Pow2Adds(a - 1, b);
      assert Pow2(a + b) == 2 * (Pow2(a - 1) * Pow2(b)) == Pow2(a) * Pow2(b);
    }
  }

  lemma Pow2Doubled(n: nat, v: nat)
    requires Pow2(n) == v
    ensures Pow2(2 * n) == v * v
  {
    Pow2Adds(n, n);
  }

  lemma Pow64()
    ensures Pow2(64) == 0x1_0000_0000_0000_0000
  {
    assert Pow2(2) == 4;
    Pow2Doubled(2, 4);
    Pow2Doubled(4, 16);
    Pow2Doubled(8, 256);
    Pow2Doubled(16, 65536);
    Pow2Doubled(32, 0x1_0000_0000);
  }

  lemma ModOfSum(m: nat, q: int, r: nat)
    requires m > 0
    ensures (m * q + r) % m == r % m
  {
    var t := r / m;
    assert r == m * t + r % m;
    assert m * q + r == m * (q + t) + r % m by { assert m * (q + t) == m * q + m * t; }
    UniqueMod(m, m * q + r, q + t, r % m);
  }

  lemma UniqueMod(m: nat, x: int, q: int, r: nat)
    requires m > 0 && x == m * q + r && r < m
    ensures x % m == r
  {
    var d := q - x / m;
    assert m * (x / m) + x % m == m * q + r;
    assert m * d == x % m - r by { assert m * d == m * q - m * (x / m); }
    Multiples(m, d);
  }

  lemma Multiples(m: int, d: int)
    requires m > 0
    ensures d > 0 ==> m * d >= m
    ensures d < 0 ==> m * d <= -m
  {
  }

  /** Reducing modulo a multiple first changes nothing. */
  lemma ModTwice(x: nat, w: nat, m: nat, r: nat)
    requires m > 0 && r > 0 && w == m * r && w > 0
    ensures x % w % m == x % m
  {
    var q := x / w;
    assert x == w * q + x % w;
    assert x == m * (r * q) + x % w by { assert w * q == m * (r * q); }
    ModOfSum(m, r * q, x % w);
  }

  /** A number whose product with an odd one is even is even. */
  lemma HalfOfProduct(d: nat, odd: nat, f: int)
    requires odd % 2 == 1 && d * odd == 2 * f
    ensures d == 2 * (d / 2) && (d / 2) * odd == f
  {
    var g := odd / 2;
    assert d * odd == d * (2 * g + 1) == 2 * (d * g) + d;
    assert d % 2 == 0;
    assert d * odd == 2 * ((d / 2) * odd) by { assert d == 2 * (d / 2); }
  }

  /** A power of two that divides a multiple of `d` by an odd number divides `d`. */
  lemma {:induction false} OddIsNoHelp(a: nat, d: nat, odd: nat, c: int) returns (e: int)
    requires odd % 2 == 1 && d * odd == Pow2(a) * c
    ensures d == Pow2(a) * e
  {
    if a == 0 {
      e := d;
    } else {
      Regroup(Pow2(a - 1), c);
      HalfOfProduct(d, odd, Pow2(a - 1) * c);
      e := OddIsNoHelp(a - 1, d / 2, odd, c);
      Regroup(Pow2(a - 1), e);
    }
  }

  lemma Regroup(p: int, c: int)
    ensures 2 * p * c == 2 * (p * c)
  {
  }

  lemma SameModMeansMultiple(x: int, y: int, m: nat) returns (c: int)
    requires m > 0 && x % m == y % m
    ensures y - x == m * c
  {
    c := y / m - x / m;
    assert x == m * (x / m) + x % m && y == m * (y / m) + y % m;
    assert m * c == m * (y / m) - m * (x / m);
  }

  lemma WordParts(a: nat)
    requires a <= 64
    ensures Pow2(a) * Pow2(64 - a) == 0x1_0000_0000_0000_0000
  {
    Pow64();
    Pow2Adds(a, 64 - a);
  }

  lemma ReduceIsMod(x: nat, m: nat, r: nat)
    requires m > 0 && r > 0 && m * r == 0x1_0000_0000_0000_0000
    ensures Reduce(x, m) == x % m
  {
    ModTwice(x, 0x1_0000_0000_0000_0000, m, r);
  }

  lemma ReduceApart(x: nat, y: nat, d: nat, odd: nat, m: nat, a: nat)
    requires y - x == d * odd && odd % 2 == 1 && a <= 64 && m == Pow2(a) && 0 < d < m
    ensures Reduce(x, m) != Reduce(y, m)
  {
    WordParts(a);
    ReduceIsMod(x, m, Pow2(64 - a));
    ReduceIsMod(y, m, Pow2(64 - a));
    OddStepsApart(x, y, d, odd, a);
  }

  /** Odd steps from anywhere meet every bucket at most once in `m` steps. */
  lemma StepsDistinct(h1: nat, h2: nat, m: nat, i: nat, j: nat)
    requires IsPowerOfTwo(m) && h2 % 2 == 1 && i < j < m
    ensures StepIndex(h1, h2, m, i) != StepIndex(h1, h2, m, j)
  {
    var a: nat :| a <= 64 && m == Pow2(a);
    Distance(h1, h2, i, j);
    ReduceApart(h1 + i * h2, h1 + j * h2, j - i, h2, m, a);
  }

  lemma Distance(h1: nat, h2: nat, i: nat, j: nat)
    requires i < j
    ensures (h1 + j * h2) - (h1 + i * h2) == (j - i) * h2
  {
  }

  lemma OddStepsApart(x: nat, y: nat, d: nat, odd: nat, a: nat)
    requires y - x == d * odd && odd % 2 == 1 && 0 < d < Pow2(a)
    ensures x % Pow2(a) != y % Pow2(a)
  {
    if x % Pow2(a) == y % Pow2(a) {
      var c := SameModMeansMultiple(x, y, Pow2(a));
      var e := OddIsNoHelp(a, d, odd, c);
      SmallMultiple(Pow2(a), d, e);
    }
  }

  lemma SmallMultiple(m: nat, d: nat, e: int)
    requires 0 < d < m
    ensures d != m * e
  {
    Multiples(m, e);
  }

  // ---------------------------------------------------------------------------------------
  // Bits in bytes
  // ---------------------------------------------------------------------------------------

  /** `1 << n`. */
  function Mask(n: nat): bv8
    requires n < 8
  {
    if n == 0 then 0x01 else if n == 1 then 0x02 else if n == 2 then 0x04 else if n == 3 then 0x08
    else if n == 4 then 0x10 else if n == 5 then 0x20 else if n == 6 then 0x40 else 0x80
  }

  /** The mask of bit `p` within its byte: bits are numbered from the most significant one. */
  function MaskOf(p: nat): bv8 { Mask(8 * (p / 8 + 1) - (p + 1)) }

  predicate InByte(b: bv8, p: nat) { b & MaskOf(p) != 0 }

  lemma OrSets(a: bv8, b: bv8, p: nat)
    ensures InByte(a | b, p) <==> InByte(a, p) || InByte(b, p)
  {
  }

  lemma MasksDiffer(p: nat, q: nat)
    requires p / 8 == q / 8
    ensures InByte(MaskOf(p), q) <==> p == q
  {
  }

  /** Bit `p` of a byte string. */
  predicate BitSet(bytes: seq<bv8>, p: nat)
    requires p / 8 < |bytes|
  {
    InByte(bytes[p / 8], p)
  }

  predicate HasBits(bytes: seq<bv8>, m: nat) { m == 8 * |bytes| }

  /** The bits of `bytes` are `before` and those of `pos`. */
  ghost predicate BitsAdded(bytes: seq<bv8>, before: seq<bv8>, m: nat, pos: seq<nat>)
    requires HasBits(bytes, m) && HasBits(before, m)
  {
    forall q :: 0 <= q < m ==> (BitSet(bytes, q) <==> BitSet(before, q) || q in pos)
  }

  /** One more bit in the mask array. */
  lemma MaskStep(before: seq<bv8>, bytes: seq<bv8>, m: nat, p: nat, pos: seq<nat>, none: seq<bv8>)
    requires HasBits(before, m) && HasBits(none, m) && p < m && BitsAdded(before, none, m, pos)
    requires bytes == before[p / 8 := before[p / 8] | MaskOf(p)]
    ensures BitsAdded(bytes, none, m, pos + [p])
  {
    forall q | 0 <= q < m ensures BitSet(bytes, q) <==> BitSet(none, q) || q in pos + [p] {
      if q / 8 == p / 8 {
        OrSets(before[p / 8], MaskOf(p), q);
        MasksDiffer(p, q);
      }
    }
  }

  /** Or-ing the mask array into the filter. */
  lemma OrStep(bytes: seq<bv8>, before: seq<bv8>, mask: seq<bv8>, m: nat, pos: seq<nat>, none: seq<bv8>)
    requires HasBits(bytes, m) && HasBits(before, m) && HasBits(mask, m) && HasBits(none, m)
    requires forall i :: 0 <= i < |none| ==> none[i] == 0
    requires BitsAdded(mask, none, m, pos)
    requires forall i :: 0 <= i < |bytes| ==> bytes[i] == before[i] | mask[i]
    ensures BitsAdded(bytes, before, m, pos)
  {
    forall q | 0 <= q < m ensures BitSet(bytes, q) <==> BitSet(before, q) || q in pos {
      OrSets(before[q / 8], mask[q / 8], q);
      assert none[q / 8] == 0;
    }
  }

  // ---------------------------------------------------------------------------------------
  // The Bloom filter
  // ---------------------------------------------------------------------------------------

  /** Every index of `data` is among `bits`. */
  ghost predicate Passes(h: Hasher, m: nat, k: nat, bits: iset<nat>, data: seq<Byte>)
    requires m > 0
  {
    forall i :: 0 <= i < k ==> IndexOf(h, data, m, i) in bits
  }

  class Bloom {
    const m: nat
    const k: nat
    const hasher: Hasher
    const bitArray: array<bv8>

    ghost predicate Valid()
      reads this, bitArray
    {
      k > 0 && m > 0 && m == 8 * bitArray.Length
    }

    /** The bits that are set. */
    ghost function Bits(): iset<nat>
      requires Valid()
      reads this, bitArray
    {
      iset q: nat | q < m && BitSet(bitArray[..], q)
    }

    /** The bits of an item. */
    ghost function IndicesOf(data: seq<Byte>): iset<nat>
      requires Valid()
      reads this, bitArray
    {
      iset i | 0 <= i < k :: IndexOf(hasher, data, m, i)
    }

    constructor (m: nat, k: nat, hasher: Hasher)
      requires m > 0 && k > 0 && m % 8 == 0
      ensures Valid() && fresh(bitArray) && Bits() == iset{} && this.m == m && this.k == k && this.hasher == hasher
    {
      this.m, this.k, this.hasher := m, k, hasher;
      bitArray := new bv8[(m + 7) / 8](_ => 0);
    }

    /** `setBit`: nothing is set when some position is past the array. */
    method SetBit(pos: seq<nat>) returns (ok: bool)
      requires Valid()
      modifies bitArray
      ensures ok <==> forall i :: 0 <= i < |pos| ==> pos[i] < m
      ensures if ok then BitsAdded(bitArray[..], old(bitArray[..]), m, pos) else bitArray[..] == old(bitArray[..])
    {
      var maskArr := new bv8[m / 8](_ => 0);
      ghost var none, before := maskArr[..], bitArray[..];
      for i := 0 to |pos|
        invariant bitArray[..] == before && forall j :: 0 <= j < i ==> pos[j] < m
        invariant BitsAdded(maskArr[..], none, m, pos[..i])
      {
        var l := pos[i] / 8;
        if l >= bitArray.Length {
          return false;
        }
        ghost var was := maskArr[..];
        maskArr[l] := maskArr[l] | MaskOf(pos[i]);
        MaskStep(was, maskArr[..], m, pos[i], pos[..i], none);
        assert pos[..i] + [pos[i]] == pos[..i + 1];
      }
      assert pos[..|pos|] == pos;
      ghost var mask := maskArr[..];
      for i := 0 to m / 8
        invariant maskArr[..] == mask
        invariant forall j :: 0 <= j < i ==> bitArray[j] == before[j] | mask[j]
        invariant forall j :: i <= j < m / 8 ==> bitArray[j] == before[j]
      {
        bitArray[i] := bitArray[i] | maskArr[i];
      }
      OrStep(bitArray[..], before, mask, m, pos, none);
      ok := true;
    }

    /** `isSet`, with an error for a position past the array. */
    method IsSet(pos: nat) returns (isSet: bool, err: bool)
      requires Valid()
      ensures err <==> pos >= m
      ensures isSet <==> pos in Bits()
    {
      var l := pos / 8;
      if l >= bitArray.Length {
        return false, true;
      }
      err := false;
      isSet := bitArray[l] & MaskOf(pos) != 0;
    }

    /** `Add`: afterwards `data` passes, and whatever passed before still does. */
    method Add(data: seq<Byte>)
      requires Valid()
      modifies bitArray
      ensures Passes(hasher, m, k, Bits(), data)
      ensures Bits() == old(Bits()) + IndicesOf(data)
    {
      var indices := DoubleHashIndices(hasher, data, k, m);
      var ok := SetBit(indices);
      assert forall i :: 0 <= i < k ==> IndexOf(hasher, data, m, i) == indices[i];
    }

    /** `Check`. */
    method Check(data: seq<Byte>) returns (exists_: bool)
      requires Valid()
      ensures exists_ <==> Passes(hasher, m, k, Bits(), data)
      ensures exists_ <==> IndicesOf(data) <= Bits()
    {
      var indices := DoubleHashIndices(hasher, data, k, m);
      exists_ := true;
      for i := 0 to |indices|
        invariant exists_ <==> forall j :: 0 <= j < i ==> IndexOf(hasher, data, m, j) in Bits()
      {
        var isSet, err := IsSet(indices[i]);
        if !isSet {
          exists_ := false;
        }
      }
    }

    /** `Clear`. */
    method Clear()
      requires Valid()
      modifies bitArray
      ensures Bits() == iset{}
    {
      for i := 0 to bitArray.Length
        invariant forall j :: 0 <= j < i ==> bitArray[j] == 0
      {
        bitArray[i] := bitArray[i] & 0;
      }
    }
  }

  /** `NewDoorkeeper`: no filter for a size or a number of hash functions it refuses. */
  method NewDoorkeeper(m: nat, k: nat, hasher: Hasher) returns (b: Bloom?)
    ensures b == null <==> k == 0 || m == 0 || m % 8 != 0
    ensures b != null ==> fresh(b) && b.Valid() && fresh(b.bitArray) && b.Bits() == iset{} && b.m == m && b.k == k && b.hasher == hasher
  {
    if k == 0 || m == 0 || m % 8 != 0 {
      return null;
    }
    b := new Bloom(m, k, hasher);
  }
}
