/**
 Byte-string keys, the order `bytes.Compare` gives them, and the binary search that every
 node operation starts with (pkg/helpers/helpers.go).
 */
module Keys {

  type Byte = x: int | 0 <= x < 256
  type Key = seq<Byte>

  /** The lexicographic order on byte strings. */
  predicate LexLess(a: Key, b: Key)
    decreases |a|
  {
    b != [] && (a == [] || a[0] < b[0] || (a[0] == b[0] && LexLess(a[1..], b[1..])))
  }

  /** `bytes.Compare`. */
  function Compare(a: Key, b: Key): (c: int)
    ensures c == -1 <==> Less(a, b)
    ensures c == 0 <==> a == b
    ensures c == 1 <==> Less(b, a)
    decreases |a|
  {
    LessIsLexicographic(a, b);
    LessIsLexicographic(b, a);
    if a == [] then (if b == [] then 0 else -1)
    else if b == [] then 1
    else if a[0] < b[0] then -1
    else if a[0] > b[0] then 1
    else
      LessIsLexicographic(a[1..], b[1..]);
      LessIsLexicographic(b[1..], a[1..]);
      assert a == [a[0]] + a[1..] && b == [b[0]] + b[1..];
      Compare(a[1..], b[1..])
  }

  /** Of two keys that differ, the first byte where they do decides; a key comes before its extensions. */
  lemma {:induction false} CompareAtDifference(p: Key, x: Byte, y: Byte, u: Key, v: Key)
    requires x < y
    ensures Compare(p + [x] + u, p + [y] + v) == -1 && Compare(p + [y] + v, p + [x] + u) == 1
    ensures Compare(p, p + [x] + u) == -1 && Compare(p + [x] + u, p) == 1
  {
    var a, b := p + [x] + u, p + [y] + v;
    if p != [] {
      CompareAtDifference(p[1..], x, y, u, v);
      assert a[1..] == p[1..] + [x] + u && b[1..] == p[1..] + [y] + v;
    }
  }

  // ---------------------------------------------------------------------------------------
  // Embedding the order in the reals.  Proofs about trees compare keys through `Less`, so
  // that transitivity and totality are those of the real numbers.
  // ---------------------------------------------------------------------------------------

  ghost function Position(k: Key): (r: real)
    ensures 0.0 <= r < 1.0
  {
    if k == [] then 0.0 else (k[0] as real + 1.0 + Position(k[1..])) / 257.0
  }

  lemma {:induction false} PositionOrders(a: Key, b: Key)
    ensures LexLess(a, b) <==> Position(a) < Position(b)
    ensures Position(a) == Position(b) <==> a == b
    decreases |a|
  {
    if a != [] && b != [] {
      PositionOrders(a[1..], b[1..]);
      assert a == [a[0]] + a[1..] && b == [b[0]] + b[1..];
    }
  }

  ghost predicate IsRank(f: Key -> real) {
    forall a: Key, b: Key {:trigger LexLess(a, b)} ::
      (LexLess(a, b) <==> f(a) < f(b)) && (f(a) == f(b) <==> a == b)
  }

  lemma RankExists()
    ensures exists f :: IsRank(f)
  {
    var g := (k: Key) => Position(k);
    forall a: Key, b: Key
      ensures (LexLess(a, b) <==> g(a) < g(b)) && (g(a) == g(b) <==> a == b)
    {
      PositionOrders(a, b);
    }
    assert IsRank(g);
  }

  /** Some order embedding of keys into the reals; nothing else is known about it. */
  ghost function Rank(): (f: Key -> real)
    ensures IsRank(f)
  {
    RankExists();
    var f :| IsRank(f);
    f
  }

  ghost predicate Less(a: Key, b: Key) {
    Rank()(a) < Rank()(b)
  }

  lemma LessIsLexicographic(a: Key, b: Key)
    ensures Less(a, b) <==> LexLess(a, b)
    ensures !Less(a, b) && !Less(b, a) <==> a == b
  {
    assert LexLess(a, b) || !LexLess(a, b);
  }

  // ---------------------------------------------------------------------------------------
  // Sorted key lists
  // ---------------------------------------------------------------------------------------

  ghost predicate Sorted(keys: seq<Key>) {
    forall i, j :: 0 <= i < j < |keys| ==> Less(keys[i], keys[j])
  }

  /** `idx` splits a sorted list: everything before it is below `k`, nothing from it on is. */
  ghost predicate IsLowerBound(keys: seq<Key>, k: Key, idx: int) {
    && 0 <= idx <= |keys|
    && (forall i :: 0 <= i < idx ==> Less(keys[i], k))
    && (forall i :: idx <= i < |keys| ==> !Less(keys[i], k))
  }

  /** What a search of a non-empty list answers: the lower bound, clamped to the last index. */
  ghost predicate IsSlot(keys: seq<Key>, k: Key, idx: int) {
    && 0 <= idx < |keys|
    && (forall i :: 0 <= i < idx ==> Less(keys[i], k))
    && (IsLowerBound(keys, k, idx) || (idx == |keys| - 1 && IsLowerBound(keys, k, |keys|)))
  }

  /**
   `InsertBinarySearch`: terminates on every non-empty list, never answers -1, and on a
   sorted list answers the lower bound clamped to the last index.
   */
  function InsertBinarySearch(keys: seq<Key>, k: Key, start: int): (idx: int)
    requires keys != []
    ensures start <= idx < start + |keys|
    ensures Sorted(keys) ==> IsSlot(keys, k, idx - start)
    decreases |keys|
  {
    var m := |keys| / 2;
    if Compare(keys[m], k) == 0 then
      SlotFound(keys, k, m);
      m + start
    else if |keys| == 1 then
      m + start
    else if Compare(k, keys[m]) == -1 && Compare(k, keys[m - 1]) == 1 then
      SlotBetween(keys, k, m);
      m + start
    else if Compare(keys[m], k) == 1 then
      var idx := InsertBinarySearch(keys[0..m], k, start);
      SlotLeft(keys, k, m, idx - start);
      idx
    else
      var idx := InsertBinarySearch(keys[m..], k, m + start);
      SlotRight(keys, k, m, idx - m - start);
      idx
  }

  lemma SlotFound(keys: seq<Key>, k: Key, m: nat)
    requires m < |keys| && keys[m] == k
    ensures Sorted(keys) ==> IsSlot(keys, k, m)
  {
  }

  lemma SlotBetween(keys: seq<Key>, k: Key, m: nat)
    requires 0 < m < |keys| && Less(k, keys[m]) && Less(keys[m - 1], k)
    ensures Sorted(keys) ==> IsSlot(keys, k, m)
  {
  }

  /** The answer for the front part, when the key is below `keys[m]` but not above `keys[m - 1]`. */
  lemma SlotLeft(keys: seq<Key>, k: Key, m: nat, idx: int)
    requires 0 < m < |keys| && Less(k, keys[m]) && !Less(keys[m - 1], k)
    requires Sorted(keys[0..m]) ==> IsSlot(keys[0..m], k, idx)
    ensures Sorted(keys) ==> IsSlot(keys, k, idx)
  {
    if Sorted(keys) {
      var front := keys[0..m];
      assert front[m - 1] == keys[m - 1];
      assert IsLowerBound(front, k, idx);
      assert forall i :: 0 <= i < m ==> front[i] == keys[i];
      assert forall i :: idx <= i < |keys| ==> !Less(keys[i], k);
    }
  }

  /** The answer for the rear part, when the key is above `keys[m]`. */
  lemma SlotRight(keys: seq<Key>, k: Key, m: nat, idx: int)
    requires m < |keys| && keys[m] != k && !Less(k, keys[m])
    requires Sorted(keys[m..]) ==> IsSlot(keys[m..], k, idx)
    ensures Sorted(keys) ==> IsSlot(keys, k, m + idx)
  {
    LessIsLexicographic(keys[m], k);
    if Sorted(keys) {
      var rear := keys[m..];
      assert forall i :: 0 <= i < |rear| ==> rear[i] == keys[m + i];
      assert forall i :: m <= i < |keys| ==> keys[i] == rear[i - m];
      assert forall i :: 0 <= i < m ==> Less(keys[i], keys[m]);
    }
  }

  /** `list` with `x` at index `idx`, or at the end when there is no such index. */
  function InsertAt<T>(list: seq<T>, idx: nat, x: T): seq<T> {
    if idx >= |list| then list + [x] else list[..idx] + [x] + list[idx..]
  }

  datatype Insertion<T> = Inserted(list: seq<T>) | OutOfBounds

  /**
   `InsertToList`: an element is appended and the tail is copied one place up, from the end on.  What was before
   `idx` stays, what was at or behind it moves up by one, and an index past the end appends.
   */
  method InsertToList<T>(list: seq<T>, idx: int, val: T) returns (r: Insertion<T>)
    ensures r == OutOfBounds <==> idx < 0
    ensures idx >= 0 ==>
              var at := if idx < |list| then idx else |list|;
              && |r.list| == |list| + 1 && r.list[at] == val
              && (forall j :: 0 <= j < at ==> r.list[j] == list[j])
              && (forall j :: at <= j < |list| ==> r.list[j + 1] == list[j])
    ensures idx >= 0 ==> r.list == InsertAt(list, idx, val)
  {
    if idx < 0 {
      return OutOfBounds;
    }
    if idx > |list| - 1 {
      return Inserted(list + [val]);
    }
    var longer := list + [val];
    var j := |list|;
    while j > idx
      invariant idx <= j <= |list| && |longer| == |list| + 1
      invariant forall i :: 0 <= i < j ==> longer[i] == list[i]
      invariant forall i :: j <= i < |list| ==> longer[i + 1] == list[i]
    {
      longer := longer[j := longer[j - 1]];
      j := j - 1;
    }
    longer := longer[idx := val];
    assert longer == list[..idx] + [val] + list[idx..];
    r := Inserted(longer);
  }

  /** A key put where the search says keeps the list sorted. */
  lemma InsertKeepsSorted(keys: seq<Key>, k: Key, idx: nat)
    requires Sorted(keys)
    requires IsLowerBound(keys, k, idx)
    requires idx < |keys| ==> k != keys[idx]
    ensures Sorted(keys[..idx] + [k] + keys[idx..])
  {
    if idx < |keys| { LessIsLexicographic(k, keys[idx]); }
    var r := keys[..idx] + [k] + keys[idx..];
    forall i, j | 0 <= i < j < |r|
      ensures Less(r[i], r[j])
    {
      assert forall t :: 0 <= t < |r| ==>
        r[t] == if t < idx then keys[t] else if t == idx then k else keys[t - 1];
    }
  }
}
