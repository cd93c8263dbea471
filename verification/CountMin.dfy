/**
 The count-min sketch (internal/tinylfu/count-min-sketch.go): counters in rows, one counter of each
 row for an item, halved from time to time.
 */
module CountMin {
  import opened Keys
  import opened Doorkeeper

  // ---------------------------------------------------------------------------------------
  // What the counters hold, and what exact counting would hold
  // ---------------------------------------------------------------------------------------

  datatype Event = Hit(data: seq<Byte>) | Halve

  /** Exact counting of `data`, with the same halvings. */
  ghost function Exact(history: seq<Event>, data: seq<Byte>): nat {
    if history == [] then 0
    else
      var before := Exact(history[..|history| - 1], data);
      match history[|history| - 1]
      case Hit(d) => if d == data then before + 1 else before
      case Halve => before / 2
  }

  /** The hashing of a sketch: hasher and number of columns. */
  datatype Hashing = Hashing(hasher: Hasher, width: nat)

  function Column(hs: Hashing, data: seq<Byte>, row: nat): (v: nat)
    requires hs.width > 0
    ensures v < hs.width
  {
    IndexOf(hs.hasher, data, hs.width, row)
  }

  /** The counter in row `row` and column `v`. */
  ghost function Cell(hs: Hashing, history: seq<Event>, row: nat, v: nat): nat
    requires hs.width > 0
  {
    if history == [] then 0
    else
      var before := Cell(hs, history[..|history| - 1], row, v);
      match history[|history| - 1]
      case Hit(d) => if Column(hs, d, row) == v then before + 1 else before
      case Halve => before / 2
  }

  /** A counter is never below the exact count of an item that uses it. */
  lemma {:induction false} CellCovers(hs: Hashing, history: seq<Event>, row: nat, data: seq<Byte>)
    requires hs.width > 0
    ensures Cell(hs, history, row, Column(hs, data, row)) >= Exact(history, data)
  {
    if history != [] { CellCovers(hs, history[..|history| - 1], row, data); }
  }

  /** Over any history, with its halvings, a counter that no other item used is the exact count. */
  lemma {:induction false} CellOfOne(hs: Hashing, history: seq<Event>, row: nat, data: seq<Byte>)
    requires hs.width > 0
    requires forall i :: 0 <= i < |history| && history[i].Hit? && history[i].data != data ==> Column(hs, history[i].data, row) != Column(hs, data, row)
    ensures Cell(hs, history, row, Column(hs, data, row)) == Exact(history, data)
  {
    if history != [] { CellOfOne(hs, history[..|history| - 1], row, data); }
  }

  /** The items hit, in order, as long as nothing was halved. */
  ghost function Hits(items: seq<seq<Byte>>): seq<Event> { seq(|items|, i requires 0 <= i < |items| => Hit(items[i])) }

  lemma HitsPrefix(items: seq<seq<Byte>>)
    requires items != []
    ensures Hits(items)[..|items| - 1] == Hits(items[..|items| - 1])
  {
  }

  /** How often an item of `items` uses column `v`. */
  ghost function Uses(hs: Hashing, items: seq<seq<Byte>>, row: nat, v: nat): nat
    requires hs.width > 0
  {
    |set i | 0 <= i < |items| && Column(hs, items[i], row) == v|
  }

  lemma UsesLast(hs: Hashing, items: seq<seq<Byte>>, row: nat, v: nat)
    requires hs.width > 0 && items != []
    ensures var n := |items| - 1;
            Uses(hs, items, row, v) == Uses(hs, items[..n], row, v) + if Column(hs, items[n], row) == v then 1 else 0
  {
    var n := |items| - 1;
    var all := set i | 0 <= i < |items| && Column(hs, items[i], row) == v;
    var few := set i | 0 <= i < n && Column(hs, items[..n][i], row) == v;
    forall i: int ensures i in few <==> i in all && i != n { assert 0 <= i < n ==> items[..n][i] == items[i]; }
    OneMore(all, few, n);
  }

  lemma OneMore(all: set<int>, few: set<int>, n: int)
    requires forall i: int :: i in few <==> i in all && i != n
    ensures |all| == |few| + if n in all then 1 else 0
  {
    var rest := all - {n};
    assert forall i: int :: i in few ==> i in rest;
    assert forall i: int :: i in rest ==> i in few;
    assert few <= rest && rest <= few;
    assert few == rest;
    assert n in all ==> |all - {n}| == |all| - 1;
    assert n !in all ==> all - {n} == all;
  }

  /** Before the first halving, a counter is the number of increments whose items use it. */
  lemma {:induction false} CellSums(hs: Hashing, items: seq<seq<Byte>>, row: nat, v: nat)
    requires hs.width > 0
    ensures Cell(hs, Hits(items), row, v) == Uses(hs, items, row, v)
  {
    if items != [] {
      HitsPrefix(items);
      CellSums(hs, items[..|items| - 1], row, v);
      UsesLast(hs, items, row, v);
    }
  }

  /** ... and exact counting is the number of occurrences. */
  lemma {:induction false} ExactCounts(items: seq<seq<Byte>>, data: seq<Byte>)
    ensures Exact(Hits(items), data) == multiset(items)[data]
  {
    if items != [] {
      var n := |items| - 1;
      HitsPrefix(items);
      ExactCounts(items[..n], data);
      assert items == items[..n] + [items[n]];
    }
  }

  /** No other item was counted in the counter of `data` in this row. */
  ghost predicate Alone(hs: Hashing, items: seq<seq<Byte>>, row: nat, data: seq<Byte>)
    requires hs.width > 0
  {
    forall i :: 0 <= i < |items| && items[i] != data ==> Column(hs, items[i], row) != Column(hs, data, row)
  }

  /** A counter is the exact count exactly when no other item was counted in it. */
  lemma {:induction false} CellExact(hs: Hashing, items: seq<seq<Byte>>, row: nat, data: seq<Byte>)
    requires hs.width > 0
    ensures Cell(hs, Hits(items), row, Column(hs, data, row)) == Exact(Hits(items), data) <==> Alone(hs, items, row, data)
  {
    if items != [] {
      var n := |items| - 1;
      HitsPrefix(items);
      CellExact(hs, items[..n], row, data);
      CellCovers(hs, Hits(items[..n]), row, data);
      AloneLast(hs, items, row, data);
    }
  }

  lemma AloneLast(hs: Hashing, items: seq<seq<Byte>>, row: nat, data: seq<Byte>)
    requires hs.width > 0 && items != []
    ensures var n := |items| - 1;
            Alone(hs, items, row, data) <==>
            Alone(hs, items[..n], row, data) && (items[n] != data ==> Column(hs, items[n], row) != Column(hs, data, row))
  {
    var n := |items| - 1;
    if Alone(hs, items, row, data) {
      forall i | 0 <= i < n && items[..n][i] != data ensures Column(hs, items[..n][i], row) != Column(hs, data, row) {
        assert items[..n][i] == items[i];
      }
    }
    if Alone(hs, items[..n], row, data) {
      forall i | 0 <= i < n && items[i] != data ensures Column(hs, items[i], row) != Column(hs, data, row) {
        assert items[..n][i] == items[i];
      }
    }
  }

  /** The estimate: the smallest counter of `data` over the first `k` rows. */
  ghost predicate IsEstimate(hs: Hashing, history: seq<Event>, k: nat, data: seq<Byte>, count: nat)
    requires hs.width > 0
  {
    && (forall i :: 0 <= i < k ==> count <= Cell(hs, history, i, Column(hs, data, i)))
    && exists i :: 0 <= i < k && count == Cell(hs, history, i, Column(hs, data, i))
  }

  lemma EstimateCovers(hs: Hashing, history: seq<Event>, k: nat, data: seq<Byte>, count: nat)
    requires hs.width > 0 && IsEstimate(hs, history, k, data, count)
    ensures count >= Exact(history, data)
  {
    var i :| 0 <= i < k && count == Cell(hs, history, i, Column(hs, data, i));
    CellCovers(hs, history, i, data);
  }

  /** Before the first halving, the estimate is exact exactly when the item is alone in some row. */
  lemma EstimateExact(hs: Hashing, items: seq<seq<Byte>>, k: nat, data: seq<Byte>, count: nat)
    requires hs.width > 0 && IsEstimate(hs, Hits(items), k, data, count)
    ensures count == multiset(items)[data] <==> exists i :: 0 <= i < k && Alone(hs, items, i, data)
  {
    ExactCounts(items, data);
    EstimateCovers(hs, Hits(items), k, data, count);
    var i :| 0 <= i < k && count == Cell(hs, Hits(items), i, Column(hs, data, i));
    CellExact(hs, items, i, data);
    forall j | 0 <= j < k && Alone(hs, items, j, data) ensures count == multiset(items)[data] {
      CellExact(hs, items, j, data);
    }
  }

  // ---------------------------------------------------------------------------------------
  // The sketch
  // ---------------------------------------------------------------------------------------

  class Sketch {
    const k: nat
    const width: nat
    const hasher: Hasher
    const arr: array2<nat>
    var op_counter: nat
    /** All increments and resets so far. */
    ghost var history: seq<Event>

    ghost function HashingOf(): Hashing { Hashing(hasher, width) }

    ghost predicate Valid()
      reads this, arr
    {
      && k > 0 && width > 0 && arr.Length0 == k && arr.Length1 == width
      && forall i, v :: 0 <= i < k && 0 <= v < width ==> arr[i, v] == Cell(HashingOf(), history, i, v)
    }

    /** `NewCMS`, given the depth and the width it computes. */
    constructor (depth: nat, width: nat, hasher: Hasher)
      requires depth > 0 && width > 0
      ensures Valid() && fresh(arr) && history == [] && op_counter == 0
      ensures k == depth && this.width == width && this.hasher == hasher
    {
      k, this.width, this.hasher, op_counter, history := depth, width, hasher, 0, [];
      arr := new nat[depth, width]((_, _) => 0);
    }

    /** `Increment`. */
    method Increment(key: seq<Byte>) returns (ops: nat)
      requires Valid()
      modifies this, arr
      ensures Valid() && history == old(history) + [Hit(key)]
      ensures ops == op_counter == old(op_counter) + 1
      ensures forall i, v :: 0 <= i < k && 0 <= v < width ==>
                arr[i, v] == old(arr[i, v]) + if v == Column(HashingOf(), key, i) then 1 else 0
    {
      var indices := DoubleHashIndices(hasher, key, k, width);
      ghost var h, h' := history, history + [Hit(key)];
      assert h'[..|h'| - 1] == h;
      for row := 0 to k
        invariant history == h && op_counter == old(op_counter)
        invariant forall i, v :: 0 <= i < row && 0 <= v < width ==> arr[i, v] == Cell(HashingOf(), h', i, v)
        invariant forall i, v :: row <= i < k && 0 <= v < width ==> arr[i, v] == Cell(HashingOf(), h, i, v)
        invariant forall i, v :: 0 <= i < k && 0 <= v < width ==>
                    arr[i, v] == old(arr[i, v]) + if i < row && v == Column(HashingOf(), key, i) then 1 else 0
      {
        arr[row, indices[row]] := arr[row, indices[row]] + 1;
      }
      op_counter := op_counter + 1;
      history := h';
      ops := op_counter;
    }

    /** `GetCount`. */
    method GetCount(key: seq<Byte>) returns (count: nat)
      requires Valid()
      ensures IsEstimate(HashingOf(), history, k, key, count)
    {
      var indices := DoubleHashIndices(hasher, key, k, width);
      count := arr[0, indices[0]];
      ghost var least := 0;
      for i := 1 to k
        invariant 0 <= least < i && count == Cell(HashingOf(), history, least, Column(HashingOf(), key, least))
        invariant forall j :: 0 <= j < i ==> count <= Cell(HashingOf(), history, j, Column(HashingOf(), key, j))
      {
        var val := arr[i, indices[i]];
        if count > val {
          count, least := val, i;
        }
      }
    }

    /** `reset`. */
    method Reset()
      requires Valid()
      modifies this, arr
      ensures Valid() && history == old(history) + [Halve] && op_counter == 0
      ensures forall i, v :: 0 <= i < k && 0 <= v < width ==> arr[i, v] == old(arr[i, v]) / 2
    {
      ghost var h, h' := history, history + [Halve];
      assert h'[..|h'| - 1] == h;
      for i := 0 to k
        invariant history == h
        invariant forall r, v :: 0 <= r < i && 0 <= v < width ==> arr[r, v] == Cell(HashingOf(), h', r, v)
        invariant forall r, v :: i <= r < k && 0 <= v < width ==> arr[r, v] == Cell(HashingOf(), h, r, v)
        invariant forall r, v :: 0 <= r < k && 0 <= v < width ==> arr[r, v] == if r < i then old(arr[r, v]) / 2 else old(arr[r, v])
      {
        HalveRow(i, h, h');
      }
      op_counter := 0;
      history := h';
    }

    method HalveRow(i: nat, ghost h: seq<Event>, ghost h': seq<Event>)
      requires arr.Length0 == k && arr.Length1 == width > 0 && i < k && h' == h + [Halve]
      requires forall v :: 0 <= v < width ==> arr[i, v] == Cell(HashingOf(), h, i, v)
      modifies arr
      ensures forall v :: 0 <= v < width ==> arr[i, v] == Cell(HashingOf(), h', i, v)
      ensures forall v :: 0 <= v < width ==> arr[i, v] == old(arr[i, v]) / 2
      ensures forall r, v :: 0 <= r < k && r != i && 0 <= v < width ==> arr[r, v] == old(arr[r, v])
    {
      assert h'[..|h'| - 1] == h;
      for j := 0 to width
        invariant forall v :: 0 <= v < j ==> arr[i, v] == Cell(HashingOf(), h', i, v)
        invariant forall v :: j <= v < width ==> arr[i, v] == Cell(HashingOf(), h, i, v)
        invariant forall v :: 0 <= v < width ==> arr[i, v] == if v < j then old(arr[i, v]) / 2 else old(arr[i, v])
        invariant forall r, v :: 0 <= r < k && r != i && 0 <= v < width ==> arr[r, v] == old(arr[r, v])
      {
        if arr[i, j] > 0 {
          arr[i, j] := arr[i, j] / 2;
        }
      }
    }
  }
}
