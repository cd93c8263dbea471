/**
 The TinyLFU frequency filter (internal/tinylfu/tinylfu.go): a doorkeeper in front of a sketch,
 simulating exact counting from above.
 */
module TinyLfu {
  import opened Keys
  import opened Doorkeeper
  import opened CountMin

  const SAMPLE_SIZE := 800000

  // ---------------------------------------------------------------------------------------
  // The exact filter
  // ---------------------------------------------------------------------------------------

  /** What the filter approximates: a set of items seen once, and the events counted since. */
  datatype ExactFilter = ExactFilter(door: set<seq<Byte>>, counted: seq<Event>)

  /** An item goes through the door first, and is counted from then on; aging empties the door and halves. */
  ghost function Arrive(f: ExactFilter, data: seq<Byte>, aging: bool): ExactFilter {
    var g := if data in f.door then f.(counted := f.counted + [Hit(data)]) else f.(door := f.door + {data});
    if aging then ExactFilter({}, g.counted + [Halve]) else g
  }

  /** The exact filter after `items` have arrived, without aging. */
  ghost function ArriveAll(items: seq<seq<Byte>>): ExactFilter {
    if items == [] then ExactFilter({}, []) else Arrive(ArriveAll(items[..|items| - 1]), items[|items| - 1], false)
  }

  /** It counts every arrival of an item but the first. */
  lemma {:induction false} ExactFilterCounts(items: seq<seq<Byte>>, d: seq<Byte>)
    ensures d in ArriveAll(items).door <==> d in items
    ensures Exact(ArriveAll(items).counted, d) == if d in items then multiset(items)[d] - 1 else 0
  {
    if items != [] {
      var n := |items| - 1;
      var f := ArriveAll(items[..n]);
      ExactFilterCounts(items[..n], d);
      assert items == items[..n] + [items[n]];
      if items[n] in f.door { ExactLast(f.counted, Hit(items[n]), d); }
      if items[n] != d { assert d in items <==> d in items[..n]; }
    }
  }

  /** Aging empties the door and halves every count, after the arrival that brought it on. */
  lemma ExactFilterAges(f: ExactFilter, data: seq<Byte>, d: seq<Byte>)
    ensures Arrive(f, data, true).door == {}
    ensures Exact(Arrive(f, data, true).counted, d) == Exact(Arrive(f, data, false).counted, d) / 2
  {
    ExactLast(Arrive(f, data, false).counted, Halve, d);
  }

  ghost predicate Below(counted: seq<Event>, history: seq<Event>) {
    forall d: seq<Byte> :: Exact(counted, d) <= Exact(history, d)
  }

  lemma ExactLast(history: seq<Event>, e: Event, d: seq<Byte>)
    ensures Exact(history + [e], d) ==
            match e
            case Hit(x) => if x == d then Exact(history, d) + 1 else Exact(history, d)
            case Halve => Exact(history, d) / 2
  {
    assert (history + [e])[..|history|] == history;
  }

  /** Counting an event on both sides, or only in the sketch, keeps the exact counts below. */
  lemma BelowStep(counted: seq<Event>, history: seq<Event>, e: Event)
    requires Below(counted, history)
    ensures Below(counted + [e], history + [e])
    ensures e.Hit? ==> Below(counted, history + [e])
  {
    forall d: seq<Byte> ensures Exact(counted + [e], d) <= Exact(history + [e], d) {
      ExactLast(counted, e, d);
      ExactLast(history, e, d);
    }
    if e.Hit? {
      forall d: seq<Byte> ensures Exact(counted, d) <= Exact(history + [e], d) {
        ExactLast(history, e, d);
      }
    }
  }

  /** No counter exceeds one full sample plus the increments since the last aging. */
  ghost predicate Bounded(hs: Hashing, k: nat, history: seq<Event>, ops: nat)
    requires hs.width > 0
  {
    forall i, v :: 0 <= i < k && 0 <= v < hs.width ==> Cell(hs, history, i, v) <= SAMPLE_SIZE + ops
  }

  lemma BoundedStep(hs: Hashing, k: nat, history: seq<Event>, ops: nat, e: Event)
    requires hs.width > 0 && Bounded(hs, k, history, ops)
    requires e.Halve? ==> ops <= SAMPLE_SIZE
    ensures Bounded(hs, k, history + [e], if e.Halve? then 0 else ops + 1)
  {
    assert (history + [e])[..|history|] == history;
  }

  // ---------------------------------------------------------------------------------------
  // The filter
  // ---------------------------------------------------------------------------------------

  class Filter {
    const doorkeeper: Bloom
    const sketch: Sketch
    /** The exact filter, fed with the same items and aged at the same times. */
    ghost var exact: ExactFilter

    ghost predicate Valid()
      reads this, doorkeeper, doorkeeper.bitArray, sketch, sketch.arr
    {
      && doorkeeper.Valid() && sketch.Valid()
      && sketch.op_counter < SAMPLE_SIZE
      && (forall d :: d in exact.door ==> Passed(d))
      && Below(exact.counted, sketch.history)
      && Bounded(sketch.HashingOf(), sketch.k, sketch.history, sketch.op_counter)
    }

    ghost predicate Passed(data: seq<Byte>)
      requires doorkeeper.Valid()
      reads doorkeeper, doorkeeper.bitArray
    {
      Passes(doorkeeper.hasher, doorkeeper.m, doorkeeper.k, doorkeeper.Bits(), data)
    }

    /** `NewTinyLFU`, with the sizes of filter and sketch as parameters. */
    constructor (bits: nat, hashes: nat, depth: nat, width: nat, hasher: Hasher)
      requires bits > 0 && bits % 8 == 0 && hashes > 0 && depth > 0 && width > 0
      ensures Valid() && exact == ExactFilter({}, [])
      ensures fresh(doorkeeper) && fresh(doorkeeper.bitArray) && fresh(sketch) && fresh(sketch.arr)
    {
      doorkeeper := new Bloom(bits, hashes, hasher);
      sketch := new Sketch(depth, width, hasher);
      exact := ExactFilter({}, []);
    }

    /** An item that is in the exact door always passes: the filter has no false negatives. */
    method IncrementItem(data: seq<Byte>) returns (ok: bool, ghost aging: bool)
      requires Valid()
      modifies this, doorkeeper.bitArray, sketch, sketch.arr
      ensures Valid() && (ok <==> data != [])
      ensures !ok ==> exact == old(exact) && sketch.history == old(sketch.history)
      ensures ok ==> exact == Arrive(old(exact), data, aging)
      ensures data in old(exact).door ==> old(Passed(data))
      ensures ok ==> sketch.history == old(sketch.history) +
                     if !old(Passed(data)) then [] else if aging then [Hit(data), Halve] else [Hit(data)]
      ensures aging <==> ok && old(Passed(data)) && old(sketch.op_counter) + 1 == 800000
      ensures doorkeeper.Bits() ==
              if aging then iset{}
              else if ok && !old(Passed(data)) then old(doorkeeper.Bits()) + doorkeeper.IndicesOf(data)
              else old(doorkeeper.Bits())
      ensures sketch.op_counter == if aging then 0 else if ok && old(Passed(data)) then old(sketch.op_counter) + 1 else old(sketch.op_counter)
    {
      aging := false;
      if |data| == 0 {
        return false, false;
      }
      ok := true;
      var mayExist := doorkeeper.Check(data);
      if !mayExist {
        doorkeeper.Add(data);
        exact := Arrive(exact, data, false);
        return;
      }
      var opCount := Count(data);
      if opCount >= SAMPLE_SIZE {
        aging := true;
        Age();
      }
    }

    method Count(data: seq<Byte>) returns (opCount: nat)
      requires Valid() && Passed(data)
      modifies this, sketch, sketch.arr
      ensures doorkeeper.Valid() && sketch.Valid() && opCount == sketch.op_counter == old(sketch.op_counter) + 1
      ensures exact == Arrive(old(exact), data, false) && sketch.history == old(sketch.history) + [Hit(data)]
      ensures forall d :: d in exact.door ==> Passed(d)
      ensures Below(exact.counted, sketch.history)
      ensures Bounded(sketch.HashingOf(), sketch.k, sketch.history, sketch.op_counter)
    {
      BelowStep(exact.counted, sketch.history, Hit(data));
      BoundedStep(sketch.HashingOf(), sketch.k, sketch.history, sketch.op_counter, Hit(data));
      opCount := sketch.Increment(data);
      exact := Arrive(exact, data, false);
    }

    method Age()
      requires doorkeeper.Valid() && sketch.Valid() && sketch.op_counter <= SAMPLE_SIZE
      requires Below(exact.counted, sketch.history)
      requires Bounded(sketch.HashingOf(), sketch.k, sketch.history, sketch.op_counter)
      modifies this, doorkeeper.bitArray, sketch, sketch.arr
      ensures Valid() && exact == ExactFilter({}, old(exact).counted + [Halve])
      ensures sketch.history == old(sketch.history) + [Halve] && sketch.op_counter == 0 && doorkeeper.Bits() == iset{}
    {
      BelowStep(exact.counted, sketch.history, Halve);
      BoundedStep(sketch.HashingOf(), sketch.k, sketch.history, sketch.op_counter, Halve);
      sketch.Reset();
      doorkeeper.Clear();
      exact := ExactFilter({}, exact.counted + [Halve]);
    }

    /** `CheckItemCount`: never below the exact count, and far from wrapping around. */
    method CheckItemCount(data: seq<Byte>) returns (count: nat)
      requires Valid()
      ensures Exact(exact.counted, data) <= count < 2 * SAMPLE_SIZE
      ensures IsEstimate(sketch.HashingOf(), sketch.history, sketch.k, data, count)
    {
      count := sketch.GetCount(data);
      EstimateCovers(sketch.HashingOf(), sketch.history, sketch.k, data, count);
      ghost var i :| 0 <= i < sketch.k && count == Cell(sketch.HashingOf(), sketch.history, i, Column(sketch.HashingOf(), data, i));
    }
  }
}
