/**
 The B+ tree index (pkg/bptree): insertion with a breadcrumb stack, lookup and range scan
 over a page store.
 */
module BTree {
  import opened Keys
  import opened Levels
  import opened TreeSteps

  /** A page passed on the way down, and which of its children was followed. */
  datatype TraversePath = TraversePath(id: PageId, node: Node, idx: nat)

  datatype Option<T> = None | Some(value: T)

  /** The breadcrumb stack: a map from 1, 2, ... to what was pushed. */
  class BTStack {
    var count: int
    var stack: map<int, TraversePath>
    var maxId: int

    ghost predicate Valid()
      reads this
    {
      && 0 <= count == maxId
      && forall k :: k in stack <==> 1 <= k <= count
    }

    ghost function Contents(): (s: seq<TraversePath>)
      requires Valid()
      reads this
      ensures |s| == count
    {
      seq(count, i requires 0 <= i < count && Valid() reads this => stack[i + 1])
    }

    constructor ()
      ensures Valid() && Contents() == []
    {
      count, stack, maxId := 0, map[], 0;
    }

    method Add(t: TraversePath)
      requires Valid()
      modifies this
      ensures Valid() && Contents() == old(Contents()) + [t]
    {
      stack := stack[maxId + 1 := t];
      maxId := maxId + 1;
      count := count + 1;
    }

    method Pop() returns (r: Option<TraversePath>)
      requires Valid()
      modifies this
      ensures Valid()
      ensures old(Contents()) == [] ==> r == None && Contents() == []
      ensures old(Contents()) != [] ==> r.Some? && old(Contents()) == Contents() + [r.value]
    {
      if count <= 0 || maxId == 0 || maxId !in stack {
        return None;
      }
      r := Some(stack[maxId]);
      stack := stack - {maxId};
      if count > 0 { count := count - 1; }
      maxId := maxId - 1;
    }

    method Clear()
      requires Valid()
      modifies this
      ensures Valid() && Contents() == []
    {
      if count <= 0 { return; }
      stack := stack - (set k | k in stack && k != 0);
      count := 0;
      maxId := 0;
    }
  }

  // ---------------------------------------------------------------------------------------
  // A put into a leaf, seen from the map
  // ---------------------------------------------------------------------------------------

  /** `n'` is leaf `n` with `v` put at `k`: inserted, or replacing the value already there. */
  ghost predicate LeafPutAt(n: Node, n': Node, k: Key, v: Value, i: nat) {
    && |n.vals| == |n.keys| && |n'.vals| == |n'.keys|
    && n'.leaf && n'.children == n.children && n'.left == n.left && n'.right == n.right
    && Sorted(n'.keys)
    && (forall j :: 0 <= j < |n'.keys| ==> n'.keys[j] == k || n'.keys[j] in n.keys)
    && PutIn(Pairs(n.keys, n.vals), Pairs(n'.keys, n'.vals), k, v, i)
  }

  lemma LeafInsert(n: Node, k: Key, v: Value, i: nat)
    requires n.leaf && |n.vals| == |n.keys| && Sorted(n.keys)
    requires IsLowerBound(n.keys, k, i) && (i < |n.keys| ==> k != n.keys[i])
    ensures LeafPutAt(n, n.(keys := InsertAt(n.keys, i, k), vals := InsertAt(n.vals, i, v)), k, v, i)
  {
    InsertKeepsSorted(n.keys, k, i);
    var n' := n.(keys := InsertAt(n.keys, i, k), vals := InsertAt(n.vals, i, v));
    var es, es' := Pairs(n.keys, n.vals), Pairs(n'.keys, n'.vals);
    assert es' == es[..i] + [(k, v)] + es[i..];
  }

  lemma LeafReplace(n: Node, k: Key, v: Value, i: nat)
    requires n.leaf && |n.vals| == |n.keys| && Sorted(n.keys)
    requires i < |n.keys| && n.keys[i] == k
    ensures LeafPutAt(n, n.(keys := n.keys[i := k], vals := n.vals[i := v]), k, v, i)
  {
    var n' := n.(keys := n.keys[i := k], vals := n.vals[i := v]);
    assert n'.keys == n.keys;
    assert Pairs(n'.keys, n'.vals) == Pairs(n.keys, n.vals)[i := (k, v)];
  }

  lemma PutInside(a: seq<Entry>, x: seq<Entry>, x': seq<Entry>, b: seq<Entry>, k: Key, v: Value, i: nat)
    requires PutIn(x, x', k, v, i)
    ensures PutIn(a + x + b, a + x' + b, k, v, |a| + i)
  {
    var es, es' := a + x + b, a + x' + b;
    if x' == x[..i] + [(k, v)] + x[i..] {
      assert es[..|a| + i] == a + x[..i];
      assert es[|a| + i..] == x[i..] + b;
    }
  }

  /** A leaf put is a map update, whether or not the leaf was split afterwards. */
  lemma PutContents(pages: Pages, lvl: Level, p: nat, n: Node, pages': Pages, lvl': Level, k: Key, v: Value, i: nat)
    requires Fenced(lvl) && LeafKeys(pages, lvl) && Fenced(lvl') && LeafKeys(pages', lvl')
    requires p < |lvl| && lvl[p].id in pages && LeafPutAt(pages[lvl[p].id], n, k, v, i)
    requires Entries(pages', lvl') == EntrySpan(pages, lvl, 0, p) + Pairs(n.keys, n.vals) + EntrySpan(pages, lvl, p + 1, |lvl|)
    ensures MapOf(Entries(pages', lvl')) == MapOf(Entries(pages, lvl))[k := v]
  {
    var es, es' := Entries(pages, lvl), Entries(pages', lvl');
    assert EntriesSorted(es) by { EntriesInKeyOrder(pages, lvl); }
    assert EntriesSorted(es') by { EntriesInKeyOrder(pages', lvl'); }
    PutAmong(pages, lvl, p, n, es', k, v, i);
    PutUpdatesMap(es, es', k, v, |EntrySpan(pages, lvl, 0, p)| + i);
  }

  lemma PutAmong(pages: Pages, lvl: Level, p: nat, n: Node, es': seq<Entry>, k: Key, v: Value, i: nat)
    requires p < |lvl| && lvl[p].id in pages && LeafPutAt(pages[lvl[p].id], n, k, v, i)
    requires es' == EntrySpan(pages, lvl, 0, p) + Pairs(n.keys, n.vals) + EntrySpan(pages, lvl, p + 1, |lvl|)
    ensures PutIn(Entries(pages, lvl), es', k, v, |EntrySpan(pages, lvl, 0, p)| + i)
  {
    EntriesAround(pages, lvl, p);
    PutInside(EntrySpan(pages, lvl, 0, p), PairsAt(pages, lvl[p].id), Pairs(n.keys, n.vals), EntrySpan(pages, lvl, p + 1, |lvl|), k, v, i);
  }

  lemma PutFits(pages: Pages, lvl: Level, p: nat, n: Node, k: Key, v: Value, i: nat)
    requires LeafKeys(pages, lvl) && InRange(lvl, p, k)
    requires LeafPutAt(pages[lvl[p].id], n, k, v, i) && n.children == []
    ensures Fits(lvl, p, n)
  {
    assert LeafAt(pages, lvl, p);
  }

  lemma PutEntries(pages: Pages, lvl: Level, p: nat, n: Node)
    requires DistinctIds(lvl) && p < |lvl| && |n.vals| == |n.keys|
    ensures Entries(pages[lvl[p].id := n], lvl) ==
            EntrySpan(pages, lvl, 0, p) + Pairs(n.keys, n.vals) + EntrySpan(pages, lvl, p + 1, |lvl|)
  {
    var pages' := pages[lvl[p].id := n];
    forall i | 0 <= i < |lvl| && i != p
      ensures PairsAt(pages, lvl[i].id) == PairsAt(pages', lvl[i].id)
    {
      assert lvl[i].id != lvl[p].id;
    }
    EntryFrame(pages, pages', lvl, lvl, 0, p);
    EntryFrame(pages, pages', lvl, lvl, p + 1, |lvl|);
    EntriesAround(pages', lvl, p);
  }

  ghost function Held(pages: Pages, levels: seq<Level>): map<Key, Value>
    requires levels != []
  {
    MapOf(Entries(pages, Leaves(levels)))
  }

  /** Move 1 as the tree's user sees it. */
  lemma PutMove(pages: Pages, root: PageId, levels: seq<Level>, ht: map<PageId, nat>, p: nat, n: Node,
                k: Key, v: Value, i: nat, pages': Pages)
    requires WellFormed(pages, root, levels, ht)
    requires InRange(Leaves(levels), p, k)
    requires LeafPutAt(pages[Leaves(levels)[p].id], n, k, v, i) && |n.keys| <= ORDER
    requires pages' == pages[Leaves(levels)[p].id := n]
    ensures WellFormed(pages', root, levels, ht)
    ensures Held(pages', levels) == Held(pages, levels)[k := v]
  {
    var lvl := Leaves(levels);
    assert LevelOkAt(pages, levels, ht, |levels| - 1);
    PutFits(pages, lvl, p, n, k, v, i);
    assert |n.keys| >= |pages[lvl[p].id].keys|;
    LeafPut(pages, root, levels, ht, p, n);
    PutEntries(pages, lvl, p, n);
    PutContents(pages, lvl, p, n, pages', lvl, k, v, i);
  }

  /** Move 2 as the tree's user sees it. */
  lemma LeafSplitMove(pages: Pages, root: PageId, levels: seq<Level>, ht: map<PageId, nat>, p: nat, n: Node,
                      k: Key, v: Value, i: nat, newId: PageId,
                      pages': Pages, levels': seq<Level>, ht': map<PageId, nat>)
    requires WellFormed(pages, root, levels, ht)
    requires InRange(Leaves(levels), p, k)
    requires LeafPutAt(pages[Leaves(levels)[p].id], n, k, v, i) && |n.keys| == ORDER + 1
    requires newId != 0 && newId !in pages
    requires pages' == SplitPages(pages, Leaves(levels)[p].id, LeafLeft(n), newId, LeafRight(n))
    requires levels' == levels[|levels| - 1 := Cut(Leaves(levels), p, LeafRight(n).keys[0], newId)]
    requires ht' == ht[newId := 0]
    ensures Pending(pages', root, levels', ht', |levels| - 1, p, LeafRight(n).keys[0], newId)
    ensures Held(pages', levels') == Held(pages, levels)[k := v]
    ensures forall e :: 0 <= e < |levels| - 1 ==> SameOn(pages, pages', levels[e])
  {
    var lvl := Leaves(levels);
    assert LevelOkAt(pages, levels, ht, |levels| - 1);
    PutFits(pages, lvl, p, n, k, v, i);
    LeafSplit(pages, root, levels, ht, p, n, newId);
    assert LevelOkAt(pages', levels', ht', |levels| - 1);
    PutContents(pages, lvl, p, n, pages', Leaves(levels'), k, v, i);
    SplitElsewhere(pages, lvl, ht, 0, p, LeafLeft(n), newId, LeafRight(n));
    forall e | 0 <= e < |levels| - 1
      ensures SameOn(pages, pages', levels[e])
    {
      OtherLevel(pages, pages', levels, ht, ht', 0, e);
    }
  }
}
