/**
 The page graph of a B+ tree, read level by level.

 A level lists the pages at one depth from left to right, each with its upper fence: the
 first key that no longer belongs to it.  One level determines the next: every internal page
 contributes its children, fenced by its own keys and, last, by its own fence.
 */
module Levels {
  import opened Keys

  const DEGREE := 2
  const ORDER := DEGREE * 2

  type PageId = nat
  type Value = seq<Byte>

  datatype Node = Node(leaf: bool, keys: seq<Key>, vals: seq<Value>, children: seq<PageId>,
                       left: PageId, right: PageId)

  type Pages = map<PageId, Node>

  datatype Bound = Inf | At(key: Key)
  datatype Item = Item(id: PageId, hi: Bound)
  type Level = seq<Item>

  ghost predicate Under(k: Key, b: Bound) { b.Inf? || Less(k, b.key) }

  ghost predicate BoundLess(a: Bound, b: Bound) { a.At? && Under(a.key, b) }

  /** `k` belongs to the `i`-th page of the level. */
  ghost predicate InRange(lvl: Level, i: int, k: Key) {
    && 0 <= i < |lvl|
    && (i > 0 ==> lvl[i - 1].hi.At? && !Less(k, lvl[i - 1].hi.key))
    && Under(k, lvl[i].hi)
  }

  // ---------------------------------------------------------------------------------------
  // From one level to the next
  // ---------------------------------------------------------------------------------------

  /** The children of a page, each with its fence. */
  ghost function Expand(keys: seq<Key>, children: seq<PageId>, hi: Bound): (r: Level)
    ensures |r| == |children|
  {
    seq(|children|, j requires 0 <= j < |children| => Item(children[j], if j < |keys| then At(keys[j]) else hi))
  }

  ghost function Children(pages: Pages, it: Item): Level {
    if it.id in pages then Expand(pages[it.id].keys, pages[it.id].children, it.hi) else []
  }

  /** What the pages `a .. b` of a level contribute to the next one. */
  ghost function DownSpan(pages: Pages, lvl: Level, a: nat, b: nat): Level
    requires a <= b <= |lvl|
    decreases b
  {
    if a == b then [] else DownSpan(pages, lvl, a, b - 1) + Children(pages, lvl[b - 1])
  }

  ghost function Down(pages: Pages, lvl: Level): Level {
    DownSpan(pages, lvl, 0, |lvl|)
  }

  lemma {:induction false} DownJoin(pages: Pages, lvl: Level, a: nat, m: nat, b: nat)
    requires a <= m <= b <= |lvl|
    ensures DownSpan(pages, lvl, a, b) == DownSpan(pages, lvl, a, m) + DownSpan(pages, lvl, m, b)
    decreases b
  {
    if m < b {
      DownJoin(pages, lvl, a, m, b - 1);
    }
  }

  lemma DownOne(pages: Pages, lvl: Level, i: nat)
    requires i < |lvl|
    ensures DownSpan(pages, lvl, i, i + 1) == Children(pages, lvl[i])
  {
  }

  /** The next level around the pages that stem from item `i`. */
  lemma DownAround(pages: Pages, lvl: Level, i: nat)
    requires i < |lvl|
    ensures Down(pages, lvl) == DownSpan(pages, lvl, 0, i) + Children(pages, lvl[i]) + DownSpan(pages, lvl, i + 1, |lvl|)
  {
    DownJoin(pages, lvl, 0, i, |lvl|);
    DownJoin(pages, lvl, i, i + 1, |lvl|);
    DownOne(pages, lvl, i);
  }

  lemma Regroup<T>(a: seq<T>, x: seq<T>, y: seq<T>, b: seq<T>)
    ensures a + x + (y + b) == a + (x + y) + b
  {
  }

  /** The next level around the pages that stem from items `i` and `i + 1`. */
  lemma DownAroundTwo(pages: Pages, lvl: Level, i: nat)
    requires i + 1 < |lvl|
    ensures Down(pages, lvl) ==
            DownSpan(pages, lvl, 0, i) + (Children(pages, lvl[i]) + Children(pages, lvl[i + 1])) + DownSpan(pages, lvl, i + 2, |lvl|)
  {
    var b := DownSpan(pages, lvl, i + 2, |lvl|);
    DownAround(pages, lvl, i);
    assert DownSpan(pages, lvl, i + 1, |lvl|) == Children(pages, lvl[i + 1]) + b by {
      DownJoin(pages, lvl, i + 1, i + 2, |lvl|);
      DownOne(pages, lvl, i + 1);
    }
    Regroup(DownSpan(pages, lvl, 0, i), Children(pages, lvl[i]), Children(pages, lvl[i + 1]), b);
  }

  /** The span depends only on what its pages lead to. */
  lemma {:induction false} DownFrame(pages: Pages, pages': Pages, lvl: Level, lvl': Level, a: nat, b: nat)
    requires a <= b <= |lvl| && b <= |lvl'|
    requires forall i :: a <= i < b ==> lvl'[i] == lvl[i]
    requires forall i :: a <= i < b ==> Children(pages, lvl[i]) == Children(pages', lvl[i])
    ensures DownSpan(pages', lvl', a, b) == DownSpan(pages, lvl, a, b)
    decreases b
  {
    if a < b {
      DownFrame(pages, pages', lvl, lvl', a, b - 1);
    }
  }

  /** The same, for pages that moved one place to the right. */
  lemma {:induction false} DownShift(pages: Pages, pages': Pages, lvl: Level, lvl': Level, a: nat, b: nat, a': nat, b': nat)
    requires a <= b <= |lvl| && a' == a + 1 && b' == b + 1 <= |lvl'|
    requires forall i :: a' <= i < b' ==> lvl'[i] == lvl[i - 1]
    requires forall i :: a <= i < b ==> Children(pages, lvl[i]) == Children(pages', lvl[i])
    ensures DownSpan(pages', lvl', a', b') == DownSpan(pages, lvl, a, b)
    decreases b
  {
    if a < b {
      DownShift(pages, pages', lvl, lvl', a, b - 1, a', b' - 1);
    }
  }

  // ---------------------------------------------------------------------------------------
  // What one level keeps
  // ---------------------------------------------------------------------------------------

  ghost predicate NodeOk(n: Node, leaf: bool, single: bool) {
    && n.leaf == leaf
    && (leaf ==> |n.vals| == |n.keys| <= ORDER && n.children == [] && (single || DEGREE <= |n.keys|))
    && (!leaf ==> n.vals == [] && |n.children| == |n.keys| + 1 && DEGREE - 1 <= |n.keys| <= ORDER - 1)
  }

  /** Pages present and shaped as their depth demands; `h` counts levels from the leaves. */
  ghost predicate Shaped(pages: Pages, lvl: Level, ht: map<PageId, nat>, h: nat) {
    forall i :: 0 <= i < |lvl| ==>
      && lvl[i].id != 0 && lvl[i].id in pages && NodeOk(pages[lvl[i].id], h == 0, |lvl| == 1)
      && lvl[i].id in ht && ht[lvl[i].id] == h
  }

  ghost predicate Fenced(lvl: Level) {
    && lvl != [] && lvl[|lvl| - 1].hi.Inf?
    && forall i, j :: 0 <= i < j < |lvl| ==> BoundLess(lvl[i].hi, lvl[j].hi)
  }

  ghost predicate DistinctIds(lvl: Level) {
    forall i, j :: 0 <= i < j < |lvl| ==> lvl[i].id != lvl[j].id
  }

  ghost function IdAt(lvl: Level, i: int): PageId {
    if 0 <= i < |lvl| then lvl[i].id else 0
  }

  ghost predicate LinkAt(pages: Pages, lvl: Level, i: int) {
    && 0 <= i < |lvl| && lvl[i].id in pages
    && pages[lvl[i].id].right == IdAt(lvl, i + 1) && pages[lvl[i].id].left == IdAt(lvl, i - 1)
  }

  /** The sibling links are one doubly linked list in key order. */
  ghost predicate Linked(pages: Pages, lvl: Level) {
    && (forall i :: 0 <= i < |lvl| ==> lvl[i].id in pages)
    && (forall i :: 0 <= i < |lvl| ==> LinkAt(pages, lvl, i))
  }

  ghost predicate LevelOk(pages: Pages, lvl: Level, ht: map<PageId, nat>, h: nat) {
    Shaped(pages, lvl, ht, h) && Fenced(lvl) && DistinctIds(lvl) && Linked(pages, lvl)
  }

  ghost predicate LeafAt(pages: Pages, lvl: Level, i: int) {
    && 0 <= i < |lvl| && lvl[i].id in pages
    && Sorted(pages[lvl[i].id].keys)
    && forall j :: 0 <= j < |pages[lvl[i].id].keys| ==> InRange(lvl, i, pages[lvl[i].id].keys[j])
  }

  /** The keys of every leaf are sorted and lie between its fences. */
  ghost predicate LeafKeys(pages: Pages, lvl: Level) {
    && (forall i :: 0 <= i < |lvl| ==> lvl[i].id in pages)
    && (forall i :: 0 <= i < |lvl| ==> LeafAt(pages, lvl, i))
  }

  // ---------------------------------------------------------------------------------------
  // What the leaves hold
  // ---------------------------------------------------------------------------------------

  type Entry = (Key, Value)

  ghost function Pairs(keys: seq<Key>, vals: seq<Value>): (r: seq<Entry>)
    requires |vals| == |keys|
    ensures |r| == |keys|
  {
    seq(|keys|, j requires 0 <= j < |keys| => (keys[j], vals[j]))
  }

  ghost function PairsAt(pages: Pages, id: PageId): seq<Entry> {
    if id in pages && |pages[id].vals| == |pages[id].keys| then Pairs(pages[id].keys, pages[id].vals) else []
  }

  /** The entries of the leaves `a .. b`, left to right. */
  ghost function EntrySpan(pages: Pages, lvl: Level, a: nat, b: nat): seq<Entry>
    requires a <= b <= |lvl|
    decreases b
  {
    if a == b then [] else EntrySpan(pages, lvl, a, b - 1) + PairsAt(pages, lvl[b - 1].id)
  }

  ghost function Entries(pages: Pages, lvl: Level): seq<Entry> {
    EntrySpan(pages, lvl, 0, |lvl|)
  }

  lemma {:induction false} EntryJoin(pages: Pages, lvl: Level, a: nat, m: nat, b: nat)
    requires a <= m <= b <= |lvl|
    ensures EntrySpan(pages, lvl, a, b) == EntrySpan(pages, lvl, a, m) + EntrySpan(pages, lvl, m, b)
    decreases b
  {
    if m < b {
      EntryJoin(pages, lvl, a, m, b - 1);
    }
  }

  lemma EntryOne(pages: Pages, lvl: Level, i: nat)
    requires i < |lvl|
    ensures EntrySpan(pages, lvl, i, i + 1) == PairsAt(pages, lvl[i].id)
  {
  }

  lemma EntriesAround(pages: Pages, lvl: Level, i: nat)
    requires i < |lvl|
    ensures Entries(pages, lvl) ==
            EntrySpan(pages, lvl, 0, i) + PairsAt(pages, lvl[i].id) + EntrySpan(pages, lvl, i + 1, |lvl|)
  {
    EntryJoin(pages, lvl, 0, i, |lvl|);
    EntryJoin(pages, lvl, i, i + 1, |lvl|);
    EntryOne(pages, lvl, i);
  }

  lemma EntriesAroundTwo(pages: Pages, lvl: Level, i: nat)
    requires i + 1 < |lvl|
    ensures Entries(pages, lvl) ==
            EntrySpan(pages, lvl, 0, i) + (PairsAt(pages, lvl[i].id) + PairsAt(pages, lvl[i + 1].id)) + EntrySpan(pages, lvl, i + 2, |lvl|)
  {
    var b := EntrySpan(pages, lvl, i + 2, |lvl|);
    EntriesAround(pages, lvl, i);
    assert EntrySpan(pages, lvl, i + 1, |lvl|) == PairsAt(pages, lvl[i + 1].id) + b by {
      EntryJoin(pages, lvl, i + 1, i + 2, |lvl|);
      EntryOne(pages, lvl, i + 1);
    }
    Regroup(EntrySpan(pages, lvl, 0, i), PairsAt(pages, lvl[i].id), PairsAt(pages, lvl[i + 1].id), b);
  }

  lemma {:induction false} EntryFrame(pages: Pages, pages': Pages, lvl: Level, lvl': Level, a: nat, b: nat)
    requires a <= b <= |lvl| && b <= |lvl'|
    requires forall i :: a <= i < b ==> lvl'[i].id == lvl[i].id
    requires forall i :: a <= i < b ==> PairsAt(pages, lvl[i].id) == PairsAt(pages', lvl[i].id)
    ensures EntrySpan(pages', lvl', a, b) == EntrySpan(pages, lvl, a, b)
    decreases b
  {
    if a < b {
      EntryFrame(pages, pages', lvl, lvl', a, b - 1);
    }
  }

  lemma {:induction false} EntryShift(pages: Pages, pages': Pages, lvl: Level, lvl': Level, a: nat, b: nat, a': nat, b': nat)
    requires a <= b <= |lvl| && a' == a + 1 && b' == b + 1 <= |lvl'|
    requires forall i :: a' <= i < b' ==> lvl'[i] == lvl[i - 1]
    requires forall i :: a <= i < b ==> PairsAt(pages, lvl[i].id) == PairsAt(pages', lvl[i].id)
    ensures EntrySpan(pages', lvl', a', b') == EntrySpan(pages, lvl, a, b)
    decreases b
  {
    if a < b {
      EntryShift(pages, pages', lvl, lvl', a, b - 1, a', b' - 1);
    }
  }

  ghost predicate EntriesSorted(es: seq<Entry>) {
    forall i, j :: 0 <= i < j < |es| ==> Less(es[i].0, es[j].0)
  }

  ghost predicate EntriesUnder(es: seq<Entry>, b: Bound) {
    forall i :: 0 <= i < |es| ==> Under(es[i].0, b)
  }

  ghost predicate EntriesFrom(es: seq<Entry>, b: Bound) {
    forall i :: 0 <= i < |es| ==> b.At? && !Less(es[i].0, b.key)
  }

  /** The entries before a fence lie under it, in order. */
  lemma {:induction false} EntriesBelowFence(pages: Pages, lvl: Level, n: nat)
    requires Fenced(lvl) && LeafKeys(pages, lvl) && n <= |lvl|
    ensures EntriesSorted(EntrySpan(pages, lvl, 0, n))
    ensures n > 0 ==> EntriesUnder(EntrySpan(pages, lvl, 0, n), lvl[n - 1].hi)
  {
    if n > 0 {
      EntriesBelowFence(pages, lvl, n - 1);
      LeafInOrder(pages, lvl, n - 1);
      var a, b := EntrySpan(pages, lvl, 0, n - 1), PairsAt(pages, lvl[n - 1].id);
      if n > 1 {
        LeafAboveFence(pages, lvl, n - 1, n - 1);
        assert BoundLess(lvl[n - 2].hi, lvl[n - 1].hi);
      }
    }
  }

  lemma LeafInOrder(pages: Pages, lvl: Level, i: nat)
    requires LeafKeys(pages, lvl) && i < |lvl|
    ensures EntriesSorted(PairsAt(pages, lvl[i].id)) && EntriesUnder(PairsAt(pages, lvl[i].id), lvl[i].hi)
  {
    assert LeafAt(pages, lvl, i);
  }

  /** The entries after a fence are not below it. */
  lemma {:induction false} EntriesAboveFence(pages: Pages, lvl: Level, n: nat, m: nat)
    requires Fenced(lvl) && LeafKeys(pages, lvl) && 0 < n <= m <= |lvl|
    ensures EntriesFrom(EntrySpan(pages, lvl, n, m), lvl[n - 1].hi)
    decreases m
  {
    if n < m {
      EntriesAboveFence(pages, lvl, n, m - 1);
      LeafAboveFence(pages, lvl, n, m - 1);
    }
  }

  lemma LeafAboveFence(pages: Pages, lvl: Level, n: nat, i: nat)
    requires Fenced(lvl) && LeafKeys(pages, lvl) && 0 < n <= i < |lvl|
    ensures EntriesFrom(PairsAt(pages, lvl[i].id), lvl[n - 1].hi)
  {
    assert LeafAt(pages, lvl, i);
    var b := PairsAt(pages, lvl[i].id);
    forall j | 0 <= j < |b|
      ensures lvl[n - 1].hi.At? && !Less(b[j].0, lvl[n - 1].hi.key)
    {
      assert InRange(lvl, i, b[j].0);
      if n < i { assert BoundLess(lvl[n - 1].hi, lvl[i - 1].hi); }
    }
  }

  /** Following the leaves left to right enumerates the entries in key order. */
  lemma EntriesInKeyOrder(pages: Pages, lvl: Level)
    requires Fenced(lvl) && LeafKeys(pages, lvl)
    ensures EntriesSorted(Entries(pages, lvl))
  {
    EntriesBelowFence(pages, lvl, |lvl|);
  }

  // ---------------------------------------------------------------------------------------
  // The map the entries stand for
  // ---------------------------------------------------------------------------------------

  ghost function MapOf(es: seq<Entry>): map<Key, Value> {
    if es == [] then map[]
    else MapOf(es[..|es| - 1])[es[|es| - 1].0 := es[|es| - 1].1]
  }

  lemma {:induction false} MapOfHas(es: seq<Entry>, i: nat)
    requires EntriesSorted(es) && i < |es|
    ensures es[i].0 in MapOf(es) && MapOf(es)[es[i].0] == es[i].1
  {
    if i < |es| - 1 {
      MapOfHas(es[..|es| - 1], i);
      assert Less(es[i].0, es[|es| - 1].0);
    }
  }

  lemma {:induction false} MapOfOnly(es: seq<Entry>, k: Key) returns (i: nat)
    requires k in MapOf(es)
    ensures i < |es| && es[i].0 == k
  {
    if k == es[|es| - 1].0 {
      i := |es| - 1;
    } else {
      i := MapOfOnly(es[..|es| - 1], k);
    }
  }

  /** `es'` is `es` with one entry put at `k`. */
  ghost predicate PutIn(es: seq<Entry>, es': seq<Entry>, k: Key, v: Value, i: nat) {
    && i < |es'| && i <= |es| && es'[i] == (k, v)
    && (es' == es[..i] + [(k, v)] + es[i..] || (i < |es| && es[i].0 == k && es' == es[i := (k, v)]))
  }

  lemma PutUpdatesMap(es: seq<Entry>, es': seq<Entry>, k: Key, v: Value, i: nat)
    requires EntriesSorted(es) && EntriesSorted(es')
    requires PutIn(es, es', k, v, i)
    ensures MapOf(es') == MapOf(es)[k := v]
  {
    var m, m' := MapOf(es), MapOf(es');
    MapOfHas(es', i);
    forall x | x in m
      ensures x in m' && (x != k ==> m'[x] == m[x])
    {
      var j := MapOfOnly(es, x);
      MapOfHas(es, j);
      if x != k {
        if |es'| == |es| || j < i { assert es'[j] == es[j]; MapOfHas(es', j); }
        else { assert es'[j + 1] == es[j]; MapOfHas(es', j + 1); }
      }
    }
    forall x | x in m'
      ensures x == k || x in m
    {
      var j := MapOfOnly(es', x);
      if j != i {
        if |es'| == |es| || j < i { assert es'[j] == es[j]; MapOfHas(es, j); }
        else { assert es'[j] == es[j - 1]; MapOfHas(es, j - 1); }
      }
    }
  }
}
