/**
 Reading the tree (pkg/bptree/bp_tree.go): where the entries of a leaf sit among all
 entries, and what that means for a lookup and for a scan along the sibling links.
 */
module Lookup {
  import opened Keys
  import opened Levels
  import opened TreeSteps
  import opened TreeMoves

  /** How many entries lie before leaf `c`. */
  ghost function EntryOffset(pages: Pages, lvl: Level, c: nat): nat
    requires c <= |lvl|
  {
    |EntrySpan(pages, lvl, 0, c)|
  }

  lemma EntryAt(pages: Pages, lvl: Level, c: nat, i: nat)
    requires c < |lvl| && i < |PairsAt(pages, lvl[c].id)|
    ensures EntryOffset(pages, lvl, c) + i < |Entries(pages, lvl)|
    ensures Entries(pages, lvl)[EntryOffset(pages, lvl, c) + i] == PairsAt(pages, lvl[c].id)[i]
  {
    EntriesAround(pages, lvl, c);
  }

  lemma EntryOffsetStep(pages: Pages, lvl: Level, c: nat)
    requires c < |lvl|
    ensures EntryOffset(pages, lvl, c + 1) == EntryOffset(pages, lvl, c) + |PairsAt(pages, lvl[c].id)| <= |Entries(pages, lvl)|
  {
    EntriesAround(pages, lvl, c);
  }

  /** A key that belongs to leaf `p` is among all entries only where leaf `p` has it. */
  lemma OnlyInItsLeaf(pages: Pages, lvl: Level, p: nat, k: Key, i: nat)
    requires Fenced(lvl) && LeafKeys(pages, lvl) && InRange(lvl, p, k)
    requires i < |Entries(pages, lvl)| && Entries(pages, lvl)[i].0 == k
    ensures EntryOffset(pages, lvl, p) <= i < EntryOffset(pages, lvl, p + 1)
  {
    var a, b := EntrySpan(pages, lvl, 0, p), EntrySpan(pages, lvl, p + 1, |lvl|);
    EntriesAround(pages, lvl, p);
    EntryOffsetStep(pages, lvl, p);
    EntriesBelowFence(pages, lvl, p);
    EntriesAboveFence(pages, lvl, p + 1, |lvl|);
    assert forall x :: 0 <= x < |a| ==> Under(a[x].0, lvl[p - 1].hi) && a[x].0 != k;
    assert forall x :: 0 <= x < |b| ==> b[x].0 != k;
  }

  /** Looking a key up in the leaf it belongs to is looking it up in the map. */
  lemma LeafLookup(pages: Pages, lvl: Level, p: nat, k: Key)
    requires Fenced(lvl) && LeafKeys(pages, lvl) && InRange(lvl, p, k)
    requires |pages[lvl[p].id].vals| == |pages[lvl[p].id].keys|
    ensures k in MapOf(Entries(pages, lvl)) <==> k in pages[lvl[p].id].keys
    ensures forall j :: 0 <= j < |pages[lvl[p].id].keys| && pages[lvl[p].id].keys[j] == k ==>
              k in MapOf(Entries(pages, lvl)) && MapOf(Entries(pages, lvl))[k] == pages[lvl[p].id].vals[j]
  {
    var n := pages[lvl[p].id];
    forall j | 0 <= j < |n.keys| && n.keys[j] == k
      ensures k in MapOf(Entries(pages, lvl)) && MapOf(Entries(pages, lvl))[k] == n.vals[j]
    {
      LeafKeyInMap(pages, lvl, p, j);
    }
    if k in MapOf(Entries(pages, lvl)) { MapKeyInLeaf(pages, lvl, p, k); }
  }

  lemma LeafKeyInMap(pages: Pages, lvl: Level, p: nat, j: nat)
    requires Fenced(lvl) && LeafKeys(pages, lvl) && p < |lvl|
    requires |pages[lvl[p].id].vals| == |pages[lvl[p].id].keys| > j
    ensures var k := pages[lvl[p].id].keys[j];
            k in MapOf(Entries(pages, lvl)) && MapOf(Entries(pages, lvl))[k] == pages[lvl[p].id].vals[j]
  {
    EntriesInKeyOrder(pages, lvl);
    EntryAt(pages, lvl, p, j);
    MapOfHas(Entries(pages, lvl), EntryOffset(pages, lvl, p) + j);
  }

  lemma MapKeyInLeaf(pages: Pages, lvl: Level, p: nat, k: Key)
    requires Fenced(lvl) && LeafKeys(pages, lvl) && InRange(lvl, p, k)
    requires |pages[lvl[p].id].vals| == |pages[lvl[p].id].keys| && k in MapOf(Entries(pages, lvl))
    ensures k in pages[lvl[p].id].keys
  {
    var i := MapOfOnly(Entries(pages, lvl), k);
    OnlyInItsLeaf(pages, lvl, p, k, i);
    EntryOffsetStep(pages, lvl, p);
    EntryAt(pages, lvl, p, i - EntryOffset(pages, lvl, p));
  }

  // ---------------------------------------------------------------------------------------
  // The textbook definition
  // ---------------------------------------------------------------------------------------

  ghost function LowerFence(lvl: Level, i: int): Bound {
    if 0 < i <= |lvl| then lvl[i - 1].hi else Inf
  }

  ghost predicate AtLeast(k: Key, lo: Bound) { lo.Inf? || !Less(k, lo.key) }

  ghost function ChildLo(n: Node, lo: Bound, j: int): Bound {
    if 0 < j <= |n.keys| then At(n.keys[j - 1]) else lo
  }

  ghost function ChildHi(n: Node, hi: Bound, j: int): Bound {
    if 0 <= j < |n.keys| then At(n.keys[j]) else hi
  }

  /**
   The B+ tree under page `id`, defined by recursion on its height: sorted keys between the
   bounds (`Inf` as a lower bound is no bound), child `j` bounded by the keys around it, all
   leaves at height 0, and the occupancy limits of ORDER and DEGREE.
   */
  ghost predicate Subtree(pages: Pages, id: PageId, h: nat, isRoot: bool, lo: Bound, hi: Bound)
    decreases h
  {
    && id in pages && pages[id].leaf == (h == 0)
    && var n := pages[id];
       && Sorted(n.keys)
       && (forall i :: 0 <= i < |n.keys| ==> AtLeast(n.keys[i], lo) && Under(n.keys[i], hi))
       && if h == 0 then
            |n.vals| == |n.keys| <= ORDER && (isRoot || DEGREE <= |n.keys|)
          else
            && |n.children| == |n.keys| + 1 && DEGREE - 1 <= |n.keys| <= ORDER - 1
            && forall j :: 0 <= j <= |n.keys| ==>
                 Subtree(pages, n.children[j], h - 1, false, ChildLo(n, lo, j), ChildHi(n, hi, j))
  }

  /** Every page of every level is the root of a B+ tree between its fences. */
  lemma {:induction false} LevelsAreSubtrees(pages: Pages, root: PageId, levels: seq<Level>, ht: map<PageId, nat>,
                                             d: nat, i: nat, h: nat)
    requires WellFormed(pages, root, levels, ht)
    requires d < |levels| && i < |levels[d]| && h == |levels| - 1 - d
    ensures Subtree(pages, levels[d][i].id, h, |levels[d]| == 1, LowerFence(levels[d], i), levels[d][i].hi)
    decreases h, 1
  {
    var lvl := levels[d];
    assert LevelOkAt(pages, levels, ht, d);
    var n := pages[lvl[i].id];
    if i > 0 { assert BoundLess(lvl[i - 1].hi, lvl[i].hi); }
    if h == 0 {
      assert LeafAt(pages, lvl, i);
      forall j | 0 <= j < |n.keys|
        ensures AtLeast(n.keys[j], LowerFence(lvl, i)) && Under(n.keys[j], lvl[i].hi)
      {
        assert InRange(lvl, i, n.keys[j]);
      }
    } else {
      InternalLevel(pages, levels, ht, d);
      assert ChainAt(pages, levels, d);
      assert LevelOkAt(pages, levels, ht, d + 1);
      InternalKeys(pages, lvl, i);
      forall j | 0 <= j <= |n.keys|
        ensures Subtree(pages, n.children[j], h - 1, false, ChildLo(n, LowerFence(lvl, i), j), ChildHi(n, lvl[i].hi, j))
      {
        ChildIsSubtree(pages, root, levels, ht, d, i, j, h);
      }
    }
  }

  lemma {:induction false} ChildIsSubtree(pages: Pages, root: PageId, levels: seq<Level>, ht: map<PageId, nat>,
                                          d: nat, i: nat, j: nat, h: nat)
    requires WellFormed(pages, root, levels, ht) && d < |levels| - 1 && i < |levels[d]| && AllInternal(pages, levels[d])
    requires j <= |pages[levels[d][i].id].keys| && h == |levels| - 1 - d
    ensures var n := pages[levels[d][i].id];
            Subtree(pages, n.children[j], h - 1, false,
                    ChildLo(n, LowerFence(levels[d], i), j), ChildHi(n, levels[d][i].hi, j))
    decreases h, 0
  {
    assert LevelOkAt(pages, levels, ht, d);
    assert ChainAt(pages, levels, d);
    var c := ChildPlace(pages, levels[d], levels[d + 1], i, j);
    LevelsAreSubtrees(pages, root, levels, ht, d + 1, c, h - 1);
  }

  /** Where child `j` of page `i` stands on the level below, and between which fences. */
  lemma ChildPlace(pages: Pages, lvl: Level, below: Level, i: nat, j: nat) returns (c: nat)
    requires AllInternal(pages, lvl) && below == Down(pages, lvl) && i < |lvl| && j <= |pages[lvl[i].id].keys|
    requires forall m :: 0 <= m < |lvl| ==> pages[lvl[m].id].keys != []
    ensures var n := pages[lvl[i].id];
            && 1 < |below| && c < |below| && below[c] == Item(n.children[j], ChildHi(n, lvl[i].hi, j))
            && LowerFence(below, c) == ChildLo(n, LowerFence(lvl, i), j)
  {
    var n := pages[lvl[i].id];
    c := Offset(pages, lvl, i) + j;
    ChildAt(pages, lvl, i, j);
    assert LowerFence(below, c) == ChildLo(n, LowerFence(lvl, i), j) by {
      if j > 0 { ChildAt(pages, lvl, i, j - 1); } else { FenceBefore(pages, lvl, i); }
    }
    assert |below| > 1 by { ChildAt(pages, lvl, i, if j == 0 then 1 else 0); }
  }

  /** A well-formed tree is a B+ tree in the textbook sense. */
  lemma WellFormedIsSubtree(pages: Pages, root: PageId, levels: seq<Level>, ht: map<PageId, nat>)
    requires WellFormed(pages, root, levels, ht)
    ensures Subtree(pages, root, |levels| - 1, true, Inf, Inf)
  {
    LevelsAreSubtrees(pages, root, levels, ht, 0, 0, |levels| - 1);
  }
}
