/**
 Walks along the sibling links of one level (pkg/bptree/bp_tree.go).
 */
module Siblings {
  import opened Levels
  import opened TreeSteps
  import opened BTree

  /** `ids` follows `right`, or `left`, from its first page until there is no sibling. */
  ghost predicate Walk(pages: Pages, ids: seq<PageId>, rightward: bool) {
    && ids != [] && ids[0] != 0
    && forall i :: 0 <= i < |ids| ==> WalkAt(pages, ids, rightward, i)
  }

  ghost predicate WalkAt(pages: Pages, ids: seq<PageId>, rightward: bool, i: nat)
    requires i < |ids|
  {
    && ids[i] in pages
    && (if rightward then pages[ids[i]].right else pages[ids[i]].left) == (if i + 1 < |ids| then ids[i + 1] else 0)
    && (i + 1 < |ids| ==> ids[i + 1] != 0)
  }

  lemma {:induction false} RightStep(pages: Pages, lvl: Level, ids: seq<PageId>, n: nat)
    requires Linked(pages, lvl) && lvl != [] && Walk(pages, ids, true) && ids[0] == lvl[0].id && n < |ids|
    ensures n < |lvl| && ids[n] == lvl[n].id
  {
    if n > 0 {
      RightStep(pages, lvl, ids, n - 1);
      assert WalkAt(pages, ids, true, n - 1) && LinkAt(pages, lvl, n - 1);
    }
  }

  lemma {:induction false} LeftStep(pages: Pages, lvl: Level, ids: seq<PageId>, n: nat)
    requires Linked(pages, lvl) && lvl != [] && Walk(pages, ids, false) && ids[0] == lvl[|lvl| - 1].id && n < |ids|
    ensures n < |lvl| && ids[n] == lvl[|lvl| - 1 - n].id
  {
    if n > 0 {
      LeftStep(pages, lvl, ids, n - 1);
      assert WalkAt(pages, ids, false, n - 1) && LinkAt(pages, lvl, |lvl| - n);
    }
  }

  /** Following `right` from the leftmost page of a level visits every page of it once, in key order. */
  lemma RightWalk(pages: Pages, root: PageId, levels: seq<Level>, ht: map<PageId, nat>, d: nat, ids: seq<PageId>)
    requires WellFormed(pages, root, levels, ht) && d < |levels|
    requires Walk(pages, ids, true) && ids[0] == IdAt(levels[d], 0)
    ensures |ids| == |levels[d]| && forall i :: 0 <= i < |ids| ==> ids[i] == levels[d][i].id
  {
    var lvl := levels[d];
    assert LevelOkAt(pages, levels, ht, d);
    forall i | 0 <= i < |ids| ensures i < |lvl| && ids[i] == lvl[i].id { RightStep(pages, lvl, ids, i); }
    var n := |ids| - 1;
    RightStep(pages, lvl, ids, n);
    assert WalkAt(pages, ids, true, n) && LinkAt(pages, lvl, n);
  }

  /** Following `left` from the rightmost page visits them in the opposite order. */
  lemma LeftWalk(pages: Pages, root: PageId, levels: seq<Level>, ht: map<PageId, nat>, d: nat, ids: seq<PageId>)
    requires WellFormed(pages, root, levels, ht) && d < |levels|
    requires Walk(pages, ids, false) && ids[0] == IdAt(levels[d], |levels[d]| - 1)
    ensures |ids| == |levels[d]| && forall i :: 0 <= i < |ids| ==> ids[i] == levels[d][|ids| - 1 - i].id
  {
    var lvl := levels[d];
    assert LevelOkAt(pages, levels, ht, d);
    forall i | 0 <= i < |ids| ensures i < |lvl| && ids[i] == lvl[|lvl| - 1 - i].id { LeftStep(pages, lvl, ids, i); }
    var n := |ids| - 1;
    LeftStep(pages, lvl, ids, n);
    assert WalkAt(pages, ids, false, n) && LinkAt(pages, lvl, |lvl| - 1 - n);
  }

  /** The entries of the pages visited. */
  ghost function Collected(pages: Pages, ids: seq<PageId>, n: nat): seq<Entry>
    requires n <= |ids|
  {
    if n == 0 then [] else Collected(pages, ids, n - 1) + PairsAt(pages, ids[n - 1])
  }

  lemma {:induction false} CollectedSpan(pages: Pages, lvl: Level, ids: seq<PageId>, n: nat)
    requires n <= |ids| == |lvl| && forall i :: 0 <= i < |ids| ==> ids[i] == lvl[i].id
    ensures Collected(pages, ids, n) == EntrySpan(pages, lvl, 0, n)
  {
    if n > 0 { CollectedSpan(pages, lvl, ids, n - 1); }
  }

  /** Following `right` from the leftmost leaf enumerates the map in key order. */
  lemma LeavesEnumerate(pages: Pages, root: PageId, levels: seq<Level>, ht: map<PageId, nat>, ids: seq<PageId>)
    requires WellFormed(pages, root, levels, ht) && Walk(pages, ids, true) && ids[0] == IdAt(Leaves(levels), 0)
    ensures EntriesSorted(Collected(pages, ids, |ids|)) && MapOf(Collected(pages, ids, |ids|)) == Held(pages, levels)
  {
    RightWalk(pages, root, levels, ht, |levels| - 1, ids);
    CollectedSpan(pages, Leaves(levels), ids, |ids|);
    assert LevelOkAt(pages, levels, ht, |levels| - 1);
    EntriesInKeyOrder(pages, Leaves(levels));
  }

  /** Such a walk exists on every level. */
  lemma WalkExists(pages: Pages, root: PageId, levels: seq<Level>, ht: map<PageId, nat>, d: nat) returns (ids: seq<PageId>)
    requires WellFormed(pages, root, levels, ht) && d < |levels|
    ensures Walk(pages, ids, true) && ids[0] == IdAt(levels[d], 0)
  {
    var lvl := levels[d];
    assert LevelOkAt(pages, levels, ht, d);
    ids := seq(|lvl|, i requires 0 <= i < |lvl| => lvl[i].id);
    forall i | 0 <= i < |ids| ensures WalkAt(pages, ids, true, i) {
      assert LinkAt(pages, lvl, i);
    }
  }
}
