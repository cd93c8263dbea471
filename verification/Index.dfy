/**
 The index object (pkg/bptree/bp_tree.go): `InsertValue`, `Get` and `RangeSearch`, proved
 against the map the leaves hold.
 */
module Index {
  import opened Keys
  import opened Levels
  import opened TreeSteps
  import opened TreeMoves
  import opened BTree
  import opened Lookup
  import opened RangeScan

  /** Outcome of a leaf insertion: `newId` is 0 unless the leaf was split. */
  datatype SplitResponse = SplitResponse(sep: Key, newId: PageId)

  /** `InvalidNode` is the panic of `search`. */
  datatype GetResult = Found(val: Value) | NotFound | NotInitialized | InvalidNode

  // ---------------------------------------------------------------------------------------
  // The breadcrumb trail
  // ---------------------------------------------------------------------------------------

  ghost predicate CrumbAt(pages: Pages, levels: seq<Level>, pos: seq<nat>, s: seq<TraversePath>, e: int) {
    && 0 <= e < |s| && e + 1 < |pos| && e < |levels| - 1
    && pos[e] < |levels[e]| && s[e].id == levels[e][pos[e]].id
    && s[e].id in pages && s[e].node == pages[s[e].id] && s[e].idx <= |s[e].node.keys|
    && pos[e + 1] == Offset(pages, levels[e], pos[e]) + s[e].idx
  }

  /** The stack holds the current contents of the pages on the path to `pos`. */
  ghost predicate Crumbs(pages: Pages, levels: seq<Level>, pos: seq<nat>, s: seq<TraversePath>) {
    |pos| == |s| + 1 <= |levels| && forall e :: 0 <= e < |s| ==> CrumbAt(pages, levels, pos, s, e)
  }

  /** Changes at or below the last crumb's child leave the trail valid. */
  lemma CrumbsFrame(pages: Pages, pages': Pages, levels: seq<Level>, levels': seq<Level>, pos: seq<nat>, s: seq<TraversePath>)
    requires Crumbs(pages, levels, pos, s) && |levels'| == |levels|
    requires forall e :: 0 <= e < |s| ==> levels'[e] == levels[e]
    requires forall e :: 0 <= e < |s| ==> SameOn(pages, pages', levels[e])
    ensures Crumbs(pages', levels', pos, s)
  {
    forall e | 0 <= e < |s|
      ensures CrumbAt(pages', levels', pos, s, e)
    {
      assert CrumbAt(pages, levels, pos, s, e);
      assert SameOn(pages, pages', levels[e]);
      DownFrame(pages, pages', levels[e], levels[e], 0, pos[e]);
    }
  }

  lemma CrumbsPop(pages: Pages, levels: seq<Level>, pos: seq<nat>, s: seq<TraversePath>)
    requires Crumbs(pages, levels, pos, s) && s != []
    ensures Crumbs(pages, levels, pos[..|s|], s[..|s| - 1])
  {
    var pos', s' := pos[..|s|], s[..|s| - 1];
    forall e | 0 <= e < |s'|
      ensures CrumbAt(pages, levels, pos', s', e)
    {
      assert CrumbAt(pages, levels, pos, s, e);
    }
  }

  lemma CrumbsPush(pages: Pages, levels: seq<Level>, pos: seq<nat>, s: seq<TraversePath>, t: TraversePath, p: nat)
    requires Crumbs(pages, levels, pos, s) && CrumbAt(pages, levels, pos + [p], s + [t], |s|)
    ensures Crumbs(pages, levels, pos + [p], s + [t])
  {
    var pos', s' := pos + [p], s + [t];
    forall e | 0 <= e < |s'|
      ensures CrumbAt(pages, levels, pos', s', e)
    {
      if e < |s| { assert CrumbAt(pages, levels, pos, s, e); }
    }
  }

  lemma CrumbStep(pages: Pages, levels: seq<Level>, pos: seq<nat>, s: seq<TraversePath>, id: PageId, k: Key, j: nat)
    requires Crumbs(pages, levels, pos, s) && Standing(pages, levels, |s|, pos[|s|], id, k)
    requires |s| < |levels| - 1 && j <= |pages[id].keys|
    ensures Crumbs(pages, levels, pos + [Offset(pages, levels[|s|], pos[|s|]) + j], s + [TraversePath(id, pages[id], j)])
  {
    CrumbsPush(pages, levels, pos, s, TraversePath(id, pages[id], j), Offset(pages, levels[|s|], pos[|s|]) + j);
  }

  /** After a leaf was reached: either the tree is whole, or a split waits at the end of the trail. */
  ghost predicate Landed(pages: Pages, root: PageId, levels: seq<Level>, ht: map<PageId, nat>,
                         res: SplitResponse, pos: seq<nat>, s: seq<TraversePath>)
  {
    if res.newId == 0 then WellFormed(pages, root, levels, ht)
    else
      && |levels| == |pos| && Crumbs(pages, levels, pos, s)
      && Pending(pages, root, levels, ht, |s|, pos[|s|], res.sep, res.newId)
  }

  // ---------------------------------------------------------------------------------------
  // One step down
  // ---------------------------------------------------------------------------------------

  /** `p` is the page of depth `d` that `k` belongs to, and `id` its id. */
  ghost predicate Standing(pages: Pages, levels: seq<Level>, d: nat, p: nat, id: PageId, k: Key) {
    d < |levels| && InRange(levels[d], p, k) && levels[d][p].id == id && id in pages && id != 0
  }

  lemma RootStanding(pages: Pages, root: PageId, levels: seq<Level>, ht: map<PageId, nat>, k: Key)
    requires WellFormed(pages, root, levels, ht)
    ensures Standing(pages, levels, 0, 0, root, k)
  {
    assert LevelOkAt(pages, levels, ht, 0);
  }

  /** Internal pages carry sorted keys, leaves carry sorted keys: every page can be searched. */
  lemma PageShape(pages: Pages, root: PageId, levels: seq<Level>, ht: map<PageId, nat>, d: nat, p: nat, id: PageId, k: Key)
    requires WellFormed(pages, root, levels, ht) && Standing(pages, levels, d, p, id, k)
    ensures Sorted(pages[id].keys)
    ensures pages[id].leaf <==> d == |levels| - 1
    ensures pages[id].leaf ==> |pages[id].vals| == |pages[id].keys| <= ORDER && pages[id].children == []
    ensures !pages[id].leaf ==> |pages[id].children| == |pages[id].keys| + 1 && pages[id].keys != [] && |pages[id].keys| <= ORDER - 1
    ensures pages[id].keys == [] ==> |levels| == 1
  {
    assert LevelOkAt(pages, levels, ht, d);
    if d == |levels| - 1 {
      assert LeafAt(pages, levels[d], p);
      if pages[id].keys == [] { OneLeaf(pages, root, levels, ht); }
    } else {
      InternalLevel(pages, levels, ht, d);
      assert ChainAt(pages, levels, d);
      assert LevelOkAt(pages, levels, ht, d + 1);
      InternalKeys(pages, levels[d], p);
    }
  }

  /** Only a tree of one level can have a leaf level of one page. */
  lemma OneLeaf(pages: Pages, root: PageId, levels: seq<Level>, ht: map<PageId, nat>)
    requires WellFormed(pages, root, levels, ht) && |Leaves(levels)| == 1
    ensures |levels| == 1
  {
    if |levels| > 1 {
      var d := |levels| - 2;
      InternalLevel(pages, levels, ht, d);
      assert ChainAt(pages, levels, d);
      assert LevelOkAt(pages, levels, ht, d);
      ChildAt(pages, levels[d], 0, 1);
      assert false;
    }
  }

  lemma StepDown(pages: Pages, root: PageId, levels: seq<Level>, ht: map<PageId, nat>, d: nat, p: nat, id: PageId, k: Key, j: nat)
    requires WellFormed(pages, root, levels, ht) && Standing(pages, levels, d, p, id, k)
    requires d < |levels| - 1 && ChildFor(pages[id], k, j) && |pages[id].children| == |pages[id].keys| + 1
    ensures Standing(pages, levels, d + 1, Offset(pages, levels[d], p) + j, pages[id].children[j], k)
  {
    InternalLevel(pages, levels, ht, d);
    assert ChainAt(pages, levels, d);
    assert LevelOkAt(pages, levels, ht, d + 1);
    Descend(pages, levels[d], p, k, j);
    ChildAt(pages, levels[d], p, j);
  }

  /** What the binary search tells an internal page: the child to follow. */
  lemma SlotChild(n: Node, k: Key, idx: nat)
    requires n.keys != [] && Sorted(n.keys) && IsSlot(n.keys, k, idx)
    ensures ChildFor(n, k, if Less(k, n.keys[idx]) then idx else idx + 1)
  {
    if !Less(k, n.keys[idx]) && idx + 1 < |n.keys| { assert Less(n.keys[idx], n.keys[idx + 1]); }
    if !Less(n.keys[idx], k) { LessIsLexicographic(k, n.keys[idx]); }
  }

  /** What the binary search tells a leaf: where the key is, or where it would go. */
  lemma SlotLeaf(n: Node, k: Key, idx: nat)
    requires n.keys != [] && Sorted(n.keys) && IsSlot(n.keys, k, idx)
    ensures k in n.keys <==> n.keys[idx] == k
    ensures n.keys[idx] != k ==>
              var i := if Less(k, n.keys[idx]) then idx else idx + 1;
              IsLowerBound(n.keys, k, i) && (i < |n.keys| ==> k != n.keys[i])
  {
    LessIsLexicographic(k, n.keys[idx]);
  }

  // ---------------------------------------------------------------------------------------
  // The index
  // ---------------------------------------------------------------------------------------

  lemma {:induction false} FreshId(used: set<PageId>) returns (id: PageId)
    ensures id > 0 && forall x :: x in used ==> x < id
  {
    if used == {} {
      id := 1;
    } else {
      var y :| y in used;
      var m := FreshId(used - {y});
      id := if m <= y then y + 1 else m;
      forall x | x in used
        ensures x < id
      {
        assert x == y || x in used - {y};
      }
    }
  }

  /** The three ways `insert` changes a leaf: before the slot, at the slot, after it. */
  method WithEntry(node: Node, key: Key, val: Value, idx: nat) returns (n: Node, ghost at: nat)
    requires node.leaf && |node.vals| == |node.keys| && node.keys != [] && Sorted(node.keys)
    requires IsSlot(node.keys, key, idx)
    ensures LeafPutAt(node, n, key, val, at)
    ensures |n.keys| == if key in node.keys then |node.keys| else |node.keys| + 1
  {
    SlotLeaf(node, key, idx);
    if Compare(key, node.keys[idx]) == -1 {
      var ks := InsertToList(node.keys, idx, key);
      var vs := InsertToList(node.vals, idx, val);
      n := node.(keys := ks.list, vals := vs.list);
      at := idx;
      LeafInsert(node, key, val, at);
    } else if Compare(key, node.keys[idx]) == 0 {
      n := node.(keys := node.keys[idx := key], vals := node.vals[idx := val]);
      at := idx;
      LeafReplace(node, key, val, at);
    } else {
      var ks := InsertToList(node.keys, idx + 1, key);
      var vs := InsertToList(node.vals, idx + 1, val);
      n := node.(keys := ks.list, vals := vs.list);
      at := idx + 1;
      LeafInsert(node, key, val, at);
    }
  }

  /** Where an overfull leaf is split. */
  lemma LeafSite(pages: Pages, root: PageId, levels: seq<Level>, ht: map<PageId, nat>, id: PageId, n: Node, k: Key, v: Value, at: nat, p: nat)
    requires WellFormed(pages, root, levels, ht) && Standing(pages, levels, |levels| - 1, p, id, k)
    requires LeafPutAt(pages[id], n, k, v, at) && |n.keys| == ORDER + 1
    ensures LevelsOk(pages, levels, ht) && levels != [] && p < |Leaves(levels)| && id == Leaves(levels)[p].id && id in pages
    ensures LeafLeft(n).left == pages[id].left && LeafLeft(n).right == pages[id].right && LeafRight(n).keys != []
  {
  }

  /** Where a full parent is split. */
  lemma InternalSite(pages: Pages, root: PageId, levels: seq<Level>, ht: map<PageId, nat>, d: nat, p: nat, sep: Key, newId: PageId,
                     q: nat, parent: TraversePath, n: Node)
    requires PendingAt(pages, root, levels, ht, d, p, sep, newId, q, parent.idx)
    requires parent.id == levels[d - 1][q].id && parent.node == pages[parent.id]
    requires |parent.node.keys| == ORDER - 1 && |parent.node.children| == ORDER && n == Absorb(parent.node, parent.idx, sep, newId)
    ensures LevelsOk(pages, levels, ht) && d <= |levels| && q < |levels[d - 1]| && parent.id in pages
    ensures |n.keys| == ORDER && |n.children| == ORDER + 1
    ensures InternalLeft(n).left == pages[parent.id].left && InternalLeft(n).right == pages[parent.id].right
  {
    AbsorbGrows(parent.node, parent.idx, sep, newId);
  }

  lemma AbsorbGrows(n: Node, j: nat, sep: Key, newId: PageId)
    requires j <= |n.keys| == ORDER - 1 && |n.children| == ORDER
    ensures var r := Absorb(n, j, sep, newId);
            && |r.keys| == ORDER && |r.children| == ORDER + 1
            && InternalLeft(r).left == n.left && InternalLeft(r).right == n.right
  {
  }

  /** One step of a descent: the search in an internal page picks the child whose keys may contain `key`. */
  method NextChild(pages: Pages, id: PageId, key: Key, ghost root: PageId, ghost levels: seq<Level>, ghost ht: map<PageId, nat>,
                   ghost d: nat, ghost p: nat)
    returns (next: PageId, ghost q: nat)
    requires WellFormed(pages, root, levels, ht) && Standing(pages, levels, d, p, id, key) && !pages[id].leaf
    ensures Standing(pages, levels, d + 1, q, next, key) && (pages[next].leaf <==> d + 1 == |levels| - 1)
  {
    var node := pages[id];
    PageShape(pages, root, levels, ht, d, p, id, key);
    var idx := InsertBinarySearch(node.keys, key, 0);
    SlotChild(node, key, idx);
    var child := if Compare(key, node.keys[idx]) == -1 then idx else idx + 1;
    StepDown(pages, root, levels, ht, d, p, id, key, child);
    next, q := node.children[child], Offset(pages, levels[d], p) + child;
    PageShape(pages, root, levels, ht, d + 1, q, next, key);
  }

  /** The range scan from the leaf where `minKey` belongs. */
  method SearchLeaf(pages: Pages, id: PageId, minKey: Key, maxKey: Key, count: int,
                    ghost root: PageId, ghost levels: seq<Level>, ghost ht: map<PageId, nat>, ghost p: nat)
    returns (r: ScanResult, ghost s: nat, ghost t: nat)
    requires WellFormed(pages, root, levels, ht) && Standing(pages, levels, |levels| - 1, p, id, minKey) && pages[id].keys != []
    ensures minKey !in Held(pages, levels) ==> r == MinKeyNotFound
    ensures minKey in Held(pages, levels) ==>
              var es := Entries(pages, Leaves(levels));
              && s + t <= |es| && IsTailOf(pages, Leaves(levels), p, s, t) && es[s].0 == minKey
              && r == Items(es[s..s + ScanLength(es, s, t, maxKey, count)])
              && FromMin(Held(pages, levels), minKey, r.items) && (maxKey == [] ==> |r.items| == Unbounded(|es| - s, t, count))
  {
    s, t := 0, 0;
    var node := pages[id];
    assert Sorted(node.keys) by { PageShape(pages, root, levels, ht, |levels| - 1, p, id, minKey); }
    var idx := InsertBinarySearch(node.keys, minKey, 0);
    SlotInMap(pages, root, levels, ht, p, id, minKey, idx);
    if Compare(minKey, node.keys[idx]) != 0 {
      r := MinKeyNotFound;
      return;
    }
    r, s, t := ScanFrom(pages, id, idx, maxKey, count, levels, ht, p);
    AnswerFromMin(pages, root, levels, ht, Entries(pages, Leaves(levels)), s, r.items, minKey);
  }

  lemma AnswerFromMin(pages: Pages, root: PageId, levels: seq<Level>, ht: map<PageId, nat>, es: seq<Entry>, s: nat, items: seq<Entry>, min: Key)
    requires WellFormed(pages, root, levels, ht) && es == Entries(pages, Leaves(levels))
    requires 0 < |items| && s + |items| <= |es| && items == es[s..s + |items|] && es[s].0 == min
    ensures FromMin(Held(pages, levels), min, items)
  {
    LeavesSorted(pages, root, levels, ht, es);
    StretchFromMin(es, s, |items|, items, Held(pages, levels), min, es[s + |items| - 1].0);
  }

  /** How many of `rest` entries, `t` of them on the first leaf, a scan without a bound answers: `count`, but one more than the first leaf at least. */
  ghost function Unbounded(rest: int, t: nat, count: int): int {
    if rest <= t then rest else if rest <= count then rest else if count > t then count else t + 1
  }

  class Index {
    var root: PageId
    var pages: Pages
    /** The pages by depth, and their heights above the leaves. */
    ghost var levels: seq<Level>
    ghost var ht: map<PageId, nat>

    ghost predicate Valid()
      reads this
    {
      if root == 0 then pages == map[] && levels == [] else WellFormed(pages, root, levels, ht)
    }

    /** The map the tree stands for. */
    ghost function Contents(): map<Key, Value>
      reads this
    {
      if levels == [] then map[] else Held(pages, levels)
    }

    /** The root page exists and holds no key: only deletions could leave it so. */
    ghost predicate EmptyRoot()
      reads this
    {
      root != 0 && root in pages && pages[root].keys == []
    }

    constructor ()
      ensures Valid() && Contents() == map[] && !EmptyRoot()
    {
      root, pages, levels, ht := 0, map[], [], map[];
    }

    /** Page allocation: any id that no live page has. */
    method NewPageId() returns (id: PageId)
      ensures id != 0 && id !in pages
    {
      assert exists i: PageId :: i != 0 && i !in pages by {
        var i := FreshId(pages.Keys);
        assert i !in pages;
      }
      id :| id != 0 && id !in pages;
    }

    /**
     The page writes of a split: right half, left half, and the back link of the old right
     sibling, in the order in which a leaf split syncs its frames.
     */
    method WriteSplit(id: PageId, left: Node, right: Node, sep: Key, ghost d: nat, ghost p: nat) returns (newId: PageId)
      requires LevelsOk(pages, levels, ht) && d < |levels| && p < |levels[d]| && id == levels[d][p].id
      requires id in pages && left.left == pages[id].left && left.right == pages[id].right
      modifies `pages, `levels, `ht
      ensures newId != 0 && newId !in old(pages)
      ensures pages == SplitPages(old(pages), id, left, newId, right)
      ensures levels == old(levels)[d := Cut(old(levels)[d], p, sep, newId)]
      ensures ht == old(ht)[newId := |levels| - 1 - d]
    {
      newId := NewPageId();
      SplitSite(pages, levels, ht, d, p);
      var next := left.right;
      var newRight := right.(left := id, right := next);
      var newLeft := left.(right := newId);
      if next > 0 {
        var oldRight := pages[next].(left := newId);
        pages := pages[newId := newRight];
        pages := pages[id := newLeft];
        pages := pages[next := oldRight];
      } else {
        pages := pages[newId := newRight];
        pages := pages[id := newLeft];
      }
      levels := levels[d := Cut(levels[d], p, sep, newId)];
      ht := ht[newId := |levels| - 1 - d];
    }

    /** The first branch of `insert`: a page without keys. */
    method PutInEmptyLeaf(id: PageId, node: Node, key: Key, val: Value, ghost p: nat)
      requires root != 0 && Valid() && node.keys == [] && node.vals == []
      requires Standing(pages, levels, |levels| - 1, p, id, key) && node == pages[id]
      modifies `pages
      ensures Valid() && Contents() == old(Contents())[key := val]
    {
      PageShape(pages, root, levels, ht, |levels| - 1, p, id, key);
      var n := node.(keys := node.keys + [key], vals := node.vals + [val]);
      LeafInsert(node, key, val, 0);
      assert InsertAt(node.keys, 0, key) == n.keys && InsertAt(node.vals, 0, val) == n.vals;
      PutMove(pages, root, levels, ht, p, n, key, val, 0, pages[id := n]);
      pages := pages[id := n];
    }

    /**
     `insert`: on an internal page push a breadcrumb and answer the child to follow; on a leaf
     put the entry, splitting the leaf when it overflows, and answer 0.
     */
    method InsertInto(id: PageId, node: Node, key: Key, val: Value, st: BTStack, ghost d: nat, ghost p: nat)
      returns (next: PageId, res: SplitResponse, ghost j: nat)
      requires root != 0 && Valid() && st.Valid()
      requires Standing(pages, levels, d, p, id, key) && node == pages[id]
      modifies this, st
      ensures root == old(root) && st.Valid()
      ensures d < old(|levels|) - 1 ==>
                && Valid() && pages == old(pages) && levels == old(levels) && ht == old(ht) && next != 0 && res.newId == 0
                && j <= |node.keys| && |node.children| == |node.keys| + 1 && next == node.children[j]
                && Standing(pages, levels, d + 1, Offset(pages, levels[d], p) + j, next, key)
                && st.Contents() == old(st.Contents()) + [TraversePath(id, node, j)]
      ensures d == old(|levels|) - 1 ==>
                && next == 0 && st.Contents() == old(st.Contents()) && |levels| == old(|levels|)
                && Contents() == old(Contents())[key := val]
                && (res.newId == 0 ==> Valid())
                && (res.newId != 0 ==>
                      && Pending(pages, root, levels, ht, d, p, res.sep, res.newId)
                      && (forall e :: 0 <= e < d ==> levels[e] == old(levels)[e] && SameOn(old(pages), pages, levels[e])))
    {
      PageShape(pages, root, levels, ht, d, p, id, key);
      res, j := SplitResponse([], 0), 0;
      if |node.keys| <= 0 && |node.vals| <= 0 {
        PutInEmptyLeaf(id, node, key, val, p);
        next := 0;
        return;
      }

      var idx := InsertBinarySearch(node.keys, key, 0);
      if node.leaf {
        next, res := PutInLeaf(id, node, key, val, idx, p);
      } else {
        SlotChild(node, key, idx);
        var child := if Compare(key, node.keys[idx]) == -1 then idx else idx + 1;
        StepDown(pages, root, levels, ht, d, p, id, key, child);
        st.Add(TraversePath(id, node, child));
        next, j := node.children[child], child;
      }
    }

    /** The overflow branch of `insert`: the upper half of the leaf moves to a new page. */
    method SplitLeaf(id: PageId, n: Node, key: Key, val: Value, ghost at: nat, ghost p: nat) returns (res: SplitResponse)
      requires root != 0 && Valid()
      requires Standing(pages, levels, |levels| - 1, p, id, key)
      requires LeafPutAt(pages[id], n, key, val, at) && |n.keys| == ORDER + 1
      modifies this
      ensures root == old(root) && |levels| == old(|levels|)
      ensures Contents() == old(Contents())[key := val]
      ensures Pending(pages, root, levels, ht, |levels| - 1, p, res.sep, res.newId) && res.newId != 0
      ensures forall e :: 0 <= e < |levels| - 1 ==> levels[e] == old(levels)[e] && SameOn(old(pages), pages, levels[e])
    {
      var right := LeafRight(n);
      ghost var before, lvls, hts := pages, levels, ht;
      LeafSite(pages, root, levels, ht, id, n, key, val, at, p);
      var newId := WriteSplit(id, LeafLeft(n), right, right.keys[0], |levels| - 1, p);
      LeafSplitMove(before, root, lvls, hts, p, n, key, val, at, newId, pages, levels, ht);
      res := SplitResponse(right.keys[0], newId);
    }

    /** The leaf branch of `insert`. */
    method PutInLeaf(id: PageId, node: Node, key: Key, val: Value, idx: nat, ghost p: nat)
      returns (next: PageId, res: SplitResponse)
      requires root != 0 && Valid() && node.leaf && node.keys != []
      requires Standing(pages, levels, |levels| - 1, p, id, key) && node == pages[id]
      requires IsSlot(node.keys, key, idx)
      modifies this
      ensures root == old(root) && next == 0 && |levels| == old(|levels|)
      ensures Contents() == old(Contents())[key := val]
      ensures res.newId == 0 ==> Valid()
      ensures res.newId != 0 ==>
                && Pending(pages, root, levels, ht, |levels| - 1, p, res.sep, res.newId)
                && (forall e :: 0 <= e < |levels| - 1 ==> levels[e] == old(levels)[e] && SameOn(old(pages), pages, levels[e]))
    {
      PageShape(pages, root, levels, ht, |levels| - 1, p, id, key);
      var n, at := WithEntry(node, key, val, idx);
      next := 0;
      if |n.keys| > ORDER {
        res := SplitLeaf(id, n, key, val, at, p);
      } else {
        PutMove(pages, root, levels, ht, p, n, key, val, at, pages[id := n]);
        pages := pages[id := n];
        res := SplitResponse([], 0);
      }
    }

    /**
     One turn of the split propagation: the parent takes the separator and the new child, and
     is split in turn when it overflows.
     */
    method PropagateTo(parent: TraversePath, pending: SplitResponse, ghost d: nat, ghost p: nat, ghost q: nat)
      returns (res: SplitResponse)
      requires root != 0 && d > 0 && PendingAt(pages, root, levels, ht, d, p, pending.sep, pending.newId, q, parent.idx)
      requires parent.id == levels[d - 1][q].id && parent.node == pages[parent.id]
      modifies this
      ensures root == old(root) && Contents() == old(Contents()) && |levels| == old(|levels|)
      ensures res.newId == 0 ==> Valid()
      ensures res.newId != 0 ==>
                && Pending(pages, root, levels, ht, d - 1, q, res.sep, res.newId)
                && (forall e :: 0 <= e < d - 1 ==> levels[e] == old(levels)[e] && SameOn(old(pages), pages, levels[e]))
    {
      ParentShape(pages, root, levels, ht, d, p, pending.sep, pending.newId, q, parent.idx);
      var n := Absorb(parent.node, parent.idx, pending.sep, pending.newId);
      if |n.keys| > ORDER - 1 {
        res := SplitInternal(parent, n, pending, d, p, q);
      } else {
        AbsorbMove(pages, root, levels, ht, d, p, pending.sep, pending.newId, q, parent.idx, pages[parent.id := n]);
        pages := pages[parent.id := n];
        res := SplitResponse([], 0);
      }
    }

    /** The overflow branch of the propagation. */
    method SplitInternal(parent: TraversePath, n: Node, pending: SplitResponse, ghost d: nat, ghost p: nat, ghost q: nat)
      returns (res: SplitResponse)
      requires root != 0 && d > 0 && PendingAt(pages, root, levels, ht, d, p, pending.sep, pending.newId, q, parent.idx)
      requires parent.id == levels[d - 1][q].id && parent.node == pages[parent.id]
      requires |parent.node.keys| == ORDER - 1 && |parent.node.children| == ORDER
      requires n == Absorb(parent.node, parent.idx, pending.sep, pending.newId)
      modifies this
      ensures root == old(root) && Contents() == old(Contents()) && |levels| == old(|levels|) && res.newId != 0
      ensures Pending(pages, root, levels, ht, d - 1, q, res.sep, res.newId)
      ensures forall e :: 0 <= e < d - 1 ==> levels[e] == old(levels)[e] && SameOn(old(pages), pages, levels[e])
    {
      ghost var before, lvls, hts := pages, levels, ht;
      InternalSite(pages, root, levels, ht, d, p, pending.sep, pending.newId, q, parent, n);
      var newId := WriteSplit(parent.id, InternalLeft(n), InternalRight(n), Promoted(n), d - 1, q);
      InternalSplitMove(before, root, lvls, hts, d, p, pending.sep, pending.newId, q, parent.idx, n, newId, pages, levels, ht);
      res := SplitResponse(Promoted(n), newId);
    }

    /** No parent left: a new root over the two halves of the old one. */
    method GrowRoot(pending: SplitResponse, ghost p: nat)
      requires root != 0 && Pending(pages, root, levels, ht, 0, p, pending.sep, pending.newId)
      modifies this
      ensures root != 0 && Valid() && Contents() == old(Contents()) && |levels| > 1
    {
      var id := NewPageId();
      ghost var pages' := pages[id := Node(false, [pending.sep], [], [root, pending.newId], 0, 0)];
      ghost var levels' := [[Item(id, Inf)]] + levels;
      RootMove(pages, root, levels, ht, pending.sep, pending.newId, id, pages', levels', ht[id := |levels|]);
      assert Leaves(levels') == Leaves(levels) && LevelOkAt(pages, levels, ht, |levels| - 1);
      RootEntries(pages, Leaves(levels), id, pages');
      pages := pages[id := Node(false, [pending.sep], [], [root, pending.newId], 0, 0)];
      ht := ht[id := |levels|];
      levels := levels';
      root := id;
    }

    /** The descent of one insertion, down to and including its leaf. */
    method DescendAndPut(key: Key, val: Value, st: BTStack) returns (res: SplitResponse, ghost pos: seq<nat>)
      requires root != 0 && Valid() && st.Valid() && st.Contents() == []
      modifies this, st
      ensures root == old(root) && st.Valid() && Contents() == old(Contents())[key := val]
      ensures Landed(pages, root, levels, ht, res, pos, st.Contents())
    {
      var id := root;
      pos := [0];
      res := SplitResponse([], 0);
      RootStanding(pages, root, levels, ht, key);
      while id != 0
        invariant root == old(root) && root != 0 && st.Valid()
        invariant id != 0 ==> Contents() == old(Contents()) && On(id, key, st, pos)
        invariant id == 0 ==>
                    Contents() == old(Contents())[key := val] && Landed(pages, root, levels, ht, res, pos, st.Contents())
        decreases if id == 0 then 0 else |levels| - |pos| + 1
      {
        id, res, pos := InsertStep(id, key, val, st, pos);
      }
    }

    /** The descent stands at page `id`, with the breadcrumbs of the pages above it. */
    ghost predicate On(id: PageId, key: Key, st: BTStack, pos: seq<nat>)
      reads this, st
    {
      && root != 0 && Valid() && st.Valid() && Crumbs(pages, levels, pos, st.Contents())
      && Standing(pages, levels, st.count, pos[st.count], id, key)
    }

    /** One turn of the descent: down to a child, or into the leaf. */
    method InsertStep(id: PageId, key: Key, val: Value, st: BTStack, ghost pos: seq<nat>)
      returns (next: PageId, res: SplitResponse, ghost pos': seq<nat>)
      requires On(id, key, st, pos)
      modifies this, st
      ensures root == old(root) && st.Valid()
      ensures next != 0 ==> On(next, key, st, pos') && Contents() == old(Contents()) && |pos'| == |pos| + 1 && levels == old(levels)
      ensures next == 0 ==>
                Contents() == old(Contents())[key := val] && Landed(pages, root, levels, ht, res, pos', st.Contents())
    {
      ghost var d, p := st.count, pos[st.count];
      ghost var before, lvls, crumbs := pages, levels, st.Contents();
      var node := pages[id];
      ghost var j: nat;
      pos' := pos;
      next, res, j := InsertInto(id, node, key, val, st, d, p);
      if d < |lvls| - 1 {
        CrumbStep(pages, levels, pos, crumbs, id, key, j);
        pos' := pos + [Offset(pages, levels[d], p) + j];
      } else if res.newId != 0 {
        CrumbsFrame(before, pages, lvls, levels, pos, crumbs);
      }
    }

    /** Propagates a split until some parent has room or the tree has grown by one level. */
    method Propagate(first: SplitResponse, st: BTStack, ghost trail: seq<nat>)
      requires root != 0 && st.Valid() && first.newId != 0
      requires Landed(pages, root, levels, ht, first, trail, st.Contents())
      modifies this, st
      ensures root != 0 && Valid() && st.Valid() && Contents() == old(Contents())
    {
      var pending := first;
      ghost var pos := trail;
      while pending.newId != 0
        invariant root != 0 && st.Valid() && Contents() == old(Contents())
        invariant pending.newId == 0 ==> Valid()
        invariant pending.newId != 0 ==>
                    && Crumbs(pages, levels, pos, st.Contents())
                    && Pending(pages, root, levels, ht, st.count, pos[st.count], pending.sep, pending.newId)
        decreases if pending.newId == 0 then 0 else |pos|
      {
        ghost var crumbs := st.Contents();
        if st.count > 0 {
          var popped := st.Pop();
          var parent := popped.value;
          ghost var d, before, lvls := |crumbs|, pages, levels;
          assert crumbs[d - 1] == parent && CrumbAt(pages, levels, pos, crumbs, d - 1);
          CrumbsPop(pages, levels, pos, crumbs);
          assert st.Contents() == crumbs[..d - 1];
          pending := PropagateTo(parent, pending, d, pos[d], pos[d - 1]);
          pos := pos[..d];
          if pending.newId != 0 {
            CrumbsFrame(before, pages, lvls, levels, pos, st.Contents());
          }
        } else {
          GrowRoot(pending, pos[0]);
          pending := SplitResponse([], 0);
        }
      }
    }

    /** The first entry of an empty store. */
    method FirstRoot(key: Key, val: Value)
      requires Valid() && root == 0
      modifies this
      ensures Valid() && root != 0 && Contents() == map[key := val]
    {
      var id := NewPageId();
      FirstLeaf(id, key, val);
      pages := pages[id := Node(true, [key], [val], [], 0, 0)];
      levels, ht := [[Item(id, Inf)]], map[id := 0];
      root := id;
    }

    /** One key of `InsertValue`. */
    method InsertOne(key: Key, val: Value)
      requires Valid()
      modifies this
      ensures Valid() && root != 0 && Contents() == old(Contents())[key := val] && !EmptyRoot()
    {
      var st := new BTStack();
      if root == 0 {
        FirstRoot(key, val);
      } else {
        var res, pos := DescendAndPut(key, val, st);
        if res.newId != 0 {
          Propagate(res, st, pos);
        }
        if st.count > 0 { st.Clear(); }
      }
      HeldKeyInRoot(pages, root, levels, ht, key);
    }

    /**
     `InsertValue`: every given key is in the index with the last value given for it, and every other key keeps its value.
     */
    method InsertValue(keys: seq<Key>, vals: seq<Value>)
      requires Valid() && |keys| <= |vals|
      modifies this
      ensures Valid()
      ensures forall k :: k in Contents() <==> k in old(Contents()) || k in keys
      ensures forall i :: 0 <= i < |keys| && keys[i] !in keys[i + 1..] ==> keys[i] in Contents() && Contents()[keys[i]] == vals[i]
      ensures forall k :: k in old(Contents()) && k !in keys ==> k in Contents() && Contents()[k] == old(Contents())[k]
      ensures !old(EmptyRoot()) || keys != [] ==> !EmptyRoot()
    {
      for i := 0 to |keys|
        invariant Valid() && Contents() == PutAll(old(Contents()), keys, vals, i)
        invariant !old(EmptyRoot()) || i > 0 ==> !EmptyRoot()
      {
        InsertOne(keys[i], vals[i]);
      }
      PutAllLast(old(Contents()), keys, vals, Contents());
    }

    /** `Get`: a lookup in the map, on every tree whose root is not an emptied leaf. */
    method Get(key: Key) returns (r: GetResult)
      requires Valid()
      ensures root == 0 ==> r == NotInitialized
      ensures r == InvalidNode <==> EmptyRoot()
      ensures root != 0 && !EmptyRoot() ==> r == if key in Contents() then Found(Contents()[key]) else NotFound
    {
      if root == 0 {
        return NotInitialized;
      }
      var id := root;
      ghost var d: nat, p: nat := 0, 0;
      RootStanding(pages, root, levels, ht, key);
      while id > 0
        invariant Standing(pages, levels, d, p, id, key)
        invariant d == 0 ==> id == root
        decreases |levels| - d
      {
        var node := pages[id];
        PageShape(pages, root, levels, ht, d, p, id, key);
        if |node.keys| <= 0 || (|node.vals| <= 0 && |node.children| <= 0) {
          return InvalidNode;
        }
        var idx := InsertBinarySearch(node.keys, key, 0);
        if node.leaf {
          RootHasKeys(pages, root, levels, ht, d, p, id, key);
          SlotInMap(pages, root, levels, ht, p, id, key, idx);
          return if Compare(key, node.keys[idx]) == 0 then Found(node.vals[idx]) else NotFound;
        }
        SlotChild(node, key, idx);
        var child := if Compare(key, node.keys[idx]) == -1 then idx else idx + 1;
        StepDown(pages, root, levels, ht, d, p, id, key, child);
        p := Offset(pages, levels[d], p) + child;
        d := d + 1;
        id := node.children[child];
      }
    }

    /** The descent of `RangeSearch`: the leaf `minKey` belongs to. */
    method FindLeaf(key: Key) returns (id: PageId, ghost p: nat)
      requires root != 0 && Valid() && !EmptyRoot()
      ensures Standing(pages, levels, |levels| - 1, p, id, key)
      ensures pages[id].leaf && pages[id].keys != []
    {
      id := root;
      ghost var d: nat := 0;
      p := 0;
      RootStanding(pages, root, levels, ht, key);
      PageShape(pages, root, levels, ht, 0, 0, id, key);
      while !pages[id].leaf
        invariant Standing(pages, levels, d, p, id, key)
        invariant d == 0 ==> id == root
        invariant pages[id].leaf <==> d == |levels| - 1
        decreases |levels| - d
      {
        id, p := NextChild(pages, id, key, root, levels, ht, d, p);
        d := d + 1;
      }
      PageShape(pages, root, levels, ht, d, p, id, key);
    }

    /** All entries of the tree in key order. */
    ghost function AllEntries(): seq<Entry>
      requires root != 0 && Valid()
      reads this
    {
      Entries(pages, Leaves(levels))
    }

    /**
     `RangeSearch`: the entries from `minKey` on, as many as `ScanLength` says.  `s` is the
     place of `minKey` among all entries and `t` the number of entries from it to the end of
     its leaf `p`.  (On an emptied root the source never returns.)
     */
    method RangeSearch(minKey: Key, maxKey: Key, count: int) returns (r: ScanResult, ghost p: nat, ghost s: nat, ghost t: nat)
      requires Valid() && !EmptyRoot()
      ensures root == 0 ==> r == StoreNotInitialized
      ensures root != 0 && minKey !in Contents() ==> r == MinKeyNotFound
      ensures root != 0 && minKey in Contents() ==>
                && s + t <= |AllEntries()| && IsTailOf(pages, Leaves(levels), p, s, t) && AllEntries()[s].0 == minKey
                && r == Items(AllEntries()[s..s + ScanLength(AllEntries(), s, t, maxKey, count)])
      ensures root != 0 && minKey in Contents() ==> r.Items? && FromMin(Contents(), minKey, r.items)
      ensures root != 0 && minKey in Contents() && maxKey == [] ==>
                |r.items| == Unbounded(|AllEntries()| - s, t, count)
    {
      p, s, t := 0, 0, 0;
      if root == 0 {
        r := StoreNotInitialized;
        return;
      }
      var id;
      id, p := FindLeaf(minKey);
      r, s, t := SearchLeaf(pages, id, minKey, maxKey, count, root, levels, ht, p);
    }
  }

  /** `items` are entries of the map from `min` on, in key order, and none in between is left out. */
  ghost predicate FromMin(m: map<Key, Value>, min: Key, items: seq<Entry>) {
    && items != [] && items[0].0 == min && EntriesSorted(items) && AllHeld(m, items) && NoGap(m, min, items[|items| - 1].0, items)
  }

  ghost predicate AllHeld(m: map<Key, Value>, items: seq<Entry>) {
    forall i :: 0 <= i < |items| ==> items[i].0 in m && m[items[i].0] == items[i].1
  }

  /** Every key of the map between `min` and `max` is among the items. */
  ghost predicate NoGap(m: map<Key, Value>, min: Key, max: Key, items: seq<Entry>) {
    forall k :: k in m && !Less(k, min) && !Less(max, k) ==> exists i :: 0 <= i < |items| && items[i].0 == k
  }

  lemma LeavesSorted(pages: Pages, root: PageId, levels: seq<Level>, ht: map<PageId, nat>, es: seq<Entry>)
    requires WellFormed(pages, root, levels, ht) && es == Entries(pages, Leaves(levels))
    ensures EntriesSorted(es) && Held(pages, levels) == MapOf(es)
  {
    assert LevelOkAt(pages, levels, ht, |levels| - 1);
    EntriesInKeyOrder(pages, Leaves(levels));
  }

  lemma StretchFromMin(es: seq<Entry>, s: nat, n: nat, items: seq<Entry>, m: map<Key, Value>, min: Key, max: Key)
    requires EntriesSorted(es) && 0 < n && s + n <= |es| && items == es[s..s + n] && m == MapOf(es)
    requires min == es[s].0 && max == es[s + n - 1].0
    ensures FromMin(m, min, items)
  {
    StretchSorted(es, s, n, items);
    EntriesHeld(es, m);
    StretchHeld(es, s, n, items, m);
    StretchWhole(es, s, n, items, m, min, max);
    StretchEnds(es, s, n, items);
  }

  lemma StretchEnds(es: seq<Entry>, s: nat, n: nat, items: seq<Entry>)
    requires 0 < n && s + n <= |es| && items == es[s..s + n]
    ensures |items| == n && items[0] == es[s] && items[n - 1] == es[s + n - 1]
  {
  }

  lemma StretchSorted(es: seq<Entry>, s: nat, n: nat, items: seq<Entry>)
    requires EntriesSorted(es) && s + n <= |es| && items == es[s..s + n]
    ensures EntriesSorted(items)
  {
    forall i, j | 0 <= i < j < |items| ensures Less(items[i].0, items[j].0) { assert Less(es[s + i].0, es[s + j].0); }
  }

  lemma EntriesHeld(es: seq<Entry>, m: map<Key, Value>)
    requires EntriesSorted(es) && m == MapOf(es)
    ensures AllHeld(m, es)
  {
    forall i | 0 <= i < |es| ensures es[i].0 in m && m[es[i].0] == es[i].1 { MapOfHas(es, i); }
  }

  lemma StretchHeld(es: seq<Entry>, s: nat, n: nat, items: seq<Entry>, m: map<Key, Value>)
    requires AllHeld(m, es) && s + n <= |es| && items == es[s..s + n]
    ensures AllHeld(m, items)
  {
    forall i | 0 <= i < |items| ensures items[i].0 in m && m[items[i].0] == items[i].1 { assert items[i] == es[s + i]; }
  }

  lemma StretchWhole(es: seq<Entry>, s: nat, n: nat, items: seq<Entry>, m: map<Key, Value>, min: Key, max: Key)
    requires EntriesSorted(es) && 0 < n && s + n <= |es| && items == es[s..s + n] && m == MapOf(es)
    requires min == es[s].0 && max == es[s + n - 1].0
    ensures NoGap(m, min, max, items)
  {
    forall k | k in m && !Less(k, min) && !Less(max, k) ensures exists i :: 0 <= i < |items| && items[i].0 == k {
      var i := PlaceInStretch(es, s, n, k);
      assert items[i] == es[s + i];
    }
  }

  lemma PlaceInStretch(es: seq<Entry>, s: nat, n: nat, k: Key) returns (i: nat)
    requires EntriesSorted(es) && 0 < n && s + n <= |es|
    requires k in MapOf(es) && !Less(k, es[s].0) && !Less(es[s + n - 1].0, k)
    ensures i < n && es[s + i].0 == k
  {
    var j := MapOfOnly(es, k);
    i := j - s;
  }

  /** Below an emptied root there is no leaf to read, and no other page is ever empty. */
  lemma RootHasKeys(pages: Pages, root: PageId, levels: seq<Level>, ht: map<PageId, nat>, d: nat, p: nat, id: PageId, k: Key)
    requires WellFormed(pages, root, levels, ht) && Standing(pages, levels, d, p, id, k) && pages[id].keys != []
    requires d == 0 ==> id == root
    ensures root in pages && pages[root].keys != []
  {
    RootStanding(pages, root, levels, ht, k);
    PageShape(pages, root, levels, ht, 0, 0, root, k);
    PageShape(pages, root, levels, ht, d, p, id, k);
  }

  /** The map `m` after the first `n` of the given entries were put in order. */
  ghost function PutAll(m: map<Key, Value>, keys: seq<Key>, vals: seq<Value>, n: nat): map<Key, Value>
    requires n <= |keys| && n <= |vals|
  {
    if n == 0 then m else PutAll(m, keys, vals, n - 1)[keys[n - 1] := vals[n - 1]]
  }

  lemma {:induction false} PutAllHas(m: map<Key, Value>, keys: seq<Key>, vals: seq<Value>, n: nat, k: Key)
    requires n <= |keys| && n <= |vals|
    ensures k in PutAll(m, keys, vals, n) <==> k in m || exists i :: 0 <= i < n && keys[i] == k
  {
    if n > 0 { PutAllHas(m, keys, vals, n - 1, k); }
  }

  /** A key has the last value given for it. */
  lemma {:induction false} PutAllGiven(m: map<Key, Value>, keys: seq<Key>, vals: seq<Value>, n: nat, i: nat)
    requires i < n <= |keys| && n <= |vals| && forall j :: i < j < n ==> keys[j] != keys[i]
    ensures keys[i] in PutAll(m, keys, vals, n) && PutAll(m, keys, vals, n)[keys[i]] == vals[i]
  {
    if i < n - 1 { PutAllGiven(m, keys, vals, n - 1, i); }
  }

  /** A key that is not given keeps its value. */
  lemma {:induction false} PutAllOther(m: map<Key, Value>, keys: seq<Key>, vals: seq<Value>, n: nat, k: Key)
    requires n <= |keys| && n <= |vals| && k in m && forall j :: 0 <= j < n ==> keys[j] != k
    ensures k in PutAll(m, keys, vals, n) && PutAll(m, keys, vals, n)[k] == m[k]
  {
    if n > 0 { PutAllOther(m, keys, vals, n - 1, k); }
  }

  /** The map after all entries were put, without saying how. */
  lemma PutAllLast(m: map<Key, Value>, keys: seq<Key>, vals: seq<Value>, r: map<Key, Value>)
    requires |keys| <= |vals| && r == PutAll(m, keys, vals, |keys|)
    ensures forall k :: k in r <==> k in m || k in keys
    ensures forall i :: 0 <= i < |keys| && keys[i] !in keys[i + 1..] ==> keys[i] in r && r[keys[i]] == vals[i]
    ensures forall k :: k in m && k !in keys ==> k in r && r[k] == m[k]
  {
    forall k ensures k in r <==> k in m || k in keys { PutAllHas(m, keys, vals, |keys|, k); }
    forall i | 0 <= i < |keys| && keys[i] !in keys[i + 1..] ensures keys[i] in r && r[keys[i]] == vals[i] {
      forall j | i < j < |keys| ensures keys[j] != keys[i] { assert keys[i + 1..][j - i - 1] == keys[j]; }
      PutAllGiven(m, keys, vals, |keys|, i);
    }
    forall k | k in m && k !in keys ensures k in r && r[k] == m[k] { PutAllOther(m, keys, vals, |keys|, k); }
  }

  lemma FirstLeaf(id: PageId, key: Key, val: Value)
    requires id != 0
    ensures var pages := map[id := Node(true, [key], [val], [], 0, 0)];
            var levels := [[Item(id, Inf)]];
            WellFormed(pages, id, levels, map[id := 0]) && Held(pages, levels) == map[key := val]
  {
    var pages := map[id := Node(true, [key], [val], [], 0, 0)];
    var lvl := [Item(id, Inf)];
    RootLevel(pages, id, map[id := 0], 0);
    assert LeafAt(pages, lvl, 0);
    assert LevelOkAt(pages, [lvl], map[id := 0], 0);
    FirstEntry(id, key, val);
  }

  lemma FirstEntry(id: PageId, key: Key, val: Value)
    ensures var pages := map[id := Node(true, [key], [val], [], 0, 0)]; MapOf(Entries(pages, [Item(id, Inf)])) == map[key := val]
  {
    var n := Node(true, [key], [val], [], 0, 0);
    EntryOne(map[id := n], [Item(id, Inf)], 0);
    assert Pairs(n.keys, n.vals) == [(key, val)];
    assert MapOf([(key, val)]) == MapOf([])[key := val];
  }

  /** A tree that holds a key has keys in its root. */
  lemma HeldKeyInRoot(pages: Pages, root: PageId, levels: seq<Level>, ht: map<PageId, nat>, k: Key)
    requires WellFormed(pages, root, levels, ht) && k in Held(pages, levels)
    ensures root in pages && pages[root].keys != []
  {
    RootStanding(pages, root, levels, ht, k);
    PageShape(pages, root, levels, ht, 0, 0, root, k);
    if pages[root].keys == [] {
      EntryOne(pages, levels[0], 0);
      var i := MapOfOnly(Entries(pages, levels[0]), k);
    }
  }

  /** The parent of a pending split is an internal page with room for at most one more key. */
  lemma ParentShape(pages: Pages, root: PageId, levels: seq<Level>, ht: map<PageId, nat>,
                    d: nat, p: nat, sep: Key, newId: PageId, q: nat, j: nat)
    requires PendingAt(pages, root, levels, ht, d, p, sep, newId, q, j)
    ensures var n := pages[levels[d - 1][q].id];
            |n.children| == |n.keys| + 1 && |n.keys| <= ORDER - 1
  {
    assert LevelOkAt(pages, levels, ht, d - 1);
  }

  /** Move 4 as the tree's user sees it. */
  lemma InternalSplitMove(pages: Pages, root: PageId, levels: seq<Level>, ht: map<PageId, nat>,
                          d: nat, p: nat, sep: Key, newId: PageId, q: nat, j: nat,
                          n: Node, newId': PageId, pages': Pages, levels': seq<Level>, ht': map<PageId, nat>)
    requires PendingAt(pages, root, levels, ht, d, p, sep, newId, q, j)
    requires |pages[levels[d - 1][q].id].keys| == ORDER - 1 && |pages[levels[d - 1][q].id].children| == ORDER
    requires newId' != 0 && newId' !in pages
    requires n == Absorb(pages[levels[d - 1][q].id], j, sep, newId)
    requires pages' == SplitPages(pages, levels[d - 1][q].id, InternalLeft(n), newId', InternalRight(n))
    requires levels' == levels[d - 1 := Cut(levels[d - 1], q, Promoted(n), newId')]
    requires ht' == ht[newId' := |levels| - d]
    ensures Pending(pages', root, levels', ht', d - 1, q, Promoted(n), newId')
    ensures |levels'| == |levels| && Held(pages', levels') == Held(pages, levels)
    ensures forall e :: 0 <= e < d - 1 ==> levels'[e] == levels[e] && SameOn(pages, pages', levels'[e])
  {
    SplitMove(pages, root, levels, ht, d, p, sep, newId, q, j, n, newId', pages', levels', ht');
  }

  /** What the slot in the leaf a key belongs to says about the whole map. */
  lemma SlotInMap(pages: Pages, root: PageId, levels: seq<Level>, ht: map<PageId, nat>, p: nat, id: PageId, k: Key, idx: nat)
    requires WellFormed(pages, root, levels, ht) && Standing(pages, levels, |levels| - 1, p, id, k)
    requires pages[id].keys != [] && Sorted(pages[id].keys) && IsSlot(pages[id].keys, k, idx)
    ensures |pages[id].vals| == |pages[id].keys| && (k in Held(pages, levels) <==> pages[id].keys[idx] == k)
    ensures k in Held(pages, levels) ==> Held(pages, levels)[k] == pages[id].vals[idx]
    ensures LeafKeys(pages, Leaves(levels)) && p < |Leaves(levels)| && id == Leaves(levels)[p].id
  {
    PageShape(pages, root, levels, ht, |levels| - 1, p, id, k);
    assert LevelOkAt(pages, levels, ht, |levels| - 1);
    LeafLookup(pages, Leaves(levels), p, k);
    SlotLeaf(pages[id], k, idx);
  }

  /** The right sibling of a page is another page of its level, or none. */
  lemma SplitSite(pages: Pages, levels: seq<Level>, ht: map<PageId, nat>, d: nat, p: nat)
    requires LevelsOk(pages, levels, ht) && d < |levels| && p < |levels[d]|
    ensures var id := levels[d][p].id;
            id in pages && id != 0 && pages[id].right != id && (pages[id].right != 0 ==> pages[id].right in pages)
  {
    assert LevelOkAt(pages, levels, ht, d);
    assert LinkAt(pages, levels[d], p);
  }
}
