/**
 The moves of an insertion that touch internal pages, the descent that leads to them, and
 what they mean for the keys the tree holds.
 */
module TreeMoves {
  import opened Keys
  import opened Levels
  import opened TreeSteps

  // ---------------------------------------------------------------------------------------
  // Where the children of an item sit in the next level
  // ---------------------------------------------------------------------------------------

  ghost function Offset(pages: Pages, lvl: Level, q: nat): nat
    requires q <= |lvl|
  {
    |DownSpan(pages, lvl, 0, q)|
  }

  ghost predicate AllInternal(pages: Pages, lvl: Level) {
    forall i :: 0 <= i < |lvl| ==> lvl[i].id in pages && |pages[lvl[i].id].children| == |pages[lvl[i].id].keys| + 1
  }

  /** Child `j` of item `q` is item `Offset + j` of the next level, and its fence is known. */
  lemma ChildAt(pages: Pages, lvl: Level, q: nat, j: nat)
    requires AllInternal(pages, lvl) && q < |lvl| && j < |pages[lvl[q].id].children|
    ensures var n := pages[lvl[q].id];
            var i := Offset(pages, lvl, q) + j;
            && i < |Down(pages, lvl)|
            && Down(pages, lvl)[i] == Item(n.children[j], if j < |n.keys| then At(n.keys[j]) else lvl[q].hi)
            && Offset(pages, lvl, q + 1) == Offset(pages, lvl, q) + |n.children|
  {
    DownAround(pages, lvl, q);
  }

  /** The fence just before the children of item `q` is the fence just before item `q`. */
  lemma FenceBefore(pages: Pages, lvl: Level, q: nat)
    requires AllInternal(pages, lvl) && q < |lvl|
    ensures q > 0 ==> Offset(pages, lvl, q) > 0
    ensures q > 0 && Offset(pages, lvl, q) - 1 < |Down(pages, lvl)| ==> Down(pages, lvl)[Offset(pages, lvl, q) - 1].hi == lvl[q - 1].hi
    ensures q == 0 ==> Offset(pages, lvl, q) == 0
  {
    if q > 0 {
      ChildAt(pages, lvl, q - 1, |pages[lvl[q - 1].id].keys|);
    }
  }

  /** Internal keys are sorted and strictly inside the page's own fences. */
  lemma InternalKeys(pages: Pages, lvl: Level, q: nat)
    requires AllInternal(pages, lvl) && q < |lvl| && Fenced(Down(pages, lvl))
    ensures Sorted(pages[lvl[q].id].keys)
    ensures forall j :: 0 <= j < |pages[lvl[q].id].keys| ==>
              && (q > 0 ==> BoundLess(lvl[q - 1].hi, At(pages[lvl[q].id].keys[j])))
              && BoundLess(At(pages[lvl[q].id].keys[j]), lvl[q].hi)
  {
    var n := pages[lvl[q].id];
    var next := Down(pages, lvl);
    var off := Offset(pages, lvl, q);
    FenceBefore(pages, lvl, q);
    ChildAt(pages, lvl, q, |n.keys|);
    forall j | 0 <= j < |n.keys|
      ensures off + j < |next| && next[off + j].hi == At(n.keys[j])
      ensures q > 0 ==> BoundLess(lvl[q - 1].hi, At(n.keys[j]))
      ensures BoundLess(At(n.keys[j]), lvl[q].hi)
    {
      ChildAt(pages, lvl, q, j);
      if q > 0 { assert BoundLess(next[off - 1].hi, next[off + j].hi); }
      assert BoundLess(next[off + j].hi, next[off + |n.keys|].hi);
    }
    forall i, j | 0 <= i < j < |n.keys|
      ensures Less(n.keys[i], n.keys[j])
    {
      assert BoundLess(next[off + i].hi, next[off + j].hi);
    }
  }

  /** The child a descent follows: after the last separator that is not above the key. */
  ghost predicate ChildFor(n: Node, k: Key, j: int) {
    && 0 <= j <= |n.keys|
    && (forall i :: 0 <= i < j ==> !Less(k, n.keys[i]))
    && (forall i :: j <= i < |n.keys| ==> Less(k, n.keys[i]))
  }

  /** One step of a descent stays on the pages the key belongs to. */
  lemma Descend(pages: Pages, lvl: Level, q: nat, k: Key, j: nat)
    requires AllInternal(pages, lvl) && InRange(lvl, q, k) && ChildFor(pages[lvl[q].id], k, j)
    ensures InRange(Down(pages, lvl), Offset(pages, lvl, q) + j, k)
  {
    var n := pages[lvl[q].id];
    FenceBefore(pages, lvl, q);
    ChildAt(pages, lvl, q, j);
    if j > 0 { ChildAt(pages, lvl, q, j - 1); }
  }

  // ---------------------------------------------------------------------------------------
  // Move 3: an internal page with room absorbs a separator and a child
  // ---------------------------------------------------------------------------------------

  function Absorb(n: Node, j: nat, sep: Key, newId: PageId): Node
    requires j <= |n.keys| && |n.children| == |n.keys| + 1
  {
    n.(keys := InsertAt(n.keys, j, sep), children := InsertAt(n.children, j + 1, newId))
  }

  lemma AbsorbExpands(n: Node, hi: Bound, j: nat, sep: Key, newId: PageId)
    requires j <= |n.keys| && |n.children| == |n.keys| + 1
    ensures Expand(Absorb(n, j, sep, newId).keys, Absorb(n, j, sep, newId).children, hi) ==
            Cut(Expand(n.keys, n.children, hi), j, sep, newId)
  {
    var n' := Absorb(n, j, sep, newId);
    var e, c := Expand(n'.keys, n'.children, hi), Cut(Expand(n.keys, n.children, hi), j, sep, newId);
    forall i | 0 <= i < |e|
      ensures e[i] == c[i]
    {
      assert n'.children[i] == if i <= j then n.children[i] else if i == j + 1 then newId else n.children[i - 1];
      if i < |n'.keys| {
        assert n'.keys[i] == if i < j then n.keys[i] else if i == j then sep else n.keys[i - 1];
      }
    }
  }

  /** The next level after one page of a level has been rewritten. */
  lemma DownReplaced(pages: Pages, lvl: Level, q: nat, n: Node)
    requires DistinctIds(lvl) && q < |lvl|
    ensures Down(pages[lvl[q].id := n], lvl) ==
            DownSpan(pages, lvl, 0, q) + Expand(n.keys, n.children, lvl[q].hi) + DownSpan(pages, lvl, q + 1, |lvl|)
  {
    var pages' := pages[lvl[q].id := n];
    forall i | 0 <= i < |lvl| && i != q
      ensures Children(pages, lvl[i]) == Children(pages', lvl[i])
    {
      assert lvl[i].id != lvl[q].id;
    }
    DownFrame(pages, pages', lvl, lvl, 0, q);
    DownFrame(pages, pages', lvl, lvl, q + 1, |lvl|);
    DownAround(pages', lvl, q);
  }

  /** Absorbing a separator cuts the next level where the child sits. */
  lemma AbsorbCloses(pages: Pages, lvl: Level, q: nat, j: nat, sep: Key, newId: PageId)
    requires AllInternal(pages, lvl) && DistinctIds(lvl)
    requires q < |lvl| && j <= |pages[lvl[q].id].keys|
    ensures Offset(pages, lvl, q) + j < |Down(pages, lvl)|
    ensures Down(pages[lvl[q].id := Absorb(pages[lvl[q].id], j, sep, newId)], lvl) ==
            Cut(Down(pages, lvl), Offset(pages, lvl, q) + j, sep, newId)
  {
    var n := pages[lvl[q].id];
    var a, b := DownSpan(pages, lvl, 0, q), DownSpan(pages, lvl, q + 1, |lvl|);
    var n' := Absorb(n, j, sep, newId);
    var e, e' := Expand(n.keys, n.children, lvl[q].hi), Expand(n'.keys, n'.children, lvl[q].hi);
    assert Down(pages, lvl) == a + e + b by { DownAround(pages, lvl, q); }
    assert Down(pages[lvl[q].id := n'], lvl) == a + e' + b by { DownReplaced(pages, lvl, q, n'); }
    assert e' == Cut(e, j, sep, newId) by { AbsorbExpands(n, lvl[q].hi, j, sep, newId); }
    CutInside(a, e, b, j, sep, newId);
  }

  lemma CutInside(a: Level, e: Level, b: Level, j: nat, sep: Key, newId: PageId)
    requires j < |e|
    ensures Cut(a + e + b, |a| + j, sep, newId) == a + Cut(e, j, sep, newId) + b
  {
    var l, r := Cut(a + e + b, |a| + j, sep, newId), a + Cut(e, j, sep, newId) + b;
    forall i | 0 <= i < |l|
      ensures l[i] == r[i]
    {
    }
  }

  /** Page `p` of depth `d`, split and pending, is child `j` of page `q` of depth `d - 1`. */
  ghost predicate PendingAt(pages: Pages, root: PageId, levels: seq<Level>, ht: map<PageId, nat>,
                            d: nat, p: nat, sep: Key, newId: PageId, q: nat, j: nat)
  {
    && Pending(pages, root, levels, ht, d, p, sep, newId)
    && d > 0 && q < |levels[d - 1]| && levels[d - 1][q].id in pages && j <= |pages[levels[d - 1][q].id].keys|
    && p == Offset(pages, levels[d - 1], q) + j
  }

  lemma InternalLevel(pages: Pages, levels: seq<Level>, ht: map<PageId, nat>, d: nat)
    requires LevelsOk(pages, levels, ht) && d < |levels| - 1
    ensures AllInternal(pages, levels[d]) && LevelOk(pages, levels[d], ht, |levels| - 1 - d)
  {
    assert LevelOkAt(pages, levels, ht, d);
  }

  lemma AbsorbLevel(pages: Pages, lvl: Level, ht: map<PageId, nat>, h: nat, q: nat, j: nat, sep: Key, newId: PageId)
    requires LevelOk(pages, lvl, ht, h) && h > 0 && q < |lvl|
    requires j <= |pages[lvl[q].id].keys| < ORDER - 1
    ensures |pages[lvl[q].id].children| == |pages[lvl[q].id].keys| + 1
    ensures LevelOk(pages[lvl[q].id := Absorb(pages[lvl[q].id], j, sep, newId)], lvl, ht, h)
  {
    var pages' := pages[lvl[q].id := Absorb(pages[lvl[q].id], j, sep, newId)];
    forall i | 0 <= i < |lvl|
      ensures LinkAt(pages', lvl, i)
    {
      assert LinkAt(pages, lvl, i);
    }
  }

  /** Absorbing the pending separator makes the level above promise the split level. */
  lemma PendingCloses(pages: Pages, lvl: Level, below: Level, p: nat, sep: Key, newId: PageId, q: nat, j: nat)
    requires AllInternal(pages, lvl) && DistinctIds(lvl)
    requires q < |lvl| && j <= |pages[lvl[q].id].keys| && p == Offset(pages, lvl, q) + j
    requires p + 1 < |below| && below[p].hi == At(sep) && below[p + 1].id == newId
    requires Merge(below, p) == Down(pages, lvl)
    ensures Down(pages[lvl[q].id := Absorb(pages[lvl[q].id], j, sep, newId)], lvl) == below
  {
    AbsorbCloses(pages, lvl, q, j, sep, newId);
    CutMerge(below, p);
  }

  lemma AbsorbMove(pages: Pages, root: PageId, levels: seq<Level>, ht: map<PageId, nat>,
                   d: nat, p: nat, sep: Key, newId: PageId, q: nat, j: nat, pages': Pages)
    requires PendingAt(pages, root, levels, ht, d, p, sep, newId, q, j)
    requires |pages[levels[d - 1][q].id].keys| < ORDER - 1
    requires |pages[levels[d - 1][q].id].children| == |pages[levels[d - 1][q].id].keys| + 1
    requires pages' == pages[levels[d - 1][q].id := Absorb(pages[levels[d - 1][q].id], j, sep, newId)]
    ensures WellFormed(pages', root, levels, ht)
    ensures Entries(pages', Leaves(levels)) == Entries(pages, Leaves(levels))
  {
    InternalLevel(pages, levels, ht, d - 1);
    PendingCloses(pages, levels[d - 1], levels[d], p, sep, newId, q, j);
    AbsorbLevel(pages, levels[d - 1], ht, |levels| - d, q, j, sep, newId);
    AbsorbRest(pages, levels, ht, d, pages');
  }

  lemma AbsorbRest(pages: Pages, levels: seq<Level>, ht: map<PageId, nat>, d: nat, pages': Pages)
    requires LevelsOk(pages, levels, ht) && 0 < d < |levels| && 0 !in pages'
    requires LeafKeys(pages, Leaves(levels)) && Chained(pages, levels, d - 1)
    requires LevelOk(pages', levels[d - 1], ht, |levels| - d) && Down(pages', levels[d - 1]) == levels[d]
    requires forall x :: x in pages && x in ht && ht[x] != |levels| - d ==> x in pages' && pages'[x] == pages[x]
    ensures LevelsOk(pages', levels, ht) && LeafKeys(pages', Leaves(levels)) && Chained(pages', levels, -1)
    ensures Entries(pages', Leaves(levels)) == Entries(pages, Leaves(levels))
  {
    OthersKept(pages, pages', levels, levels, ht, ht, d - 1);
    LeavesKept(pages, pages', levels, ht, ht, |levels| - d);
    ChainKept(pages, pages', levels, levels, d - 1, d - 1);
  }

  // ---------------------------------------------------------------------------------------
  // Move 4: an overfull internal page is split
  // ---------------------------------------------------------------------------------------

  function InternalLeft(n: Node): Node
    requires 1 < |n.keys| < |n.children|
  {
    n.(keys := n.keys[..|n.keys| / 2], children := n.children[..|n.keys| / 2 + 1])
  }

  function InternalRight(n: Node): Node
    requires 1 < |n.keys| < |n.children|
  {
    Node(false, n.keys[|n.keys| / 2 + 1..], [], n.children[|n.keys| / 2 + 1..], 0, 0)
  }

  function Promoted(n: Node): Key
    requires 1 < |n.keys|
  {
    n.keys[|n.keys| / 2]
  }

  /** The halves of an internal page and the key between them make up the page, and are as even as can be. */
  lemma InternalHalves(n: Node)
    requires 1 < |n.keys| && |n.children| == |n.keys| + 1
    ensures InternalLeft(n).keys + [Promoted(n)] + InternalRight(n).keys == n.keys
    ensures InternalLeft(n).children + InternalRight(n).children == n.children
    ensures 0 <= |InternalLeft(n).keys| - |InternalRight(n).keys| <= 1
  {
  }

  lemma SplitExpands(n: Node, hi: Bound)
    requires 1 < |n.keys| && |n.children| == |n.keys| + 1
    ensures Expand(n.keys, n.children, hi) ==
            Expand(InternalLeft(n).keys, InternalLeft(n).children, At(Promoted(n))) +
            Expand(InternalRight(n).keys, InternalRight(n).children, hi)
  {
  }

  /** Splitting an internal page in two leaves the level below untouched. */
  lemma SplitSameDown(pages: Pages, lvl: Level, q: nat, n: Node, newId: PageId)
    requires Linked(pages, lvl) && DistinctIds(lvl) && newId !in pages && 0 !in pages
    requires q < |lvl| && 1 < |n.keys| && |n.children| == |n.keys| + 1
    ensures Down(SplitPages(pages, lvl[q].id, InternalLeft(n), newId, InternalRight(n)), Cut(lvl, q, Promoted(n), newId)) ==
            Down(pages[lvl[q].id := n], lvl)
  {
    var l, r := InternalLeft(n), InternalRight(n);
    var pages1, pages' := pages[lvl[q].id := n], SplitPages(pages, lvl[q].id, l, newId, r);
    var c := Cut(lvl, q, Promoted(n), newId);
    forall i | 0 <= i < |lvl| && i != q
      ensures Children(pages1, lvl[i]) == Children(pages', lvl[i])
    {
      SplitReads(pages, lvl, q, l, newId, r, i);
    }
    DownFrame(pages1, pages', lvl, c, 0, q);
    DownShift(pages1, pages', lvl, c, q + 1, |lvl|, q + 2, |c|);
    assert Children(pages', c[q]) + Children(pages', c[q + 1]) == Children(pages1, lvl[q]) by {
      SplitReads(pages, lvl, q, l, newId, r, q);
      SplitExpands(n, lvl[q].hi);
    }
    DownAroundTwo(pages', c, q);
    DownAround(pages1, lvl, q);
  }

  lemma SplitMove(pages: Pages, root: PageId, levels: seq<Level>, ht: map<PageId, nat>,
                  d: nat, p: nat, sep: Key, newId: PageId, q: nat, j: nat,
                  n: Node, newId': PageId, pages': Pages, levels': seq<Level>, ht': map<PageId, nat>)
    requires PendingAt(pages, root, levels, ht, d, p, sep, newId, q, j)
    requires |pages[levels[d - 1][q].id].keys| == ORDER - 1 && |pages[levels[d - 1][q].id].children| == ORDER
    requires newId' != 0 && newId' !in pages
    requires n == Absorb(pages[levels[d - 1][q].id], j, sep, newId)
    requires pages' == SplitPages(pages, levels[d - 1][q].id, InternalLeft(n), newId', InternalRight(n))
    requires levels' == levels[d - 1 := Cut(levels[d - 1], q, Promoted(n), newId')]
    requires ht' == ht[newId' := |levels| - d]
    ensures Pending(pages', root, levels', ht', d - 1, q, Promoted(n), newId')
    ensures Entries(pages', Leaves(levels')) == Entries(pages, Leaves(levels))
    ensures forall e :: 0 <= e < d - 1 ==> SameOn(pages, pages', levels[e])
  {
    SplitMoveHere(pages, root, levels, ht, d, p, sep, newId, q, j, n, newId', pages', levels', ht');
    SplitMoveRest(pages, levels, ht, d, q, n, newId', pages', levels', ht');
    assert Merge(levels'[d - 1], q) == levels[d - 1] by { MergeCut(levels[d - 1], q, Promoted(n), newId'); }
    assert d > 1 ==> ChainAt(pages, levels, d - 2);
  }

  lemma SplitMoveHere(pages: Pages, root: PageId, levels: seq<Level>, ht: map<PageId, nat>,
                      d: nat, p: nat, sep: Key, newId: PageId, q: nat, j: nat,
                      n: Node, newId': PageId, pages': Pages, levels': seq<Level>, ht': map<PageId, nat>)
    requires PendingAt(pages, root, levels, ht, d, p, sep, newId, q, j)
    requires |pages[levels[d - 1][q].id].keys| == ORDER - 1 && |pages[levels[d - 1][q].id].children| == ORDER
    requires newId' != 0 && newId' !in pages
    requires n == Absorb(pages[levels[d - 1][q].id], j, sep, newId) && 1 < |n.keys| < |n.children|
    requires pages' == SplitPages(pages, levels[d - 1][q].id, InternalLeft(n), newId', InternalRight(n))
    requires levels' == levels[d - 1 := Cut(levels[d - 1], q, Promoted(n), newId')]
    requires ht' == ht[newId' := |levels| - d]
    ensures LevelOk(pages', levels'[d - 1], ht', |levels| - d) && Down(pages', levels'[d - 1]) == levels[d] && 0 !in pages'
    ensures forall x :: x in pages && x in ht && ht[x] != |levels| - d ==>
              x in pages' && pages'[x] == pages[x] && x in ht' && ht'[x] == ht[x]
  {
    SplitReady(pages, root, levels, ht, d, p, sep, newId, q, j, n);
    SplitMoveLevel(pages, levels[d - 1], levels[d], ht, |levels| - d, q, n, newId', pages', ht');
  }

  /** What a full page that has just absorbed one separator too many looks like. */
  ghost predicate Overfull(n: Node) {
    !n.leaf && n.vals == [] && |n.keys| == ORDER && |n.children| == ORDER + 1
  }

  lemma SplitReady(pages: Pages, root: PageId, levels: seq<Level>, ht: map<PageId, nat>,
                   d: nat, p: nat, sep: Key, newId: PageId, q: nat, j: nat, n: Node)
    requires PendingAt(pages, root, levels, ht, d, p, sep, newId, q, j)
    requires |pages[levels[d - 1][q].id].keys| == ORDER - 1 && |pages[levels[d - 1][q].id].children| == ORDER
    requires n == Absorb(pages[levels[d - 1][q].id], j, sep, newId)
    ensures LevelOk(pages, levels[d - 1], ht, |levels| - d) && AllInternal(pages, levels[d - 1])
    ensures Overfull(n) && Fenced(levels[d])
    ensures Down(pages[levels[d - 1][q].id := n], levels[d - 1]) == levels[d]
  {
    InternalLevel(pages, levels, ht, d - 1);
    assert LevelOkAt(pages, levels, ht, d);
    PendingCloses(pages, levels[d - 1], levels[d], p, sep, newId, q, j);
  }

  lemma SplitMoveLevel(pages: Pages, lvl: Level, below: Level, ht: map<PageId, nat>, h: nat, q: nat, n: Node, newId: PageId,
                       pages': Pages, ht': map<PageId, nat>)
    requires LevelOk(pages, lvl, ht, h) && h > 0 && q < |lvl| && AllInternal(pages, lvl)
    requires newId != 0 && newId !in pages && 0 !in pages
    requires Overfull(n) && Fenced(below) && Down(pages[lvl[q].id := n], lvl) == below
    requires pages' == SplitPages(pages, lvl[q].id, InternalLeft(n), newId, InternalRight(n))
    requires ht' == ht[newId := h]
    ensures LevelOk(pages', Cut(lvl, q, Promoted(n), newId), ht', h)
    ensures Down(pages', Cut(lvl, q, Promoted(n), newId)) == below
    ensures 0 !in pages'
    ensures forall x :: x in pages && x in ht && ht[x] != h ==>
              x in pages' && pages'[x] == pages[x] && x in ht' && ht'[x] == ht[x]
  {
    InternalKeys(pages[lvl[q].id := n], lvl, q);
    SplitLevel(pages, lvl, ht, h, q, Promoted(n), InternalLeft(n), newId, InternalRight(n));
    SplitSameDown(pages, lvl, q, n, newId);
    SplitElsewhere(pages, lvl, ht, h, q, InternalLeft(n), newId, InternalRight(n));
  }

  lemma SplitMoveRest(pages: Pages, levels: seq<Level>, ht: map<PageId, nat>, d: nat, q: nat,
                      n: Node, newId': PageId, pages': Pages, levels': seq<Level>, ht': map<PageId, nat>)
    requires LevelsOk(pages, levels, ht) && 0 < d < |levels| && q < |levels[d - 1]| && 1 < |n.keys|
    requires LeafKeys(pages, Leaves(levels)) && Chained(pages, levels, d - 1)
    requires levels' == levels[d - 1 := Cut(levels[d - 1], q, Promoted(n), newId')]
    requires LevelOk(pages', levels'[d - 1], ht', |levels| - d) && 0 !in pages'
    requires Down(pages', levels'[d - 1]) == levels[d]
    requires forall x :: x in pages && x in ht && ht[x] != |levels| - d ==>
               x in pages' && pages'[x] == pages[x] && x in ht' && ht'[x] == ht[x]
    ensures LevelsOk(pages', levels', ht') && LeafKeys(pages', Leaves(levels')) && Chained(pages', levels', d - 2)
    ensures Entries(pages', Leaves(levels')) == Entries(pages, Leaves(levels))
    ensures forall e :: 0 <= e < d - 1 ==> SameOn(pages, pages', levels[e]) && Down(pages', levels[e]) == Down(pages, levels[e])
  {
    assert Leaves(levels') == Leaves(levels);
    OthersKept(pages, pages', levels, levels', ht, ht', d - 1);
    LeavesKept(pages, pages', levels, ht, ht', |levels| - d);
    ChainKept(pages, pages', levels, levels', d - 1, d - 1);
    forall e | 0 <= e < d - 1
      ensures SameOn(pages, pages', levels[e])
    {
      OtherLevel(pages, pages', levels, ht, ht', |levels| - d, e);
    }
  }

  // ---------------------------------------------------------------------------------------
  // Move 5: a new root
  // ---------------------------------------------------------------------------------------

  lemma NewTop(pages: Pages, root: PageId, lvl: Level, sep: Key, newId: PageId, newRoot: PageId)
    requires lvl == [Item(root, At(sep)), Item(newId, Inf)]
    ensures Down(pages[newRoot := Node(false, [sep], [], [root, newId], 0, 0)], [Item(newRoot, Inf)]) == lvl
  {
    var n := Node(false, [sep], [], [root, newId], 0, 0);
    DownOne(pages[newRoot := n], [Item(newRoot, Inf)], 0);
    assert Expand(n.keys, n.children, Inf) == lvl;
  }

  lemma RootPending(lvl: Level, root: PageId, sep: Key, newId: PageId)
    requires 1 < |lvl| && lvl[0].hi == At(sep) && lvl[1].id == newId && Merge(lvl, 0) == [Item(root, Inf)]
    ensures lvl == [Item(root, At(sep)), Item(newId, Inf)]
  {
    CutMerge(lvl, 0);
  }

  lemma RootMove(pages: Pages, root: PageId, levels: seq<Level>, ht: map<PageId, nat>,
                 sep: Key, newId: PageId, newRoot: PageId, pages': Pages, levels': seq<Level>, ht': map<PageId, nat>)
    requires Pending(pages, root, levels, ht, 0, 0, sep, newId)
    requires newRoot != 0 && newRoot !in pages
    requires pages' == pages[newRoot := Node(false, [sep], [], [root, newId], 0, 0)]
    requires levels' == [[Item(newRoot, Inf)]] + levels
    requires ht' == ht[newRoot := |levels|]
    ensures WellFormed(pages', newRoot, levels', ht')
  {
    var top := [Item(newRoot, Inf)];
    assert Down(pages', top) == levels[0] by {
      RootPending(levels[0], root, sep, newId);
      NewTop(pages, root, levels[0], sep, newId, newRoot);
    }
    assert LevelOk(pages', top, ht', |levels|) by { RootLevel(pages', newRoot, ht', |levels|); }
    RootOver(pages, levels, ht, newRoot, pages', levels', ht', top);
  }

  lemma RootOver(pages: Pages, levels: seq<Level>, ht: map<PageId, nat>, newRoot: PageId,
                 pages': Pages, levels': seq<Level>, ht': map<PageId, nat>, top: Level)
    requires LevelsOk(pages, levels, ht) && LeafKeys(pages, Leaves(levels)) && Chained(pages, levels, -1)
    requires newRoot !in pages && newRoot in pages' && pages' == pages[newRoot := pages'[newRoot]] && 0 !in pages'
    requires newRoot in ht' && ht' == ht[newRoot := ht'[newRoot]] && levels' == [top] + levels && top == [Item(newRoot, Inf)]
    requires LevelOk(pages', top, ht', |levels|) && Down(pages', top) == levels[0]
    ensures WellFormed(pages', newRoot, levels', ht')
  {
    RootKeeps(pages, levels, ht, newRoot, pages', ht');
    Prepend(pages, pages', top, levels, ht');
    assert Leaves(levels') == Leaves(levels);
  }

  lemma RootKeeps(pages: Pages, levels: seq<Level>, ht: map<PageId, nat>, newRoot: PageId,
                  pages': Pages, ht': map<PageId, nat>)
    requires LevelsOk(pages, levels, ht) && newRoot !in pages
    requires newRoot in pages' && pages' == pages[newRoot := pages'[newRoot]]
    requires newRoot in ht' && ht' == ht[newRoot := ht'[newRoot]]
    ensures forall e :: 0 <= e < |levels| ==> LevelOk(pages', levels[e], ht', |levels| - 1 - e)
    ensures forall e :: 0 <= e < |levels| ==> Down(pages', levels[e]) == Down(pages, levels[e])
    ensures LeafKeys(pages, Leaves(levels)) ==> LeafKeys(pages', Leaves(levels))
  {
    forall e | 0 <= e < |levels|
      ensures LevelOk(pages', levels[e], ht', |levels| - 1 - e)
      ensures Down(pages', levels[e]) == Down(pages, levels[e])
      ensures LeafKeys(pages, levels[e]) ==> LeafKeys(pages', levels[e])
    {
      assert LevelOkAt(pages, levels, ht, e);
      LevelFrame(pages, pages', levels[e], ht, ht', |levels| - 1 - e);
    }
  }

  lemma Prepend(pages: Pages, pages': Pages, top: Level, levels: seq<Level>, ht': map<PageId, nat>)
    requires levels != [] && 0 !in pages' && LevelOk(pages', top, ht', |levels|)
    requires forall e :: 0 <= e < |levels| ==> LevelOk(pages', levels[e], ht', |levels| - 1 - e)
    requires forall e :: 0 <= e < |levels| ==> Down(pages', levels[e]) == Down(pages, levels[e])
    requires Chained(pages, levels, -1) && Down(pages', top) == levels[0]
    ensures LevelsOk(pages', [top] + levels, ht') && Chained(pages', [top] + levels, -1)
  {
    var levels' := [top] + levels;
    forall e | 0 <= e < |levels'|
      ensures LevelOkAt(pages', levels', ht', e)
    {
      assert e > 0 ==> levels'[e] == levels[e - 1];
    }
    forall e | 0 <= e < |levels'| - 1
      ensures ChainAt(pages', levels', e)
    {
      assert levels'[e + 1] == levels[e];
      if e > 0 {
        assert ChainAt(pages, levels, e - 1);
        assert levels'[e] == levels[e - 1];
      }
    }
  }

  lemma RootEntries(pages: Pages, lvl: Level, newRoot: PageId, pages': Pages)
    requires Linked(pages, lvl) && newRoot !in pages
    requires newRoot in pages' && pages' == pages[newRoot := pages'[newRoot]]
    ensures Entries(pages', lvl) == Entries(pages, lvl)
  {
    EntryFrame(pages, pages', lvl, lvl, 0, |lvl|);
  }

  lemma RootLevel(pages: Pages, root: PageId, ht: map<PageId, nat>, h: nat)
    requires root != 0 && root in pages && root in ht && ht[root] == h
    requires NodeOk(pages[root], h == 0, true) && pages[root].left == 0 == pages[root].right
    ensures LevelOk(pages, [Item(root, Inf)], ht, h)
  {
    assert LinkAt(pages, [Item(root, Inf)], 0);
  }
}
