/**
 What a well-formed tree is, and the five moves an insertion is made of: put into a leaf,
 split a leaf, absorb a separator, split an internal page, grow a new root.
 */
module TreeSteps {
  import opened Keys
  import opened Levels

  ghost predicate LevelsOk(pages: Pages, levels: seq<Level>, ht: map<PageId, nat>) {
    && levels != [] && 0 !in pages
    && forall d :: 0 <= d < |levels| ==> LevelOkAt(pages, levels, ht, d)
  }

  ghost predicate LevelOkAt(pages: Pages, levels: seq<Level>, ht: map<PageId, nat>, d: int) {
    0 <= d < |levels| && LevelOk(pages, levels[d], ht, |levels| - 1 - d)
  }

  ghost predicate ChainAt(pages: Pages, levels: seq<Level>, d: int) {
    0 <= d < |levels| - 1 && levels[d + 1] == Down(pages, levels[d])
  }

  ghost predicate Chained(pages: Pages, levels: seq<Level>, gap: int) {
    forall d :: 0 <= d < |levels| - 1 && d != gap ==> ChainAt(pages, levels, d)
  }

  ghost function Leaves(levels: seq<Level>): Level
    requires levels != []
  {
    levels[|levels| - 1]
  }

  /** What the pages above depth `d` promise for it. */
  ghost function Promised(pages: Pages, root: PageId, levels: seq<Level>, d: nat): Level
    requires d <= |levels|
  {
    if d == 0 then [Item(root, Inf)] else Down(pages, levels[d - 1])
  }

  ghost predicate WellFormed(pages: Pages, root: PageId, levels: seq<Level>, ht: map<PageId, nat>) {
    && LevelsOk(pages, levels, ht)
    && LeafKeys(pages, Leaves(levels))
    && Chained(pages, levels, -1)
    && levels[0] == Promised(pages, root, levels, 0)
  }

  /** A level with pages `p` and `p + 1` read as one. */
  ghost function Merge(lvl: Level, p: nat): Level
    requires p + 1 < |lvl|
  {
    lvl[..p] + [Item(lvl[p].id, lvl[p + 1].hi)] + lvl[p + 2..]
  }

  /** A level with page `p` split at `sep`, the right half on page `newId`. */
  ghost function Cut(lvl: Level, p: nat, sep: Key, newId: PageId): (r: Level)
    requires p < |lvl|
    ensures |r| == |lvl| + 1
    ensures r[p] == Item(lvl[p].id, At(sep)) && r[p + 1] == Item(newId, lvl[p].hi)
    ensures forall i :: 0 <= i < p ==> r[i] == lvl[i]
    ensures forall i :: p + 1 < i < |r| ==> r[i] == lvl[i - 1]
  {
    lvl[..p] + [Item(lvl[p].id, At(sep)), Item(newId, lvl[p].hi)] + lvl[p + 1..]
  }

  lemma MergeCut(lvl: Level, p: nat, sep: Key, newId: PageId)
    requires p < |lvl|
    ensures Merge(Cut(lvl, p, sep, newId), p) == lvl
  {
    var c := Cut(lvl, p, sep, newId);
    assert c[p + 2..] == lvl[p + 1..];
  }

  lemma CutMerge(lvl: Level, p: nat)
    requires p + 1 < |lvl| && lvl[p].hi.At?
    ensures Cut(Merge(lvl, p), p, lvl[p].hi.key, lvl[p + 1].id) == lvl
  {
    var m := Merge(lvl, p);
    assert m[p + 1..] == lvl[p + 2..];
    assert lvl == lvl[..p] + [lvl[p], lvl[p + 1]] + lvl[p + 2..];
  }

  /**
   Half-way through an insertion: page `p` of depth `d` has been split, and the depth above
   (or, at depth 0, the root pointer) does not know the right half yet.
   */
  ghost predicate Pending(pages: Pages, root: PageId, levels: seq<Level>, ht: map<PageId, nat>,
                          d: nat, p: nat, sep: Key, newId: PageId)
  {
    && LevelsOk(pages, levels, ht)
    && LeafKeys(pages, Leaves(levels))
    && d < |levels| && p + 1 < |levels[d]|
    && levels[d][p].hi == At(sep) && levels[d][p + 1].id == newId
    && Chained(pages, levels, d - 1)
    && Merge(levels[d], p) == Promised(pages, root, levels, d)
    && (d > 0 ==> levels[0] == [Item(root, Inf)])
  }

  // ---------------------------------------------------------------------------------------
  // Frames
  // ---------------------------------------------------------------------------------------

  ghost predicate SameOn(pages: Pages, pages': Pages, lvl: Level) {
    forall i :: 0 <= i < |lvl| ==>
      lvl[i].id in pages && lvl[i].id in pages' && pages[lvl[i].id] == pages'[lvl[i].id]
  }

  lemma LevelFrame(pages: Pages, pages': Pages, lvl: Level, ht: map<PageId, nat>, ht': map<PageId, nat>, h: nat)
    requires LevelOk(pages, lvl, ht, h) && SameOn(pages, pages', lvl)
    requires forall i :: 0 <= i < |lvl| ==> lvl[i].id in ht' && ht'[lvl[i].id] == h
    ensures LevelOk(pages', lvl, ht', h)
    ensures Down(pages', lvl) == Down(pages, lvl)
    ensures LeafKeys(pages, lvl) ==> LeafKeys(pages', lvl)
  {
    DownFrame(pages, pages', lvl, lvl, 0, |lvl|);
    forall i | 0 <= i < |lvl|
      ensures LinkAt(pages', lvl, i)
      ensures LeafKeys(pages, lvl) ==> LeafAt(pages', lvl, i)
    {
      assert LinkAt(pages, lvl, i);
      assert LeafKeys(pages, lvl) ==> LeafAt(pages, lvl, i);
    }
  }

  /** Changes confined to pages of height `h` leave every other level as it was. */
  lemma OtherLevel(pages: Pages, pages': Pages, levels: seq<Level>, ht: map<PageId, nat>, ht': map<PageId, nat>,
                   h: nat, d: nat)
    requires LevelsOk(pages, levels, ht) && d < |levels| && |levels| - 1 - d != h
    requires forall x :: x in pages && x in ht && ht[x] != h ==>
               x in pages' && pages'[x] == pages[x] && x in ht' && ht'[x] == ht[x]
    ensures SameOn(pages, pages', levels[d])
    ensures LevelOk(pages', levels[d], ht', |levels| - 1 - d)
    ensures Down(pages', levels[d]) == Down(pages, levels[d])
    ensures LeafKeys(pages, levels[d]) ==> LeafKeys(pages', levels[d])
  {
    assert LevelOkAt(pages, levels, ht, d);
    LevelFrame(pages, pages', levels[d], ht, ht', |levels| - 1 - d);
  }

  // ---------------------------------------------------------------------------------------
  // Splitting a page of a level
  // ---------------------------------------------------------------------------------------

  /** The writes of a split: left half, right half, and the old right sibling's back link. */
  ghost function SplitPages(pages: Pages, id: PageId, l: Node, newId: PageId, r: Node): Pages
    requires id in pages
  {
    var next := pages[id].right;
    var base := if next in pages then pages[next := pages[next].(left := newId)] else pages;
    base[id := l.(left := pages[id].left, right := newId)][newId := r.(left := id, right := next)]
  }

  lemma CutFenced(lvl: Level, p: nat, sep: Key, newId: PageId)
    requires Fenced(lvl) && p < |lvl|
    requires p > 0 ==> BoundLess(lvl[p - 1].hi, At(sep))
    requires BoundLess(At(sep), lvl[p].hi)
    ensures Fenced(Cut(lvl, p, sep, newId))
  {
    var c := Cut(lvl, p, sep, newId);
    forall i, j | 0 <= i < j < |c|
      ensures BoundLess(c[i].hi, c[j].hi)
    {
      if i < p {
        assert c[i] == lvl[i];
        assert i < p - 1 ==> BoundLess(lvl[i].hi, lvl[p - 1].hi);
        assert BoundLess(lvl[i].hi, lvl[p].hi);
        if j > p { assert c[j].hi == lvl[j - 1].hi; }
      } else {
        assert c[j].hi == lvl[j - 1].hi;
        if i > p { assert c[i].hi == lvl[i - 1].hi; }
        else { assert j - 1 > p ==> BoundLess(lvl[p].hi, lvl[j - 1].hi); }
      }
    }
  }

  /** The pages of a level after a split, one by one. */
  lemma SplitReads(pages: Pages, lvl: Level, p: nat, l: Node, newId: PageId, r: Node, i: nat)
    requires Linked(pages, lvl) && DistinctIds(lvl) && p < |lvl| && i < |lvl|
    requires newId !in pages && 0 !in pages
    ensures var pages' := SplitPages(pages, lvl[p].id, l, newId, r);
            && pages'[newId] == r.(left := lvl[p].id, right := IdAt(lvl, p + 1))
            && lvl[i].id in pages'
            && pages'[lvl[i].id] ==
               if i == p then l.(left := IdAt(lvl, p - 1), right := newId)
               else if i == p + 1 then pages[lvl[i].id].(left := newId)
               else pages[lvl[i].id]
  {
    assert LinkAt(pages, lvl, p) && LinkAt(pages, lvl, i);
    if p + 1 < |lvl| { assert lvl[p].id != lvl[p + 1].id; }
    if i != p + 1 && p + 1 < |lvl| { assert lvl[i].id != lvl[p + 1].id; }
    if i != p { assert lvl[i].id != lvl[p].id; }
  }

  lemma CutDistinct(pages: Pages, lvl: Level, p: nat, sep: Key, newId: PageId)
    requires Linked(pages, lvl) && DistinctIds(lvl) && p < |lvl| && newId !in pages
    ensures DistinctIds(Cut(lvl, p, sep, newId))
  {
    var c := Cut(lvl, p, sep, newId);
    forall i, j | 0 <= i < j < |c|
      ensures c[i].id != c[j].id
    {
      assert c[j].id == if j <= p then lvl[j].id else if j == p + 1 then newId else lvl[j - 1].id;
      assert c[i].id == if i <= p then lvl[i].id else if i == p + 1 then newId else lvl[i - 1].id;
    }
  }

  lemma SplitLinks(pages: Pages, lvl: Level, p: nat, sep: Key, l: Node, newId: PageId, r: Node)
    requires Linked(pages, lvl) && DistinctIds(lvl) && p < |lvl|
    requires newId !in pages && 0 !in pages
    ensures Linked(SplitPages(pages, lvl[p].id, l, newId, r), Cut(lvl, p, sep, newId))
  {
    var c := Cut(lvl, p, sep, newId);
    var pages' := SplitPages(pages, lvl[p].id, l, newId, r);
    forall i | 0 <= i < |c|
      ensures LinkAt(pages', c, i)
    {
      assert LinkAt(pages, lvl, if i <= p then i else i - 1);
      SplitReads(pages, lvl, p, l, newId, r, if i <= p then i else i - 1);
    }
  }

  lemma SplitShaped(pages: Pages, lvl: Level, ht: map<PageId, nat>, h: nat, p: nat, sep: Key,
                    l: Node, newId: PageId, r: Node)
    requires LevelOk(pages, lvl, ht, h) && p < |lvl|
    requires newId != 0 && newId !in pages && 0 !in pages
    requires NodeOk(l, h == 0, false) && NodeOk(r, h == 0, false)
    ensures Shaped(SplitPages(pages, lvl[p].id, l, newId, r), Cut(lvl, p, sep, newId), ht[newId := h], h)
  {
    var c := Cut(lvl, p, sep, newId);
    var pages' := SplitPages(pages, lvl[p].id, l, newId, r);
    forall i | 0 <= i < |c|
      ensures c[i].id != 0 && c[i].id in pages' && NodeOk(pages'[c[i].id], h == 0, |c| == 1)
      ensures c[i].id in ht[newId := h] && ht[newId := h][c[i].id] == h
    {
      SplitReads(pages, lvl, p, l, newId, r, if i <= p then i else i - 1);
    }
  }

  /** A split keeps everything one level keeps. */
  lemma SplitLevel(pages: Pages, lvl: Level, ht: map<PageId, nat>, h: nat, p: nat, sep: Key,
                   l: Node, newId: PageId, r: Node)
    requires LevelOk(pages, lvl, ht, h) && p < |lvl|
    requires newId != 0 && newId !in pages && 0 !in pages
    requires NodeOk(l, h == 0, false) && NodeOk(r, h == 0, false)
    requires p > 0 ==> BoundLess(lvl[p - 1].hi, At(sep))
    requires BoundLess(At(sep), lvl[p].hi)
    ensures LevelOk(SplitPages(pages, lvl[p].id, l, newId, r), Cut(lvl, p, sep, newId), ht[newId := h], h)
  {
    CutFenced(lvl, p, sep, newId);
    CutDistinct(pages, lvl, p, sep, newId);
    SplitLinks(pages, lvl, p, sep, l, newId, r);
    SplitShaped(pages, lvl, ht, h, p, sep, l, newId, r);
  }

  // ---------------------------------------------------------------------------------------
  // Move 1: put into a leaf that has room
  // ---------------------------------------------------------------------------------------

  /** A leaf's new contents: sorted, and inside the leaf's fences. */
  ghost predicate Fits(lvl: Level, p: int, n: Node) {
    && 0 <= p < |lvl| && n.leaf && |n.vals| == |n.keys| && n.children == []
    && Sorted(n.keys)
    && forall j :: 0 <= j < |n.keys| ==> InRange(lvl, p, n.keys[j])
  }

  lemma LeafPut(pages: Pages, root: PageId, levels: seq<Level>, ht: map<PageId, nat>, p: nat, n: Node)
    requires WellFormed(pages, root, levels, ht)
    requires Fits(Leaves(levels), p, n) && NodeOk(n, true, |Leaves(levels)| == 1)
    requires n.left == pages[Leaves(levels)[p].id].left && n.right == pages[Leaves(levels)[p].id].right
    ensures WellFormed(pages[Leaves(levels)[p].id := n], root, levels, ht)
  {
    var lvl := Leaves(levels);
    var pages' := pages[lvl[p].id := n];
    assert LevelOkAt(pages, levels, ht, |levels| - 1);
    forall i | 0 <= i < |lvl|
      ensures LinkAt(pages', lvl, i) && LeafAt(pages', lvl, i)
    {
      assert LinkAt(pages, lvl, i) && LeafAt(pages, lvl, i);
    }
    OthersKept(pages, pages', levels, levels, ht, ht, |levels| - 1);
    ChainKept(pages, pages', levels, levels, -1, |levels| - 1);
  }

  /** A change at depth `d` keeps the other depths. */
  lemma OthersKept(pages: Pages, pages': Pages, levels: seq<Level>, levels': seq<Level>,
                   ht: map<PageId, nat>, ht': map<PageId, nat>, d: nat)
    requires LevelsOk(pages, levels, ht) && d < |levels| && 0 !in pages'
    requires |levels'| == |levels| && forall e :: 0 <= e < |levels| && e != d ==> levels'[e] == levels[e]
    requires forall x :: x in pages && x in ht && ht[x] != |levels| - 1 - d ==>
               x in pages' && pages'[x] == pages[x] && x in ht' && ht'[x] == ht[x]
    requires LevelOk(pages', levels'[d], ht', |levels| - 1 - d)
    ensures LevelsOk(pages', levels', ht')
    ensures forall e :: 0 <= e < |levels| && e != d ==> Down(pages', levels[e]) == Down(pages, levels[e])
  {
    forall e | 0 <= e < |levels| && e != d
      ensures LevelOkAt(pages', levels', ht', e)
      ensures Down(pages', levels[e]) == Down(pages, levels[e])
    {
      OtherLevel(pages, pages', levels, ht, ht', |levels| - 1 - d, e);
    }
    assert LevelOkAt(pages', levels', ht', d);
  }

  /** A change above the leaves keeps what the leaves hold. */
  lemma LeavesKept(pages: Pages, pages': Pages, levels: seq<Level>, ht: map<PageId, nat>, ht': map<PageId, nat>, h: nat)
    requires LevelsOk(pages, levels, ht) && h > 0
    requires forall x :: x in pages && x in ht && ht[x] != h ==>
               x in pages' && pages'[x] == pages[x] && x in ht' && ht'[x] == ht[x]
    ensures LeafKeys(pages, Leaves(levels)) ==> LeafKeys(pages', Leaves(levels))
    ensures Entries(pages', Leaves(levels)) == Entries(pages, Leaves(levels))
  {
    OtherLevel(pages, pages', levels, ht, ht', h, |levels| - 1);
    EntryFrame(pages, pages', Leaves(levels), Leaves(levels), 0, |Leaves(levels)|);
  }

  /** The chain between levels survives a change of depth `d`, up to depth `d` itself. */
  lemma ChainKept(pages: Pages, pages': Pages, levels: seq<Level>, levels': seq<Level>, gap: int, d: nat)
    requires Chained(pages, levels, gap) && d < |levels| == |levels'|
    requires forall e :: 0 <= e < |levels| && e != d ==> levels'[e] == levels[e]
    requires forall e :: 0 <= e < |levels| && e != d ==> Down(pages', levels[e]) == Down(pages, levels[e])
    requires d < |levels| - 1 ==> Down(pages', levels'[d]) == levels[d + 1]
    requires gap == d || gap == -1
    ensures Chained(pages', levels', d - 1)
    ensures levels'[d] == levels[d] ==> Chained(pages', levels', -1)
  {
    forall e | 0 <= e < |levels| - 1 && (e != d - 1 || levels'[d] == levels[d])
      ensures ChainAt(pages', levels', e)
    {
      assert e != d ==> ChainAt(pages, levels, e);
    }
  }

  // ---------------------------------------------------------------------------------------
  // Move 2: split an overfull leaf
  // ---------------------------------------------------------------------------------------

  function LeafLeft(n: Node): Node
    requires |n.vals| == |n.keys|
  {
    n.(keys := n.keys[..|n.keys| / 2], vals := n.vals[..|n.keys| / 2])
  }

  function LeafRight(n: Node): Node
    requires |n.vals| == |n.keys|
  {
    Node(true, n.keys[|n.keys| / 2..], n.vals[|n.keys| / 2..], [], 0, 0)
  }

  /** The halves of a leaf make up the leaf, and are as even as can be. */
  lemma LeafHalves(n: Node)
    requires |n.vals| == |n.keys|
    ensures LeafLeft(n).keys + LeafRight(n).keys == n.keys && LeafLeft(n).vals + LeafRight(n).vals == n.vals
    ensures 0 <= |LeafRight(n).keys| - |LeafLeft(n).keys| <= 1
  {
  }

  lemma SplitLeafKeys(pages: Pages, lvl: Level, p: nat, n: Node, newId: PageId)
    requires LeafKeys(pages, lvl) && Linked(pages, lvl) && DistinctIds(lvl) && newId !in pages && 0 !in pages
    requires Fits(lvl, p, n) && |n.keys| >= 2
    requires p > 0 ==> lvl[p - 1].hi.At?
    ensures var l, r := LeafLeft(n), LeafRight(n);
            var c := Cut(lvl, p, r.keys[0], newId);
            && (p > 0 ==> BoundLess(lvl[p - 1].hi, At(r.keys[0]))) && BoundLess(At(r.keys[0]), lvl[p].hi)
            && LeafKeys(SplitPages(pages, lvl[p].id, l, newId, r), c)
  {
    var l, r := LeafLeft(n), LeafRight(n);
    var c := Cut(lvl, p, r.keys[0], newId);
    var pages' := SplitPages(pages, lvl[p].id, l, newId, r);
    assert Less(n.keys[0], r.keys[0]);
    forall i | 0 <= i < |c|
      ensures c[i].id in pages' && LeafAt(pages', c, i)
    {
      var i0 := if i <= p then i else i - 1;
      SplitReads(pages, lvl, p, l, newId, r, i0);
      assert LeafAt(pages, lvl, i0);
      forall j | 0 <= j < |pages'[c[i].id].keys|
        ensures InRange(c, i, pages'[c[i].id].keys[j])
      {
        if i == p || i == p + 1 {
          assert InRange(lvl, p, pages'[c[i].id].keys[j]);
        } else {
          assert InRange(lvl, i0, pages'[c[i].id].keys[j]);
        }
      }
    }
  }

  lemma PairsSplit(n: Node)
    requires |n.vals| == |n.keys|
    ensures Pairs(LeafLeft(n).keys, LeafLeft(n).vals) + Pairs(LeafRight(n).keys, LeafRight(n).vals) == Pairs(n.keys, n.vals)
  {
  }

  lemma SplitEntries(pages: Pages, lvl: Level, p: nat, n: Node, sep: Key, newId: PageId)
    requires Linked(pages, lvl) && DistinctIds(lvl) && newId !in pages && 0 !in pages
    requires p < |lvl| && |n.vals| == |n.keys|
    ensures Entries(SplitPages(pages, lvl[p].id, LeafLeft(n), newId, LeafRight(n)), Cut(lvl, p, sep, newId)) ==
            EntrySpan(pages, lvl, 0, p) + Pairs(n.keys, n.vals) + EntrySpan(pages, lvl, p + 1, |lvl|)
  {
    var l, r := LeafLeft(n), LeafRight(n);
    var pages' := SplitPages(pages, lvl[p].id, l, newId, r);
    var c := Cut(lvl, p, sep, newId);
    forall i | 0 <= i < |lvl| && i != p
      ensures PairsAt(pages', lvl[i].id) == PairsAt(pages, lvl[i].id)
    {
      SplitReads(pages, lvl, p, l, newId, r, i);
    }
    EntryFrame(pages, pages', lvl, c, 0, p);
    EntryShift(pages, pages', lvl, c, p + 1, |lvl|, p + 2, |c|);
    assert PairsAt(pages', c[p].id) + PairsAt(pages', c[p + 1].id) == Pairs(n.keys, n.vals) by {
      SplitReads(pages, lvl, p, l, newId, r, p);
      PairsSplit(n);
    }
    EntriesAroundTwo(pages', c, p);
  }

  lemma LeafSplit(pages: Pages, root: PageId, levels: seq<Level>, ht: map<PageId, nat>, p: nat, n: Node, newId: PageId)
    requires WellFormed(pages, root, levels, ht)
    requires Fits(Leaves(levels), p, n) && |n.keys| == ORDER + 1
    requires newId != 0 && newId !in pages
    ensures var lvl := Leaves(levels);
            var l, r := LeafLeft(n), LeafRight(n);
            var pages' := SplitPages(pages, lvl[p].id, l, newId, r);
            var levels' := levels[|levels| - 1 := Cut(lvl, p, r.keys[0], newId)];
            && Pending(pages', root, levels', ht[newId := 0], |levels| - 1, p, r.keys[0], newId)
            && Entries(pages', Leaves(levels')) == EntrySpan(pages, lvl, 0, p) + Pairs(n.keys, n.vals) + EntrySpan(pages, lvl, p + 1, |lvl|)
  {
    var d := |levels| - 1;
    var lvl := Leaves(levels);
    var l, r := LeafLeft(n), LeafRight(n);
    var pages' := SplitPages(pages, lvl[p].id, l, newId, r);
    var levels' := levels[d := Cut(lvl, p, r.keys[0], newId)];
    assert LevelOkAt(pages, levels, ht, d);
    LeafSplitLevel(pages, lvl, ht, p, n, newId, pages');
    SplitElsewhere(pages, lvl, ht, 0, p, l, newId, r);
    LeafSplitRest(pages, root, levels, ht, p, r.keys[0], newId, pages', levels');
  }

  /** The leaf level after the split. */
  lemma LeafSplitLevel(pages: Pages, lvl: Level, ht: map<PageId, nat>, p: nat, n: Node, newId: PageId, pages': Pages)
    requires LevelOk(pages, lvl, ht, 0) && LeafKeys(pages, lvl) && Fits(lvl, p, n) && |n.keys| == ORDER + 1
    requires newId != 0 && newId !in pages && 0 !in pages
    requires pages' == SplitPages(pages, lvl[p].id, LeafLeft(n), newId, LeafRight(n))
    ensures var c := Cut(lvl, p, LeafRight(n).keys[0], newId);
            && LevelOk(pages', c, ht[newId := 0], 0) && LeafKeys(pages', c)
            && Entries(pages', c) == EntrySpan(pages, lvl, 0, p) + Pairs(n.keys, n.vals) + EntrySpan(pages, lvl, p + 1, |lvl|)
  {
    var l, r := LeafLeft(n), LeafRight(n);
    if p > 0 { assert BoundLess(lvl[p - 1].hi, lvl[p].hi); }
    SplitLeafKeys(pages, lvl, p, n, newId);
    SplitLevel(pages, lvl, ht, 0, p, r.keys[0], l, newId, r);
    SplitEntries(pages, lvl, p, n, r.keys[0], newId);
  }

  /** The levels above the split leaf. */
  lemma LeafSplitRest(pages: Pages, root: PageId, levels: seq<Level>, ht: map<PageId, nat>, p: nat, sep: Key, newId: PageId,
                      pages': Pages, levels': seq<Level>)
    requires WellFormed(pages, root, levels, ht) && p < |Leaves(levels)| && 0 !in pages'
    requires levels' == levels[|levels| - 1 := Cut(Leaves(levels), p, sep, newId)]
    requires LevelOk(pages', Leaves(levels'), ht[newId := 0], 0) && LeafKeys(pages', Leaves(levels'))
    requires forall x :: x in pages && x in ht && ht[x] != 0 ==>
               x in pages' && pages'[x] == pages[x] && x in ht[newId := 0] && ht[newId := 0][x] == ht[x]
    ensures Pending(pages', root, levels', ht[newId := 0], |levels| - 1, p, sep, newId)
  {
    var d := |levels| - 1;
    MergeCut(Leaves(levels), p, sep, newId);
    OthersKept(pages, pages', levels, levels', ht, ht[newId := 0], d);
    ChainKept(pages, pages', levels, levels', -1, d);
    assert d > 0 ==> ChainAt(pages, levels, d - 1);
  }

  /** A split of a page of height `h` writes only pages of that height, and the new one. */
  lemma SplitElsewhere(pages: Pages, lvl: Level, ht: map<PageId, nat>, h: nat, p: nat, l: Node, newId: PageId, r: Node)
    requires LevelOk(pages, lvl, ht, h) && p < |lvl| && newId !in pages && newId != 0 && 0 !in pages
    ensures var pages' := SplitPages(pages, lvl[p].id, l, newId, r);
            && 0 !in pages'
            && forall x :: x in pages && x in ht && ht[x] != h ==>
                 x in pages' && pages'[x] == pages[x] && x in ht[newId := h] && ht[newId := h][x] == ht[x]
  {
    assert LinkAt(pages, lvl, p);
  }
}
