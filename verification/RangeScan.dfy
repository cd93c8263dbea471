/**
 The range scan (pkg/bptree/bp_tree.go): the tail of one leaf, then the leaves to its right
 along the sibling links.
 */
module RangeScan {
  import opened Keys
  import opened Levels
  import opened TreeSteps
  import opened Lookup

  /** `NotALeaf` is the error of a scan that meets an internal page. */
  datatype ScanResult = Items(items: seq<Entry>) | MinKeyNotFound | StoreNotInitialized | NotALeaf

  /** Entries `s .. s + t` are the end of leaf `p`. */
  ghost predicate IsTailOf(pages: Pages, lvl: Level, p: nat, s: nat, t: nat) {
    && p < |lvl|
    && EntryOffset(pages, lvl, p) <= s < s + t == EntryOffset(pages, lvl, p + 1)
  }

  /** With a bound given, the scan stops at the first entry after the first leaf if that is below it. */
  ghost predicate StopsEarly(es: seq<Entry>, s: nat, t: nat, maxKey: Key) {
    maxKey != [] && s + t < |es| && Less(es[s + t].0, maxKey)
  }

  /** How many entries a scan answers. */
  ghost function ScanLength(es: seq<Entry>, s: nat, t: nat, maxKey: Key, count: int): (n: nat)
    requires s + t <= |es|
    ensures s + n <= |es|
  {
    var wanted := if count > t then count else t + 1;
    if StopsEarly(es, s, t, maxKey) then t
    else if wanted < |es| - s then wanted else |es| - s
  }

  /** The entries of a leaf from `idx` on: the loop of `rangeSearch`. */
  method LeafTail(node: Node, idx: nat) returns (items: seq<Entry>)
    requires |node.vals| == |node.keys| && idx <= |node.keys|
    ensures items == Pairs(node.keys, node.vals)[idx..]
  {
    items := [];
    ghost var pairs := Pairs(node.keys, node.vals);
    for i := idx to |node.keys|
      invariant items == pairs[idx..i]
    {
      items := items + [(node.keys[i], node.vals[i])];
    }
  }

  /** The inner loop of `RangeSearch` over one sibling. */
  method AppendLeaf(node: Node, before: seq<Entry>, maxKey: Key, count: int)
    returns (items: seq<Entry>, stopped: bool, ghost n: nat)
    requires |node.vals| == |node.keys|
    ensures n <= |node.keys| && items == before + Pairs(node.keys, node.vals)[..n]
    ensures Course(node.keys, |before|, n, maxKey, count, stopped)
  {
    items, stopped, n := before, false, 0;
    ghost var pairs := Pairs(node.keys, node.vals);
    var i := 0;
    while i < |node.keys| && !stopped
      invariant 0 <= i <= |node.keys| && n <= |node.keys| && items == before + pairs[..n]
      invariant !stopped ==> n == i
      invariant Course(node.keys[..if stopped then |node.keys| else n], |before|, n, maxKey, count, stopped)
      decreases |node.keys| - i, !stopped
    {
      if |maxKey| > 0 && Compare(maxKey, node.keys[i]) == 1 {
        stopped := true;
      } else {
        items := items + [(node.keys[i], node.vals[i])];
        assert pairs[..n + 1] == pairs[..n] + [pairs[n]];
        n := n + 1;
        if |items| >= count { stopped := true; } else { i := i + 1; }
      }
    }
    assert node.keys[..|node.keys|] == node.keys;
  }

  /** What one sibling contributed: `n` of its keys, after `m` entries collected before. */
  ghost predicate Course(keys: seq<Key>, m: nat, n: nat, maxKey: Key, count: int, stopped: bool) {
    && n <= |keys|
    && (forall i :: 0 <= i < n ==> maxKey == [] || !Less(keys[i], maxKey))
    && (n > 1 ==> m + n - 1 < count)
    && if stopped then (n > 0 && m + n >= count) || (n < |keys| && maxKey != [] && Less(keys[n], maxKey))
       else n == |keys| && (n > 0 ==> m + n < count)
  }

  /** A page of the leaf level behind the first: a leaf that is not empty and linked to the next. */
  ghost predicate LeafPage(pages: Pages, lvl: Level, c: nat)
    requires c < |lvl|
  {
    && lvl[c].id != 0 && lvl[c].id in pages && pages[lvl[c].id].leaf
    && |pages[lvl[c].id].vals| == |pages[lvl[c].id].keys| >= DEGREE
    && pages[lvl[c].id].right == IdAt(lvl, c + 1)
  }

  /** What a scan needs of the leaf level. */
  ghost predicate Scannable(pages: Pages, lvl: Level, es: seq<Entry>) {
    && Fenced(lvl) && LeafKeys(pages, lvl) && es == Entries(pages, lvl)
    && forall c :: 0 < c < |lvl| ==> LeafPage(pages, lvl, c)
  }

  lemma LeavesScannable(pages: Pages, levels: seq<Level>, ht: map<PageId, nat>)
    requires LevelsOk(pages, levels, ht) && LeafKeys(pages, Leaves(levels))
    ensures Scannable(pages, Leaves(levels), Entries(pages, Leaves(levels)))
  {
    var lvl := Leaves(levels);
    assert LevelOkAt(pages, levels, ht, |levels| - 1);
    forall c | 0 < c < |lvl| ensures LeafPage(pages, lvl, c) {
      assert LinkAt(pages, lvl, c) && LeafAt(pages, lvl, c);
    }
  }

  /** The entries of leaf `c` continue the entries before it. */
  lemma LeafEntries(pages: Pages, lvl: Level, c: nat, n: nat)
    requires c < |lvl| && n <= |PairsAt(pages, lvl[c].id)|
    ensures EntryOffset(pages, lvl, c) + n <= EntryOffset(pages, lvl, c + 1) <= |Entries(pages, lvl)|
    ensures EntryOffset(pages, lvl, c + 1) == EntryOffset(pages, lvl, c) + |PairsAt(pages, lvl[c].id)|
    ensures Entries(pages, lvl)[EntryOffset(pages, lvl, c)..EntryOffset(pages, lvl, c) + n] == PairsAt(pages, lvl[c].id)[..n]
  {
    EntriesAround(pages, lvl, c);
  }

  lemma TailEntries(pages: Pages, lvl: Level, p: nat, idx: nat)
    requires p < |lvl| && idx < |PairsAt(pages, lvl[p].id)|
    ensures IsTailOf(pages, lvl, p, EntryOffset(pages, lvl, p) + idx, |PairsAt(pages, lvl[p].id)| - idx)
    ensures EntryOffset(pages, lvl, p + 1) <= |Entries(pages, lvl)|
    ensures Entries(pages, lvl)[EntryOffset(pages, lvl, p) + idx..EntryOffset(pages, lvl, p + 1)] == PairsAt(pages, lvl[p].id)[idx..]
  {
    EntriesAround(pages, lvl, p);
  }

  /** One sibling's worth of scanning keeps the count on course. */
  lemma ScanStep(es: seq<Entry>, s: nat, t: nat, maxKey: Key, count: int, m: nat, n: nat, keys: seq<Key>, stopped: bool)
    requires EntriesSorted(es) && t <= m && s + m + |keys| <= |es| && keys != []
    requires forall i :: 0 <= i < |keys| ==> es[s + m + i].0 == keys[i]
    requires m > t ==> m < count && !StopsEarly(es, s, t, maxKey)
    requires Course(keys, m, n, maxKey, count, stopped)
    ensures stopped ==> m + n == ScanLength(es, s, t, maxKey, count)
    ensures !stopped ==> t < m + n < count && !StopsEarly(es, s, t, maxKey)
  {
    assert es[s + m + 0].0 == keys[0];
    if n < |keys| {
      assert es[s + m + n].0 == keys[n];
      if m + n > t { assert Less(es[s + t].0, es[s + m + n].0); }
    }
  }

  /**
   The second loop of `RangeSearch`: along the right siblings, until enough entries were
   collected.  `s` is where the scan starts among all entries, `t` how many the first leaf gave.
   */
  method ScanRight(pages: Pages, first: seq<Entry>, firstSibling: PageId, maxKey: Key, count: int,
                   ghost lvl: Level, ghost es: seq<Entry>, ghost p: nat, ghost s: nat, ghost t: nat)
    returns (r: ScanResult)
    requires Scannable(pages, lvl, es)
    requires IsTailOf(pages, lvl, p, s, t) && firstSibling == IdAt(lvl, p + 1)
    requires s + t <= |es| && first == es[s..s + t]
    ensures r == Items(es[s..s + ScanLength(es, s, t, maxKey, count)])
  {
    ghost var c := p + 1;
    var items, sibling, stopped := first, firstSibling, false;
    StartScan(pages, lvl, es, p, s, t, first, maxKey, count);
    while sibling > 0 && !stopped
      invariant p < c <= |lvl| && sibling == IdAt(lvl, c)
      invariant Scanned(pages, lvl, es, p, c, s, t, items, maxKey, count, stopped)
      decreases |lvl| - c, !stopped
    {
      NextLeaf(pages, lvl, es, c);
      var node := pages[sibling];
      if !node.leaf {
        return NotALeaf;
      }
      items, stopped := ScanOne(pages, node, items, maxKey, count, lvl, es, p, c, s, t);
      if !stopped {
        sibling := node.right;
        c := c + 1;
      }
    }
    EndScan(pages, lvl, es, p, c, s, t, items, maxKey, count, stopped);
    r := Items(items);
  }

  /** The scan is on track and has collected the entries from `s` on. */
  ghost predicate Scanned(pages: Pages, lvl: Level, es: seq<Entry>, p: nat, c: nat, s: nat, t: nat,
                          items: seq<Entry>, maxKey: Key, count: int, stopped: bool)
    requires c <= |lvl|
  {
    OnTrack(pages, lvl, es, p, c, s, t, |items|, maxKey, count, stopped) && items == es[s..s + |items|]
  }

  lemma StartScan(pages: Pages, lvl: Level, es: seq<Entry>, p: nat, s: nat, t: nat, first: seq<Entry>, maxKey: Key, count: int)
    requires IsTailOf(pages, lvl, p, s, t) && s + t <= |es| && first == es[s..s + t]
    ensures Scanned(pages, lvl, es, p, p + 1, s, t, first, maxKey, count, false)
  {
  }

  lemma EndScan(pages: Pages, lvl: Level, es: seq<Entry>, p: nat, c: nat, s: nat, t: nat, items: seq<Entry>, maxKey: Key, count: int, stopped: bool)
    requires Scannable(pages, lvl, es) && p < c <= |lvl| && Scanned(pages, lvl, es, p, c, s, t, items, maxKey, count, stopped)
    requires IdAt(lvl, c) == 0 || stopped
    ensures s + t <= |es| && items == es[s..s + ScanLength(es, s, t, maxKey, count)]
  {
    if !stopped {
      if c < |lvl| { NextLeaf(pages, lvl, es, c); }
      NothingLeft(pages, lvl, es, p, s, t, |items|, maxKey, count);
    }
  }

  lemma NextLeaf(pages: Pages, lvl: Level, es: seq<Entry>, c: nat)
    requires Scannable(pages, lvl, es) && 0 < c < |lvl|
    ensures var id := lvl[c].id;
            id > 0 && id in pages && pages[id].leaf && |pages[id].vals| == |pages[id].keys| > 0 && pages[id].right == IdAt(lvl, c + 1)
  {
    assert LeafPage(pages, lvl, c);
  }

  /** Behind the last leaf everything was taken. */
  lemma NothingLeft(pages: Pages, lvl: Level, es: seq<Entry>, p: nat, s: nat, t: nat, m: nat, maxKey: Key, count: int)
    requires es == Entries(pages, lvl) && OnTrack(pages, lvl, es, p, |lvl|, s, t, m, maxKey, count, false)
    ensures m == ScanLength(es, s, t, maxKey, count)
  {
  }

  method ScanOne(pages: Pages, node: Node, before: seq<Entry>, maxKey: Key, count: int,
                 ghost lvl: Level, ghost es: seq<Entry>, ghost p: nat, ghost c: nat, ghost s: nat, ghost t: nat)
    returns (items: seq<Entry>, stopped: bool)
    requires Scannable(pages, lvl, es) && p < c < |lvl|
    requires lvl[c].id in pages && node == pages[lvl[c].id] && |node.vals| == |node.keys| > 0
    requires Scanned(pages, lvl, es, p, c, s, t, before, maxKey, count, false)
    ensures Scanned(pages, lvl, es, p, if stopped then c else c + 1, s, t, items, maxKey, count, stopped)
  {
    ghost var m := |before|;
    ghost var n;
    items, stopped, n := AppendLeaf(node, before, maxKey, count);
    LeafScanned(pages, lvl, es, c, s, t, maxKey, count, m, n, node, stopped);
    assert items == es[s..s + m + n];
    assert s + |items| == s + m + n;
  }

  /** The state of a scan that has read leaves `p .. c` and collected `m` entries. */
  ghost predicate OnTrack(pages: Pages, lvl: Level, es: seq<Entry>, p: nat, c: nat, s: nat, t: nat,
                          m: nat, maxKey: Key, count: int, stopped: bool)
    requires c <= |lvl|
  {
    && s + t <= |es| && s + m <= |es| && t <= m
    && if stopped then m == ScanLength(es, s, t, maxKey, count)
       else
         && s + m == EntryOffset(pages, lvl, c)
         && if c > p + 1 then t < m < count && !StopsEarly(es, s, t, maxKey) else m == t
  }

  lemma TakenEntries(pages: Pages, lvl: Level, es: seq<Entry>, c: nat, s: nat, m: nat, n: nat, node: Node)
    requires c < |lvl| && es == Entries(pages, lvl) && lvl[c].id in pages && node == pages[lvl[c].id]
    requires |node.vals| == |node.keys| >= n && s + m == EntryOffset(pages, lvl, c)
    ensures s + m + n <= |es| && es[s..s + m + n] == es[s..s + m] + Pairs(node.keys, node.vals)[..n]
  {
    LeafEntries(pages, lvl, c, n);
    assert es[s..s + m + n] == es[s..s + m] + es[s + m..s + m + n];
  }

  lemma LeafKeysIn(pages: Pages, lvl: Level, es: seq<Entry>, c: nat, at: nat, node: Node)
    requires c < |lvl| && es == Entries(pages, lvl) && lvl[c].id in pages && node == pages[lvl[c].id]
    requires |node.vals| == |node.keys| && at == EntryOffset(pages, lvl, c)
    ensures at + |node.keys| == EntryOffset(pages, lvl, c + 1) <= |es|
    ensures forall i :: 0 <= i < |node.keys| ==> es[at + i].0 == node.keys[i]
  {
    LeafEntries(pages, lvl, c, 0);
    forall i | 0 <= i < |node.keys| ensures es[at + i].0 == node.keys[i] { EntryAt(pages, lvl, c, i); }
  }

  lemma LeafScanned(pages: Pages, lvl: Level, es: seq<Entry>, c: nat, s: nat, t: nat, maxKey: Key, count: int,
                    m: nat, n: nat, node: Node, stopped: bool)
    requires Fenced(lvl) && LeafKeys(pages, lvl) && es == Entries(pages, lvl)
    requires c < |lvl| && lvl[c].id in pages && node == pages[lvl[c].id] && |node.vals| == |node.keys| > 0
    requires t <= m && s + m == EntryOffset(pages, lvl, c)
    requires m > t ==> m < count && !StopsEarly(es, s, t, maxKey)
    requires Course(node.keys, m, n, maxKey, count, stopped)
    ensures s + m + n <= |es| && es[s..s + m + n] == es[s..s + m] + Pairs(node.keys, node.vals)[..n]
    ensures s + m + |node.keys| == EntryOffset(pages, lvl, c + 1)
    ensures stopped ==> m + n == ScanLength(es, s, t, maxKey, count)
    ensures !stopped ==> t < m + n < count && !StopsEarly(es, s, t, maxKey)
  {
    TakenEntries(pages, lvl, es, c, s, m, n, node);
    LeafKeysIn(pages, lvl, es, c, s + m, node);
    EntriesInKeyOrder(pages, lvl);
    ScanStep(es, s, t, maxKey, count, m, n, node.keys, stopped);
  }

  /** `RangeSearch` from a leaf in which `minKey` was found at `idx`. */
  method ScanFrom(pages: Pages, id: PageId, idx: nat, maxKey: Key, count: int,
                  ghost levels: seq<Level>, ghost ht: map<PageId, nat>, ghost p: nat)
    returns (r: ScanResult, ghost s: nat, ghost t: nat)
    requires LevelsOk(pages, levels, ht) && LeafKeys(pages, Leaves(levels))
    requires p < |Leaves(levels)| && id == Leaves(levels)[p].id && id in pages
    requires idx < |pages[id].keys| == |pages[id].vals|
    ensures var es := Entries(pages, Leaves(levels));
            && s + t <= |es| && IsTailOf(pages, Leaves(levels), p, s, t) && es[s].0 == pages[id].keys[idx]
            && r == Items(es[s..s + ScanLength(es, s, t, maxKey, count)])
  {
    var node := pages[id];
    var items := LeafTail(node, idx);
    ghost var lvl, es := Leaves(levels), Entries(pages, Leaves(levels));
    s, t := EntryOffset(pages, lvl, p) + idx, |node.keys| - idx;
    FirstStretch(pages, lvl, p, node, idx, es, s, t);
    FirstLink(pages, levels, ht, p);
    LeavesScannable(pages, levels, ht);
    r := ScanRight(pages, items, node.right, maxKey, count, lvl, es, p, s, t);
  }

  /** The entries of a leaf from an index on, as a stretch of all entries. */
  lemma FirstStretch(pages: Pages, lvl: Level, p: nat, node: Node, idx: nat, es: seq<Entry>, s: nat, t: nat)
    requires p < |lvl| && lvl[p].id in pages && node == pages[lvl[p].id] && idx < |node.keys| == |node.vals| && es == Entries(pages, lvl)
    requires s == EntryOffset(pages, lvl, p) + idx && t == |node.keys| - idx
    ensures IsTailOf(pages, lvl, p, s, t) && s + t <= |es| && Pairs(node.keys, node.vals)[idx..] == es[s..s + t]
    ensures es[s].0 == node.keys[idx]
  {
    TailEntries(pages, lvl, p, idx);
    EntryAt(pages, lvl, p, idx);
  }

  lemma FirstLink(pages: Pages, levels: seq<Level>, ht: map<PageId, nat>, p: nat)
    requires LevelsOk(pages, levels, ht) && p < |Leaves(levels)| && Leaves(levels)[p].id in pages
    ensures pages[Leaves(levels)[p].id].right == IdAt(Leaves(levels), p + 1)
  {
    assert LevelOkAt(pages, levels, ht, |levels| - 1) && LinkAt(pages, Leaves(levels), p);
  }

  // ---------------------------------------------------------------------------------------
  // The upper bound
  // ---------------------------------------------------------------------------------------

  /** What `maxKey` is documented for: nothing above it is answered. */
  ghost predicate WithinBound(es: seq<Entry>, s: nat, n: nat, maxKey: Key)
    requires s + n <= |es|
  {
    forall i :: s <= i < s + n ==> !Less(maxKey, es[i].0)
  }

  /**
   The scan compares the wrong way round, so the bound is kept in three cases only: the entry after the first
   leaf is below it; there is no such entry and the leaf is within the bound; or that entry is the bound and
   nothing is taken after it.
   */
  lemma BoundKept(es: seq<Entry>, s: nat, t: nat, maxKey: Key, count: int)
    requires EntriesSorted(es) && maxKey != [] && 0 < t && s + t <= |es|
    ensures WithinBound(es, s, ScanLength(es, s, t, maxKey, count), maxKey) <==>
            if s + t == |es| then !Less(maxKey, es[s + t - 1].0)
            else Less(es[s + t].0, maxKey) || (es[s + t].0 == maxKey && (count <= t + 1 || s + t + 1 == |es|))
  {
    var n := ScanLength(es, s, t, maxKey, count);
    forall i | s <= i < s + n - 1 ensures Less(es[i].0, es[s + n - 1].0) {}
    assert WithinBound(es, s, n, maxKey) <==> !Less(maxKey, es[s + n - 1].0);
    LessIsLexicographic(es[s + n - 1].0, maxKey);
    if s + t < |es| {
      LessIsLexicographic(es[s + t].0, maxKey);
      assert Less(es[s + t - 1].0, es[s + t].0);
    }
  }

  /** `r` entries from `s` on have keys up to `maxKey`. */
  ghost predicate Reaches(es: seq<Entry>, s: nat, maxKey: Key, r: nat) {
    && s + r <= |es| && (forall i :: s <= i < s + r ==> !Less(maxKey, es[i].0))
    && (s + r < |es| ==> Less(maxKey, es[s + r].0))
  }

  /** What is documented: the first `count` entries from `minKey` up to `maxKey`. */
  ghost function Wanted(r: nat, count: int): int { if count < r then count else r }

  /** Without a bound, the answer is the first `count` entries exactly when that is more than the first leaf gives, or just its end. */
  lemma CountExact(es: seq<Entry>, s: nat, t: nat, count: int)
    requires 0 < t && s + t <= |es|
    ensures ScanLength(es, s, t, [], count) == Wanted(|es| - s, count) <==> count > t || (count == t && s + t == |es|)
    ensures s + t < |es| ==> ScanLength(es, s, t, [], count) > t
  {
  }

  /**
   The answer is exactly the range, up to `count` entries, in three cases only.  The inverted comparison drops the rest of
   the range whenever the entry after the first leaf is below the bound, unless `count` ends there.
   */
  lemma RangeExact(es: seq<Entry>, s: nat, t: nat, maxKey: Key, count: int, r: nat)
    requires EntriesSorted(es) && maxKey != [] && 0 < t && s + t <= |es| && Reaches(es, s, maxKey, r)
    ensures ScanLength(es, s, t, maxKey, count) == Wanted(r, count) <==>
            if s + t == |es| then !Less(maxKey, es[s + t - 1].0) && count >= t
            else if Less(es[s + t].0, maxKey) then count == t
            else es[s + t].0 == maxKey && (count == t + 1 || (count > t && s + t + 1 == |es|))
  {
    var last := s + t - 1;
    if s + t == |es| {
      assert r < t ==> Less(maxKey, es[s + r].0) && (s + r == last || Less(es[s + r].0, es[last].0));
    } else {
      LessIsLexicographic(es[s + t].0, maxKey);
      assert r <= t ==> Less(maxKey, es[s + r].0) && (r == t || Less(es[s + r].0, es[s + t].0));
      assert r > t + 1 ==> Less(es[s + t].0, es[s + t + 1].0) && !Less(maxKey, es[s + t + 1].0);
      assert r > t ==> !Less(maxKey, es[s + t].0);
    }
  }

  // A tree of two leaves with the keys 1, 2 and 3, 4, 5.

  const LEFT_LEAF := Node(true, [[1], [2]], [[0], [0]], [], 0, 2)
  const RIGHT_LEAF := Node(true, [[3], [4], [5]], [[0], [0], [0]], [], 1, 0)
  const TOP_PAGE := Node(false, [[3]], [], [1, 2], 0, 0)
  const SMALL_PAGES: Pages := map[1 := LEFT_LEAF, 2 := RIGHT_LEAF, 3 := TOP_PAGE]
  const SMALL_LEAVES: Level := [Item(1, At([3])), Item(2, Inf)]
  const SMALL_LEVELS: seq<Level> := [[Item(3, Inf)], SMALL_LEAVES]
  const SMALL_HEIGHTS: map<PageId, nat> := map[1 := 0, 2 := 0, 3 := 1]

  lemma ShortKeys(a: Byte, b: Byte)
    ensures Less([a], [b]) <==> a < b
  {
    LessIsLexicographic([a], [b]);
    LessIsLexicographic([b], [a]);
  }

  lemma SmallKeys()
    ensures Sorted(LEFT_LEAF.keys) && Sorted(RIGHT_LEAF.keys)
    ensures Less([1], [3]) && Less([2], [3]) && !Less([3], [3]) && !Less([4], [3]) && !Less([5], [3])
  {
    ShortKeys(1, 2);
    ShortKeys(1, 3);
    ShortKeys(2, 3);
    ShortKeys(3, 4);
    ShortKeys(3, 5);
    ShortKeys(4, 5);
    ShortKeys(4, 3);
    ShortKeys(5, 3);
  }

  lemma SmallLeaves()
    ensures LevelOk(SMALL_PAGES, SMALL_LEAVES, SMALL_HEIGHTS, 0) && LeafKeys(SMALL_PAGES, SMALL_LEAVES)
  {
    SmallKeys();
    assert LinkAt(SMALL_PAGES, SMALL_LEAVES, 0) && LinkAt(SMALL_PAGES, SMALL_LEAVES, 1);
    assert LeafAt(SMALL_PAGES, SMALL_LEAVES, 0) && LeafAt(SMALL_PAGES, SMALL_LEAVES, 1);
  }

  lemma SmallTop()
    ensures LevelOk(SMALL_PAGES, SMALL_LEVELS[0], SMALL_HEIGHTS, 1) && Down(SMALL_PAGES, SMALL_LEVELS[0]) == SMALL_LEAVES
  {
    var top := SMALL_LEVELS[0];
    assert LinkAt(SMALL_PAGES, top, 0);
    assert DownSpan(SMALL_PAGES, top, 0, 0) == [];
    assert Children(SMALL_PAGES, top[0]) == SMALL_LEAVES;
  }

  lemma SmallTree()
    ensures WellFormed(SMALL_PAGES, 3, SMALL_LEVELS, SMALL_HEIGHTS)
  {
    SmallLeaves();
    SmallTop();
    assert LevelOkAt(SMALL_PAGES, SMALL_LEVELS, SMALL_HEIGHTS, 0) && LevelOkAt(SMALL_PAGES, SMALL_LEVELS, SMALL_HEIGHTS, 1);
    assert ChainAt(SMALL_PAGES, SMALL_LEVELS, 0);
  }

  lemma SmallEntries()
    ensures EntryOffset(SMALL_PAGES, SMALL_LEAVES, 0) == 0 && EntryOffset(SMALL_PAGES, SMALL_LEAVES, 1) == 2
    ensures var es := Entries(SMALL_PAGES, SMALL_LEAVES); |es| == 5 && es[1].0 == [2] && es[2].0 == [3]
  {
    LeafEntries(SMALL_PAGES, SMALL_LEAVES, 0, 0);
    LeafEntries(SMALL_PAGES, SMALL_LEAVES, 1, 0);
    EntryAt(SMALL_PAGES, SMALL_LEAVES, 0, 1);
    EntryAt(SMALL_PAGES, SMALL_LEAVES, 1, 0);
  }

  /** On this tree, a scan from key 2 up to key 2 for two entries answers key 3 as well. */
  lemma BoundIsMissed()
    ensures WellFormed(SMALL_PAGES, 3, SMALL_LEVELS, SMALL_HEIGHTS) && IsTailOf(SMALL_PAGES, Leaves(SMALL_LEVELS), 0, 1, 1)
    ensures var es := Entries(SMALL_PAGES, Leaves(SMALL_LEVELS));
            |es| == 5 && es[1].0 == [2] && ScanLength(es, 1, 1, [2], 2) == 2 && !WithinBound(es, 1, 2, [2])
  {
    SmallTree();
    SmallEntries();
    ShortKeys(2, 3);
    ShortKeys(3, 2);
    var es := Entries(SMALL_PAGES, SMALL_LEAVES);
    assert Less([2], es[2].0);
  }
}
