/**
 Page ids (pkg/pager/pager.go) and the list of free ones (pkg/pager/freelist.go).
 */
module Pager {
  /** The conversion `int32(p)` of an unsigned 32-bit number. */
  function ToInt32(p: nat): int { if p < 0x8000_0000 then p else p - 0x1_0000_0000 }

  // ---------------------------------------------------------------------------------------
  // The free list file, as 32-bit words: 1024 on a page of 4096 bytes
  // ---------------------------------------------------------------------------------------

  /** Pages written for a list: its length is divided by the page size in bytes, not in entries. */
  function PagesFor(n: nat): nat { (n + 4095) / 4096 }

  /** How many entries of a list of `n` reach the file. */
  function Kept(n: nat): nat { if n < 1024 * PagesFor(n) then n else 1024 * PagesFor(n) }

  /** The list reaches the file as a whole exactly when it fits on one page. */
  lemma KeptAll(n: nat)
    ensures Kept(n) <= n && (Kept(n) == n <==> n <= 1024)
  {
  }

  /** The file of a free list: its first entries, padded with zeros to full pages. */
  ghost predicate IsImage(list: seq<nat>, file: seq<nat>) {
    && |file| == 1024 * PagesFor(|list|)
    && forall i :: 0 <= i < |file| ==> file[i] == if i < |list| then list[i] else 0
  }

  /** What loading reads: the words before the first zero. */
  ghost predicate IsLoaded(file: seq<nat>, list: seq<nat>) {
    && |list| <= |file| && list == file[..|list|] && (forall i :: 0 <= i < |list| ==> list[i] != 0)
    && (|list| < |file| ==> file[|list|] == 0)
  }

  /** Flushing and loading gives the first `Kept` entries. */
  lemma FlushLoad(list: seq<nat>, file: seq<nat>, loaded: seq<nat>)
    requires IsImage(list, file) && IsLoaded(file, loaded) && forall i :: 0 <= i < |list| ==> list[i] != 0
    ensures loaded == list[..Kept(|list|)]
    ensures loaded == list <==> |list| <= 1024
  {
    var n := Kept(|list|);
    KeptAll(|list|);
    forall k | 0 <= k < n ensures file[k] == list[k] && list[k] != 0 {}
    forall k | n <= k < |file| ensures file[k] == 0 {}
    forall k | 0 <= k < |loaded| ensures loaded[k] == file[k] && file[k] != 0 {}
    assert n <= |loaded|;
    assert n < |file| ==> file[n] == 0;
    assert |loaded| == n;
  }

  class FreeList {
    var freePages: seq<nat>
    var count: int
    var dirty: bool
    var file: seq<nat>

    ghost predicate Valid()
      reads this
    {
      count == |freePages|
    }

    constructor (file: seq<nat>)
      ensures Valid() && freePages == [] && !dirty && this.file == file
    {
      freePages, count, dirty, this.file := [], 0, false, file;
    }

    /** `pop`. */
    method Pop() returns (r: int)
      requires Valid()
      modifies this
      ensures Valid() && file == old(file)
      ensures old(freePages) == [] ==> r == -1 && freePages == [] && dirty == old(dirty)
      ensures old(freePages) != [] ==>
                r == ToInt32(old(freePages[|freePages| - 1])) && freePages == old(freePages[..|freePages| - 1]) && dirty
    {
      if count <= 0 {
        return -1;
      }
      var p := freePages[count - 1];
      freePages := freePages[..count - 1] + freePages[count..];
      count := count - 1;
      dirty := true;
      return ToInt32(p);
    }

    /** `add`. */
    method Add(p: nat)
      requires Valid()
      modifies this
      ensures Valid() && file == old(file) && freePages == [p] + old(freePages) && dirty
    {
      freePages := [p] + freePages;
      count := count + 1;
      dirty := true;
    }

    /** `flushFreeList`. */
    method Flush()
      requires Valid()
      modifies this
      ensures Valid() && freePages == old(freePages) && !dirty
      ensures if old(dirty) then IsImage(freePages, file) else file == old(file)
    {
      if !dirty {
        return;
      }
      var numOfPages := PagesFor(|freePages|);
      if count <= 0 {
        file := [];
        dirty := false;
        return;
      }
      var written: seq<nat> := [];
      for i := 0 to numOfPages
        invariant |written| == 1024 * i
        invariant forall j :: 0 <= j < |written| ==> written[j] == if j < |freePages| then freePages[j] else 0
        invariant freePages == old(freePages) && Valid()
      {
        var page := PageAt(freePages, i);
        written := written + page;
      }
      file := written;
      dirty := false;
    }

    /** `loadFreeList` on a list just made. */
    method Load()
      requires Valid() && freePages == [] && |file| % 1024 == 0
      modifies this
      ensures Valid() && file == old(file) && IsLoaded(file, freePages)
    {
      var i := 0;
      while i < |file|
        invariant 0 <= i <= |file| && file == old(file) && freePages == file[..i]
        invariant forall j :: 0 <= j < i ==> file[j] != 0
      {
        if file[i] == 0 {
          break;
        }
        freePages := freePages + [file[i]];
        i := i + 1;
      }
      count := |freePages|;
    }
  }

  /** One page of the file: a zeroed buffer with the entries of this page copied in. */
  method PageAt(list: seq<nat>, i: nat) returns (page: seq<nat>)
    requires i < PagesFor(|list|)
    ensures |page| == 1024
    ensures forall j :: 0 <= j < 1024 ==> page[j] == if 1024 * i + j < |list| then list[1024 * i + j] else 0
  {
    var itemList := if |list| >= (i + 1) * 1024 then list[i * 1024..i * 1024 + 1024] else list[i * 1024..];
    var byteArr := new nat[1024](_ => 0);
    for idx := 0 to |itemList|
      invariant forall j :: 0 <= j < idx ==> byteArr[j] == itemList[j]
      invariant forall j :: idx <= j < 1024 ==> byteArr[j] == 0
    {
      byteArr[idx] := itemList[idx];
    }
    page := byteArr[..];
  }

  // ---------------------------------------------------------------------------------------
  // Page ids
  // ---------------------------------------------------------------------------------------

  /** No id is live and free, or free twice, and all of them have been handed out before. */
  ghost predicate Separate(live: set<nat>, free: seq<nat>, maxPageId: nat) {
    && (forall i, j :: 0 <= i < j < |free| ==> free[i] != free[j])
    && (forall p :: p in live ==> p !in free)
    && (forall p :: p in live || p in free ==> 1 <= p <= maxPageId)
  }

  /** Every id handed out before is live or free: none is lost. */
  ghost predicate NoneLost(live: set<nat>, free: seq<nat>, maxPageId: nat) {
    forall p :: 1 <= p <= maxPageId ==> p in live || p in free
  }

  lemma PopSeparate(live: set<nat>, free: seq<nat>, maxPageId: nat)
    requires Separate(live, free, maxPageId) && free != []
    ensures var n := |free| - 1;
            && free[n] !in live && 1 <= free[n] <= maxPageId && free[n] !in free[..n]
            && Separate(live + {free[n]}, free[..n], maxPageId) && Separate(live + {maxPageId + 1}, free[..n], maxPageId + 1)
            && (NoneLost(live, free, maxPageId) ==> NoneLost(live + {free[n]}, free[..n], maxPageId))
  {
    var n := |free| - 1;
    assert free == free[..n] + [free[n]];
    assert free[n] in free;
  }

  /** The id popped next is below 2^31 and so not taken for the answer of an empty list. */
  ghost predicate PopsSmall(free: seq<nat>) { free != [] && free[|free| - 1] < 0x8000_0000 }

  class Allocator {
    const freeList: FreeList
    var maxPageId: nat
    var pageCount: nat
    /** The ids handed out and not given back. */
    ghost var live: set<nat>

    ghost predicate Valid()
      reads this, freeList
    {
      freeList.Valid() && Separate(live, freeList.freePages, maxPageId) && maxPageId < 0x1_0000_0000
    }

    /** The next new id wraps around: all 32-bit ids have been handed out, and none that can be popped is left. */
    ghost predicate Exhausted()
      reads this, freeList
    {
      maxPageId == 0xFFFF_FFFF && !PopsSmall(freeList.freePages)
    }

    /** Live and free ids partition 1..maxPageId. */
    ghost predicate Complete()
      reads this, freeList
    {
      NoneLost(live, freeList.freePages, maxPageId)
    }

    constructor ()
      ensures Valid() && Complete() && fresh(freeList) && maxPageId == 0 && live == {}
    {
      freeList := new FreeList([]);
      maxPageId, pageCount, live := 0, 0, {};
    }

    /**
     `NewPageId`: never an id that is live, also after an id was lost.  An id is lost exactly when the one popped is
     not below 2^31: it turns negative and is taken for an empty list.  The counter wraps around exactly when the
     allocator is exhausted, and then the answer is 0, which is no page.
     */
    method NewPageId() returns (id: nat)
      requires Valid()
      modifies this, freeList
      ensures id !in old(live) && live == old(live) + {id} && pageCount == old(pageCount)
      ensures (id > 0 <==> !old(Exhausted())) && (Valid() <==> !old(Exhausted()))
      ensures old(Exhausted()) ==> maxPageId == 0
      ensures !old(Exhausted()) ==> id <= maxPageId
      ensures !old(Exhausted()) && old(Complete()) ==> (Complete() <==> old(freeList.freePages == [] || PopsSmall(freeList.freePages)))
      ensures old(freeList.freePages) == [] ==> id == maxPageId == (old(maxPageId) + 1) % 0x1_0000_0000
    {
      ghost var free := freeList.freePages;
      if free != [] { PopSeparate(live, free, maxPageId); }
      assert 0 !in live;
      var n := freeList.Pop();
      if n < 0 {
        if free != [] { LostId(live, free, maxPageId); }
        id := (maxPageId + 1) % 0x1_0000_0000;
        maxPageId := (maxPageId + 1) % 0x1_0000_0000;
      } else {
        id := n;
      }
      live := live + {id};
      assert id == 0 ==> 0 in live;
    }

    /** The end of `WritePage` for a page marked dead. */
    method WriteDeadPage(pageId: nat)
      requires Valid() && pageId in live
      modifies this, freeList
      ensures Valid() && live == old(live) - {pageId} && maxPageId == old(maxPageId) && (old(Complete()) <==> Complete())
      ensures freeList.freePages == [pageId] + old(freeList.freePages)
      ensures pageCount == if old(pageCount) > 0 then old(pageCount) - 1 else 0
    {
      ghost var free := freeList.freePages;
      freeList.Add(pageId);
      assert forall p :: p in freeList.freePages <==> p == pageId || p in free;
      if pageCount > 0 {
        pageCount := pageCount - 1;
      }
      live := live - {pageId};
    }
  }

  /** An id popped but not handed out is neither live nor free. */
  lemma LostId(live: set<nat>, free: seq<nat>, maxPageId: nat)
    requires Separate(live, free, maxPageId) && free != []
    ensures !NoneLost(live + {maxPageId + 1}, free[..|free| - 1], maxPageId + 1)
  {
    PopSeparate(live, free, maxPageId);
  }
}
