/**
 The dirty pages of the buffer manager (pkg/buffermanager/p_dirty.go): a doubly linked list in order
 of recency, and a map into it.
 */
module DirtyPages {
  class Frame {
    var key: nat

    constructor (key: nat)
      ensures this.key == key
    {
      this.key := key;
    }
  }

  /** `pDirty`. */
  class Entry {
    const frame: Frame
    var next: Entry?
    var prev: Entry?
    /** The key its frame had when the entry was made. */
    ghost const key: nat

    constructor (f: Frame)
      ensures frame == f && key == f.key && next == null && prev == null
    {
      frame, key, next, prev := f, f.key, null, null;
    }
  }

  ghost predicate Distinct(s: seq<Entry>) { forall i, j :: 0 <= i < j < |s| ==> s[i] != s[j] }

  /** `r` is `s` with element `at` moved to the front. */
  ghost predicate Moved(s: seq<Entry>, at: nat, r: seq<Entry>) {
    at < |s| == |r| && forall i :: 0 <= i < |r| ==> r[i] == s[if i == 0 then at else if i <= at then i - 1 else i]
  }

  lemma MoveParts(s: seq<Entry>, at: nat, t: seq<Entry>, r: seq<Entry>)
    requires Removed(s, at, t) && Pushed(t, s[at], r)
    ensures Moved(s, at, r)
  {
  }

  /** `r` is `s` without element `at`. */
  ghost predicate Removed(s: seq<Entry>, at: nat, r: seq<Entry>) {
    at < |s| == |r| + 1 && forall i :: 0 <= i < |r| ==> r[i] == s[if i < at then i else i + 1]
  }

  lemma Remove(s: seq<Entry>, at: nat) returns (r: seq<Entry>)
    requires at < |s| && Distinct(s)
    ensures Removed(s, at, r) && Distinct(r) && forall e :: e in r <==> e in s && e != s[at]
  {
    r := s[..at] + s[at + 1..];
    forall e | e in s && e != s[at] ensures e in r {
      var i :| 0 <= i < |s| && s[i] == e;
      assert r[if i < at then i else i - 1] == e;
    }
  }

  /** `r` is `s` with `p` in front. */
  ghost predicate Pushed(s: seq<Entry>, p: Entry, r: seq<Entry>) {
    |r| == |s| + 1 && r[0] == p && forall i :: 0 < i < |r| ==> r[i] == s[i - 1]
  }

  lemma Push(s: seq<Entry>, p: Entry) returns (r: seq<Entry>)
    requires p !in s && Distinct(s)
    ensures Pushed(s, p, r) && Distinct(r) && forall e :: e in r <==> e in s || e == p
  {
    r := [p] + s;
  }

  // ---------------------------------------------------------------------------------------
  // The links
  // ---------------------------------------------------------------------------------------

  ghost predicate LinkedAt(l: seq<Entry>, i: nat)
    requires i < |l|
    reads l
  {
    && l[i].prev == (if i == 0 then null else l[i - 1])
    && (i + 1 < |l| ==> l[i].next == l[i + 1])
  }

  /** Nothing is said about the `next` of the last entry, except that it points out of the list. */
  ghost predicate Chain(l: seq<Entry>)
    reads l
  {
    && Distinct(l)
    && (forall i :: 0 <= i < |l| ==> LinkedAt(l, i))
    && (l != [] ==> l[|l| - 1].next !in l)
  }

  /** Every entry the list may write to, directly or through its last entry. */
  ghost predicate Within(l: seq<Entry>, repr: set<Entry>)
    reads l
  {
    (forall i :: 0 <= i < |l| ==> l[i] in repr) && (l != [] ==> l[|l| - 1].next == null || l[|l| - 1].next in repr)
  }

  /** Takes `d` out between its neighbours; its own links stay. */
  method Unlink(d: Entry, ghost l: seq<Entry>, ghost at: nat, ghost repr: set<Entry>) returns (ghost r: seq<Entry>)
    requires Chain(l) && Within(l, repr) && at < |l| && l[at] == d
    modifies repr
    ensures Removed(l, at, r) && d !in r && Chain(r) && Within(r, repr) && d.next == old(d.next) && d.prev == old(d.prev)
    ensures r != [] ==> r[|r| - 1].next !in l
  {
    assert LinkedAt(l, at);
    assert at > 0 ==> LinkedAt(l, at - 1);
    assert at + 1 < |l| ==> LinkedAt(l, at + 1);
    r := Remove(l, at);
    if d.next != null {
      d.next.prev := d.prev;
    }
    if d.prev != null {
      d.prev.next := d.next;
    }
    forall i | 0 <= i < |r| ensures LinkedAt(r, i) {
      if i < at { assert old(LinkedAt(l, i)); } else { assert old(LinkedAt(l, i + 1)); }
    }
  }

  /** Puts `p` in front of the list. */
  method PushFront(p: Entry, head: Entry, ghost l: seq<Entry>, ghost repr: set<Entry>) returns (ghost r: seq<Entry>)
    requires Chain(l) && Within(l, repr) && l != [] && head == l[0] && p !in l && l[|l| - 1].next != p
    modifies p, head
    ensures Pushed(l, p, r) && Chain(r) && Within(r, repr + {p})
  {
    assert LinkedAt(l, 0);
    r := Push(l, p);
    p.next := head;
    head.prev := p;
    p.prev := null;
    forall i | 0 <= i < |r| ensures LinkedAt(r, i) {
      if i > 0 { assert old(LinkedAt(l, i - 1)); }
    }
  }

  /** `dirtyPageLRU`. */
  class DirtyList {
    var head: Entry?
    var tail: Entry?
    /** The entries, most recent first. */
    ghost var list: seq<Entry>
    /** All entries that may be written, among them popped ones that the tail still points to. */
    ghost var repr: set<Entry>

    ghost predicate Valid()
      reads this, list
    {
      && Chain(list) && Within(list, repr)
      && if list == [] then head == null && tail == null else head == list[0] && tail == list[|list| - 1]
    }

    constructor ()
      ensures Valid() && list == [] && repr == {}
    {
      head, tail, list, repr := null, null, [], {};
    }

    /** `popDirty`: the new tail keeps pointing to the entry popped. */
    method PopDirty() returns (t: Entry?)
      requires Valid()
      modifies this
      ensures Valid() && repr == old(repr)
      ensures old(list) == [] ==> t == null && list == []
      ensures old(list) != [] ==> t == old(list[|list| - 1]) && list == old(list[..|list| - 1])
    {
      if tail == null || head == null {
        return null;
      }
      t := tail;
      assert LinkedAt(list, |list| - 1);
      assert |list| > 1 ==> LinkedAt(list, |list| - 2);
      if head == tail {
        head, tail := null, null;
      } else {
        tail := t.prev;
      }
      ghost var was := list;
      list := list[..|list| - 1];
      forall i | 0 <= i < |list| ensures LinkedAt(list, i) {
        assert LinkedAt(was, i);
      }
    }

    /** `addToDirtyList`, for an entry just made. */
    method AddToDirtyList(p: Entry)
      requires Valid() && p !in repr && p.next == null && p.prev == null
      modifies this, list, p
      ensures Valid() && Pushed(old(list), p, list) && repr == old(repr) + {p}
    {
      if head == null || tail == null {
        head, tail := p, p;
        list := [p];
        repr := repr + {p};
        assert LinkedAt(list, 0);
        return;
      }
      list := PushFront(p, head, list, repr);
      repr := repr + {p};
      head := p;
    }

    /** `moveToHead`; the panic is for a head that has a predecessor. */
    method MoveToHead(pD: Entry, ghost at: nat) returns (panicked: bool)
      requires Valid() && at < |list| && list[at] == pD
      modifies this, repr
      ensures Valid() && !panicked
      ensures Moved(old(list), at, list) && repr == old(repr)
    {
      if head == pD {
        assert LinkedAt(list, 0);
        return pD.prev != null;
      }
      ghost var was := list;
      ghost var rest := Unlink(pD, list, at, repr);
      if tail == pD {
        assert old(LinkedAt(was, at));
        tail := pD.prev;
      }
      list := PushFront(pD, head, rest, repr);
      MoveParts(was, at, rest, list);
      head := pD;
      return false;
    }

    /** `removeFromLru`. */
    method RemoveFromLru(d: Entry, ghost at: nat)
      requires Valid() && at < |list| && list[at] == d
      modifies this, repr
      ensures Valid() && Removed(old(list), at, list) && repr == old(repr)
    {
      if head == d && tail == d {
        head, tail := null, null;
        list := Remove(list, at);
        return;
      }
      assert LinkedAt(list, at);
      list := Unlink(d, list, at, repr);
      if head == d {
        head := d.next;
      }
      if tail == d {
        tail := d.prev;
      }
      d.next, d.prev := null, null;
    }
  }

  // ---------------------------------------------------------------------------------------
  // List and map
  // ---------------------------------------------------------------------------------------

  /** The map finds exactly the entries of the list, each under its key. */
  ghost predicate Indexes(pageMap: map<nat, Entry>, list: seq<Entry>) {
    && (forall i :: 0 <= i < |list| ==> list[i].key in pageMap && pageMap[list[i].key] == list[i])
    && (forall k :: k in pageMap ==> pageMap[k] in list && pageMap[k].key == k)
  }

  /** `dPages`. */
  class PageSet {
    const lru: DirtyList
    var pageMap: map<nat, Entry>

    ghost predicate Valid()
      reads this, lru, lru.list
    {
      lru.Valid() && Indexes(pageMap, lru.list)
    }

    constructor ()
      ensures Valid() && fresh(lru) && lru.repr == {} && pageMap == map[]
    {
      lru := new DirtyList();
      pageMap := map[];
    }

    /** `addDirtyFrame`: the frame's page becomes the most recent one, whether or not it was in the list. */
    method AddDirtyFrame(f: Frame) returns (panicked: bool)
      requires Valid()
      modifies this, lru, lru.repr
      ensures Valid() && !panicked && fresh(lru.repr - old(lru.repr))
      ensures lru.list != [] && lru.list[0].key == old(f.key) && pageMap.Keys == old(pageMap.Keys) + {old(f.key)}
      ensures old(f.key in pageMap) ==> exists at :: 0 <= at < |old(lru.list)| && Moved(old(lru.list), at, lru.list)
      ensures old(f.key !in pageMap) ==> lru.list[0].frame == f && Pushed(old(lru.list), lru.list[0], lru.list)
    {
      panicked := false;
      if f.key in pageMap {
        panicked := Refresh(f.key);
      } else {
        AddEntry(f);
      }
    }

    /** The page is in the list already: its entry becomes the most recent one. */
    method Refresh(id: nat) returns (panicked: bool)
      requires Valid() && id in pageMap
      modifies lru, lru.repr
      ensures Valid() && !panicked && lru.repr == old(lru.repr)
      ensures lru.list != [] && lru.list[0].key == id
      ensures exists at :: 0 <= at < |old(lru.list)| && Moved(old(lru.list), at, lru.list)
    {
      var pD := pageMap[id];
      ghost var was := lru.list;
      ghost var at :| 0 <= at < |lru.list| && lru.list[at] == pD;
      panicked := lru.MoveToHead(pD, at);
      MovedIndexes(pageMap, was, at, lru.list);
    }

    /** The page is not in the list: a new entry is put in front. */
    method AddEntry(f: Frame)
      requires Valid() && f.key !in pageMap
      modifies this, lru, lru.repr
      ensures Valid() && fresh(lru.repr - old(lru.repr)) && pageMap.Keys == old(pageMap.Keys) + {f.key}
      ensures lru.list != [] && lru.list[0].key == f.key && lru.list[0].frame == f && Pushed(old(lru.list), lru.list[0], lru.list)
    {
      var p := new Entry(f);
      ghost var was, pages := lru.list, pageMap;
      pageMap := pageMap[f.key := p];
      lru.AddToDirtyList(p);
      PushedIndexes(pages, was, p, lru.list);
    }

    /** `removePage`. */
    method RemovePage(id: nat)
      requires Valid()
      modifies this, lru, lru.repr
      ensures Valid() && lru.repr == old(lru.repr) && pageMap == old(pageMap) - {id}
      ensures old(id !in pageMap) ==> lru.list == old(lru.list)
      ensures old(id in pageMap) ==> exists at :: 0 <= at < |old(lru.list)| && old(lru.list)[at].key == id && Removed(old(lru.list), at, lru.list)
    {
      if id in pageMap {
        var p := pageMap[id];
        ghost var was := lru.list;
        ghost var at :| 0 <= at < |lru.list| && lru.list[at] == p;
        pageMap := pageMap - {id};
        lru.RemoveFromLru(p, at);
        RemovedIndexes(old(pageMap), was, at, lru.list);
      }
    }

    /**
     `popDirtyPage`: the least recent page.  It is taken from the map under the key its frame has now, so
     list and map still agree afterwards exactly when that key is the one it was added under, and not 0.
     */
    method PopDirtyPage() returns (p: Entry?)
      requires Valid()
      modifies this, lru
      ensures lru.Valid() && lru.repr == old(lru.repr)
      ensures old(lru.list) == [] ==> p == null && Valid() && lru.list == [] && pageMap == old(pageMap)
      ensures old(lru.list) != [] ==>
                var t := old(lru.list[|lru.list| - 1]);
                && lru.list == old(lru.list[..|lru.list| - 1])
                && p == (if t.frame.key == 0 then null else t)
                && pageMap == (if t.frame.key == 0 then old(pageMap) else old(pageMap) - {t.frame.key})
                && (Valid() <==> t.frame.key == t.key != 0)
    {
      ghost var was, pages := lru.list, pageMap;
      p := lru.PopDirty();
      if p == null {
        return;
      }
      var pgeId := p.frame.key;
      PoppedRest(pages, was, pgeId);
      if pgeId == 0 {
        return null;
      }
      pageMap := pageMap - {pgeId};
    }
  }

  lemma MovedIndexes(pages: map<nat, Entry>, s: seq<Entry>, at: nat, r: seq<Entry>)
    requires Indexes(pages, s) && Moved(s, at, r)
    ensures Indexes(pages, r)
  {
    assert r[0] == s[at];
    assert forall i :: 0 <= i < |s| ==> s[i] == r[if i == at then 0 else if i < at then i + 1 else i];
  }

  lemma PushedIndexes(pages: map<nat, Entry>, s: seq<Entry>, p: Entry, r: seq<Entry>)
    requires Indexes(pages, s) && p.key !in pages && Pushed(s, p, r)
    ensures Indexes(pages[p.key := p], r)
  {
    assert forall i :: 0 <= i < |s| ==> s[i] == r[i + 1];
  }

  lemma RemovedIndexes(pages: map<nat, Entry>, s: seq<Entry>, at: nat, r: seq<Entry>)
    requires Indexes(pages, s) && Distinct(s) && Removed(s, at, r)
    ensures Indexes(pages - {s[at].key}, r)
  {
    assert forall i :: 0 <= i < |s| && i != at ==> s[i] == r[if i < at then i else i - 1];
  }

  lemma PoppedRest(pages: map<nat, Entry>, s: seq<Entry>, id: nat)
    requires s != [] && Distinct(s) && Indexes(pages, s)
    ensures var t, r := s[|s| - 1], s[..|s| - 1];
            !Indexes(pages, r) && (Indexes(pages - {id}, r) <==> id == t.key)
  {
    var t, r := s[|s| - 1], s[..|s| - 1];
    assert t.key in pages && pages[t.key] == t && t !in r;
    forall e | e in s && e != t ensures e in r {
      var i :| 0 <= i < |s| && s[i] == e;
      assert r[i] == e;
    }
    if id != t.key { assert t.key in pages - {id}; }
  }
}
