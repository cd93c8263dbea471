/**
 The clock buffer (pkg/buffermanager/clock.go): frames in a ring, and the second-chance
 sweep that picks the next frame to evict from one segment.
 */
module Clock {

  const MAX_LOOP := 2
  const MAX_RETRIES := 2

  datatype Segment = Unassigned | Window | Probation | Protected

  /** A clock entry without its page bytes. */
  datatype Slot = Slot(ref: bool, acc: bool, reserved: bool, occupied: bool, marked: bool,
                       pins: nat, unpins: nat, seg: Segment, key: nat, dirty: bool)

  const Blank := Slot(false, false, false, false, false, 0, 0, Unassigned, 0, false)

  /** A slot the sweep may evict from segment `seg`. */
  predicate Eligible(e: Slot, seg: Segment) {
    !e.reserved && !e.acc && !e.marked && e.seg == seg
  }

  /** What the sweep does to the slot it picks. */
  function Taken(e: Slot): Slot {
    e.(acc := true, ref := true, pins := e.pins + 1, marked := true)
  }

  /** What the sweep does to an eligible slot it gives a second chance. */
  function Spared(e: Slot): Slot { e.(ref := false) }

  // ---------------------------------------------------------------------------------------
  // Ring arithmetic
  // ---------------------------------------------------------------------------------------

  /** The index `d` steps after `h` on a ring of `n`. */
  function At(h: nat, d: nat, n: nat): (i: nat)
    requires h < n && d < n
    ensures i < n
  {
    if h + d < n then h + d else h + d - n
  }

  /** How many steps after `h` index `i` lies. */
  function Dist(h: nat, i: nat, n: nat): (d: nat)
    requires h < n && i < n
    ensures d < n && At(h, d, n) == i
  {
    if h <= i then i - h else i + n - h
  }

  lemma DistAt(h: nat, d: nat, n: nat)
    requires h < n && d < n
    ensures Dist(h, At(h, d, n), n) == d
  {
  }

  lemma Advance(i: nat, n: nat)
    requires i < n
    ensures (i + 1) % n == if i + 1 == n then 0 else i + 1
  {
    if i + 1 < n {
      assert (i + 1) / n == 0;
    }
  }

  // ---------------------------------------------------------------------------------------
  // The second-chance victim
  // ---------------------------------------------------------------------------------------

  /** Some eligible slot has its reference bit unset. */
  ghost predicate AnyUnset(es: seq<Slot>, seg: Segment) {
    exists i :: 0 <= i < |es| && Eligible(es[i], seg) && !es[i].ref
  }

  /**
   `d` is how far the hand travels to its victim: to the first eligible slot whose reference
   bit is unset, or, when every eligible slot has it set, to the first eligible slot.
   */
  ghost predicate IsVictim(es: seq<Slot>, h: nat, seg: Segment, d: nat) {
    && h < |es| && d < |es| && Eligible(es[At(h, d, |es|)], seg)
    && if AnyUnset(es, seg)
       then !es[At(h, d, |es|)].ref && forall i :: 0 <= i < |es| && Dist(h, i, |es|) < d && Eligible(es[i], seg) ==> es[i].ref
       else forall i :: 0 <= i < |es| && Dist(h, i, |es|) < d ==> !Eligible(es[i], seg)
  }

  /** Slot `i` after the hand, starting at `h`, has taken the victim `d` steps away. */
  ghost function SweptSlot(es: seq<Slot>, h: nat, seg: Segment, d: nat, i: nat): Slot
    requires h < |es| && d < |es| && i < |es|
  {
    if Dist(h, i, |es|) == d then Taken(es[i])
    else if Eligible(es[i], seg) && (Dist(h, i, |es|) < d || !AnyUnset(es, seg)) then Spared(es[i])
    else es[i]
  }

  ghost function Swept(es: seq<Slot>, h: nat, seg: Segment, d: nat): (r: seq<Slot>)
    requires h < |es| && d < |es|
    ensures |r| == |es|
    ensures forall i :: 0 <= i < |es| ==> r[i] == SweptSlot(es, h, seg, d, i)
  {
    seq(|es|, i requires 0 <= i < |es| => SweptSlot(es, h, seg, d, i))
  }

  /**
   Outcome of a sweep over `es` with the hand at `h`: -1 and no change exactly when nothing is
   eligible, else the second-chance victim, with the hand just past it.
   */
  ghost predicate SweepDone(es: seq<Slot>, h: nat, seg: Segment, now: seq<Slot>, hand: nat, victim: int) {
    h < |es| &&
    if victim == -1 then now == es && hand == h && forall i :: 0 <= i < |es| ==> !Eligible(es[i], seg)
    else
      && 0 <= victim < |es| && IsVictim(es, h, seg, Dist(h, victim, |es|))
      && now == Swept(es, h, seg, Dist(h, victim, |es|)) && hand == (victim + 1) % |es|
  }

  /** The victim is unique. */
  lemma VictimUnique(es: seq<Slot>, h: nat, seg: Segment, d: nat, d': nat)
    requires IsVictim(es, h, seg, d) && IsVictim(es, h, seg, d')
    ensures d == d'
  {
    DistAt(h, d, |es|);
    DistAt(h, d', |es|);
  }

  /** While the hand has travelled `k` steps without a victim. */
  ghost predicate Passed(es: seq<Slot>, now: seq<Slot>, h: nat, seg: Segment, k: nat) {
    && h < |es| && |now| == |es| && k <= 2 * |es|
    && (forall i :: 0 <= i < |es| ==>
          now[i] == if Eligible(es[i], seg) && Dist(h, i, |es|) < k then Spared(es[i]) else es[i])
    && (forall i :: 0 <= i < |es| && Dist(h, i, |es|) < k && Eligible(es[i], seg) ==> es[i].ref)
    && (k > |es| ==> forall i :: 0 <= i < |es| && Dist(h, i, |es|) < k - |es| ==> !Eligible(es[i], seg))
  }

  /** The hand's index after `k` steps. */
  ghost function Hand(h: nat, k: nat, n: nat): nat
    requires h < n && k <= 2 * n
  {
    if k < n then At(h, k, n) else if k < 2 * n then At(h, k - n, n) else h
  }

  lemma HandMoves(h: nat, k: nat, n: nat)
    requires h < n && k < 2 * n
    ensures Hand(h, k, n) < n && (Hand(h, k, n) + 1) % n == Hand(h, k + 1, n)
    ensures Dist(h, Hand(h, k, n), n) == if k < n then k else k - n
  {
    Advance(Hand(h, k, n), n);
  }

  lemma DistInjective(h: nat, i: nat, j: nat, n: nat)
    requires h < n && i < n && j < n && Dist(h, i, n) == Dist(h, j, n)
    ensures i == j
  {
  }

  /** Passing over a slot that is not eligible. */
  lemma PassBy(es: seq<Slot>, now: seq<Slot>, h: nat, seg: Segment, k: nat, i: nat)
    requires Passed(es, now, h, seg, k) && k < 2 * |es| && i == Hand(h, k, |es|)
    requires i < |es| && !Eligible(now[i], seg)
    ensures Passed(es, now, h, seg, k + 1)
  {
    HandMoves(h, k, |es|);
    forall j | 0 <= j < |es| && Dist(h, j, |es|) == Dist(h, i, |es|)
      ensures j == i
    {
      DistInjective(h, i, j, |es|);
    }
  }

  /** Giving an eligible slot its second chance: only on the first round. */
  lemma PassSparing(es: seq<Slot>, now: seq<Slot>, h: nat, seg: Segment, k: nat, i: nat)
    requires Passed(es, now, h, seg, k) && k < 2 * |es| && i == Hand(h, k, |es|)
    requires i < |es| && Eligible(now[i], seg) && now[i].ref
    ensures Passed(es, now[i := Spared(now[i])], h, seg, k + 1)
  {
    HandMoves(h, k, |es|);
    assert k < |es|;
    forall j | 0 <= j < |es| && Dist(h, j, |es|) == Dist(h, i, |es|)
      ensures j == i
    {
      DistInjective(h, i, j, |es|);
    }
  }

  /** Two full rounds without a victim: nothing is eligible, and nothing was changed. */
  lemma NoneFound(es: seq<Slot>, now: seq<Slot>, h: nat, seg: Segment)
    requires Passed(es, now, h, seg, 2 * |es|) && |es| > 0
    ensures now == es && forall i :: 0 <= i < |es| ==> !Eligible(es[i], seg)
  {
    assert forall i :: 0 <= i < |es| ==> Dist(h, i, |es|) < |es|;
  }

  /** Stopping at an eligible slot with its reference bit unset: it is the victim. */
  lemma StopAt(es: seq<Slot>, now: seq<Slot>, h: nat, seg: Segment, k: nat, i: nat)
    requires Passed(es, now, h, seg, k) && k < 2 * |es| && i == Hand(h, k, |es|)
    requires i < |es| && Eligible(now[i], seg) && !now[i].ref
    ensures IsVictim(es, h, seg, Dist(h, i, |es|))
    ensures now[i := Taken(now[i])] == Swept(es, h, seg, Dist(h, i, |es|))
  {
    HandMoves(h, k, |es|);
    var n := |es|;
    assert k < n ==> es[i] == now[i] && AnyUnset(es, seg);
    forall j | 0 <= j < n && Dist(h, j, n) == Dist(h, i, n)
      ensures j == i
    {
      DistInjective(h, i, j, n);
    }
    var r := Swept(es, h, seg, Dist(h, i, n));
    forall j | 0 <= j < n
      ensures now[i := Taken(now[i])][j] == r[j]
    {
    }
  }

  // ---------------------------------------------------------------------------------------
  // The clock
  // ---------------------------------------------------------------------------------------

  class Clock {
    var slots: array<Slot>
    var head: nat

    ghost predicate Valid()
      reads this
    {
      slots.Length >= 3 && head < slots.Length
    }

    /** A clock of at least three slots; `reserve` takes the first one for good. */
    constructor (itemCount: nat, reserve: bool)
      requires itemCount >= 3
      ensures Valid() && fresh(slots) && slots.Length == itemCount
      ensures slots[0] == if reserve then Taken(Blank).(reserved := true) else Blank
      ensures forall i :: 1 <= i < itemCount ==> slots[i] == Blank
    {
      slots := new Slot[itemCount](_ => Blank);
      head := 0;
      new;
      if reserve {
        ghost var blank := slots[..];
        var e := EvictWithoutClearing(Unassigned);
        assert Eligible(blank[0], Unassigned) && !blank[0].ref;
        assert AnyUnset(blank, Unassigned);
        assert Dist(0, 0, itemCount) == 0;
        slots[e] := slots[e].(reserved := true);
      }
    }

    /** One step of the hand: skip the slot, spare it, or take it (and answer its index). */
    method Look(seg: Segment) returns (victim: int)
      requires Valid()
      modifies this`head, slots
      ensures Valid() && slots == old(slots) && head == (old(head) + 1) % slots.Length
      ensures var e := old(slots[head]);
              && victim == (if Eligible(e, seg) && !e.ref then old(head) else -1)
              && slots[..] == old(slots[..])[old(head) :=
                   if !Eligible(e, seg) then e else if e.ref then Spared(e) else Taken(e)]
    {
      var e := slots[head];
      victim := -1;
      if e.reserved || e.acc || e.marked || e.seg != seg {
      } else if e.ref {
        slots[head] := Spared(e);
      } else {
        slots[head] := Taken(e);
        victim := head;
      }
      head := (head + 1) % slots.Length;
    }

    /** One sweep of at most `MAX_LOOP` rounds; answers -1 when nothing is eligible. */
    method Sweep(seg: Segment) returns (victim: int)
      requires Valid()
      modifies this`head, slots
      ensures Valid() && slots == old(slots)
      ensures SweepDone(old(slots[..]), old(head), seg, slots[..], head, victim)
    {
      ghost var es, h := slots[..], head;
      var cap := slots.Length;
      for k := 0 to cap * MAX_LOOP
        invariant slots.Length == cap && head == Hand(h, k, cap)
        invariant Passed(es, slots[..], h, seg, k)
      {
        HandMoves(h, k, cap);
        ghost var now, i := slots[..], head;
        if !Eligible(now[i], seg) { PassBy(es, now, h, seg, k, i); }
        else if now[i].ref { PassSparing(es, now, h, seg, k, i); }
        else { StopAt(es, now, h, seg, k, i); }
        victim := Look(seg);
        if victim != -1 { return; }
      }
      victim := -1;
      NoneFound(es, slots[..], h, seg);
    }

    /** `EvictWithoutClearing`: sweeps again, up to `MAX_RETRIES` times, before giving up. */
    method EvictWithoutClearing(seg: Segment) returns (victim: int)
      requires Valid()
      modifies this`head, slots
      ensures Valid() && slots == old(slots)
      ensures SweepDone(old(slots[..]), old(head), seg, slots[..], head, victim)
      ensures victim != -1 ==>
                var e := old(slots[..])[victim];
                !e.reserved && !e.acc && !e.marked && e.seg == seg && slots[victim].acc && slots[victim].marked && slots[victim].pins == e.pins + 1
      ensures victim == -1 <==> forall i :: 0 <= i < slots.Length ==>
                var e := old(slots[..])[i]; e.reserved || e.acc || e.marked || e.seg != seg
    {
      victim := -1;
      for j := 0 to MAX_RETRIES
        invariant Valid() && slots == old(slots) && slots[..] == old(slots[..]) && head == old(head)
        invariant victim == -1
        invariant j > 0 ==> SweepDone(old(slots[..]), old(head), seg, slots[..], head, victim)
      {
        victim := Sweep(seg);
        if victim != -1 { return; }
      }
    }
  }

  /** `NewClock`: refuses fewer than three slots. */
  method NewClock(itemCount: nat, reserve: bool) returns (clk: Clock?)
    ensures clk == null <==> itemCount < 3
    ensures clk != null ==>
              && fresh(clk) && clk.Valid() && fresh(clk.slots) && clk.slots.Length == itemCount
              && clk.slots[0] == (if reserve then Blank.(ref := true, acc := true, marked := true, pins := 1, reserved := true) else Blank)
              && forall i :: 1 <= i < itemCount ==> clk.slots[i] == Blank
  {
    if itemCount < 3 {
      return null;
    }
    clk := new Clock(itemCount, reserve);
  }

  // ---------------------------------------------------------------------------------------
  // Consequences of a sweep for whoever counts segments or pins
  // ---------------------------------------------------------------------------------------

  /** A sweep changes nothing but reference bits, and the victim's pin and mark. */
  lemma SweepTouches(es: seq<Slot>, h: nat, seg: Segment, v: nat)
    requires h < |es| && v < |es| && IsVictim(es, h, seg, Dist(h, v, |es|))
    ensures var r := Swept(es, h, seg, Dist(h, v, |es|));
            && Eligible(es[v], seg) && r[v] == es[v].(acc := true, ref := true, pins := es[v].pins + 1, marked := true)
            && forall i :: 0 <= i < |es| && i != v ==>
                 r[i] == es[i] || (Eligible(es[i], seg) && r[i] == es[i].(ref := false))
  {
    forall i | 0 <= i < |es| && Dist(h, i, |es|) == Dist(h, v, |es|)
      ensures i == v
    {
      DistInjective(h, i, v, |es|);
    }
  }
}
