/**
 The W-TinyLFU segments (pkg/buffermanager/wtinylfu.go): which slot belongs to the window,
 the probation or the protected segment, and the counters that must agree with that.
 */
module WTinyLfu {
  import opened Clock

  // ---------------------------------------------------------------------------------------
  // What happens to single slots (pkg/buffermanager/clock.go)
  // ---------------------------------------------------------------------------------------

  function Pinned(e: Slot): Slot { e.(acc := true, ref := true, pins := e.pins + 1) }

  function Unpinned(e: Slot): Slot { e.(unpins := e.unpins + 1, acc := e.acc && e.pins - e.unpins != 1) }

  function Unmarked(e: Slot): Slot { e.(marked := false) }

  function Moved(e: Slot, from: Segment, to: Segment): Slot { if e.seg == from then e.(seg := to) else e }

  /** `resetEntry` followed by `Frame.Clear`. */
  function Reset(e: Slot): Slot {
    e.(acc := false, ref := false, occupied := false, pins := 0, unpins := 0, seg := Unassigned, key := 0, dirty := false)
  }

  // ---------------------------------------------------------------------------------------
  // Counting slots by kind
  // ---------------------------------------------------------------------------------------

  datatype Kind = Free | Reserved | In(seg: Segment)

  function KindOf(e: Slot): Kind {
    if e.seg != Unassigned then In(e.seg) else if e.reserved then Reserved else Free
  }

  ghost function CountUpTo(es: seq<Slot>, k: Kind, n: nat): nat
    requires n <= |es|
  {
    if n == 0 then 0 else CountUpTo(es, k, n - 1) + if KindOf(es[n - 1]) == k then 1 else 0
  }

  ghost function Count(es: seq<Slot>, k: Kind): nat { CountUpTo(es, k, |es|) }

  lemma {:induction false} CountFrame(es: seq<Slot>, es': seq<Slot>, k: Kind, n: nat)
    requires n <= |es| == |es'| && forall i :: 0 <= i < n ==> KindOf(es'[i]) == KindOf(es[i])
    ensures CountUpTo(es', k, n) == CountUpTo(es, k, n)
  {
    if n > 0 { CountFrame(es, es', k, n - 1); }
  }

  lemma {:induction false} CountStep(es: seq<Slot>, i: nat, e: Slot, k: Kind, n: nat)
    requires i < n <= |es|
    ensures CountUpTo(es[i := e], k, n) ==
            CountUpTo(es, k, n) - (if KindOf(es[i]) == k then 1 else 0) + (if KindOf(e) == k then 1 else 0)
  {
    if i == n - 1 {
      CountFrame(es, es[i := e], k, n - 1);
    } else {
      CountStep(es, i, e, k, n - 1);
    }
  }

  /** Changing one slot moves it from one count to another. */
  lemma CountUpdate(es: seq<Slot>, i: nat, e: Slot, k: Kind)
    requires i < |es|
    ensures Count(es[i := e], k) ==
            Count(es, k) - (if KindOf(es[i]) == k then 1 else 0) + (if KindOf(e) == k then 1 else 0)
  {
    CountStep(es, i, e, k, |es|);
  }

  lemma {:induction false} CountFound(es: seq<Slot>, k: Kind, n: nat) returns (i: nat)
    requires n <= |es| && CountUpTo(es, k, n) > 0
    ensures i < n && KindOf(es[i]) == k
  {
    if KindOf(es[n - 1]) == k { i := n - 1; } else { i := CountFound(es, k, n - 1); }
  }

  lemma {:induction false} CountHas(es: seq<Slot>, k: Kind, i: nat, n: nat)
    requires i < n <= |es| && KindOf(es[i]) == k
    ensures CountUpTo(es, k, n) > 0
  {
    if i < n - 1 { CountHas(es, k, i, n - 1); }
  }

  /** Every slot is counted exactly once. */
  lemma {:induction false} CountAll(es: seq<Slot>, n: nat)
    requires n <= |es|
    ensures CountUpTo(es, Free, n) + CountUpTo(es, Reserved, n) + CountUpTo(es, In(Window), n) +
            CountUpTo(es, In(Probation), n) + CountUpTo(es, In(Protected), n) == n
  {
    if n > 0 { CountAll(es, n - 1); }
  }

  // ---------------------------------------------------------------------------------------
  // The accounts
  // ---------------------------------------------------------------------------------------

  datatype Books = Books(window: nat, probation: nat, protected: nat,
                         windowCap: nat, probationCap: nat, protectedCap: nat)

  /** Nobody holds a free slot, nobody has marked it, and nothing is in it. */
  ghost predicate Idle(e: Slot) { !e.acc && !e.marked && !e.occupied }

  /** The access bit says exactly that pins are outstanding. */
  ghost predicate PinsOk(e: Slot) { e.unpins <= e.pins && (e.acc <==> e.unpins < e.pins) }

  ghost predicate SlotOk(e: Slot) { PinsOk(e) && (KindOf(e) == Free ==> Idle(e)) && (e.reserved ==> e.seg == Unassigned && !e.occupied) }

  /** The counters of the two main segments agree with the segments, and the capacities fill the clock. */
  ghost predicate Tallied(es: seq<Slot>, b: Books) {
    && (forall i :: 0 <= i < |es| ==> SlotOk(es[i]))
    && Count(es, In(Probation)) == b.probation
    && Count(es, In(Protected)) == b.protected
    && Count(es, Reserved) + b.windowCap + b.probationCap + b.protectedCap == |es|
  }

  /** The invariant: agreement, and no counter above its capacity. */
  ghost predicate Balanced(es: seq<Slot>, b: Books) {
    && Tallied(es, b) && b.windowCap > 0
    && b.window <= b.windowCap && b.probation <= b.probationCap && b.protected <= b.protectedCap
  }

  /**
   How many slots the window holds beyond what its counter says.  It is 0 to begin with; a slot given back makes it
   smaller, and a slot that joins the window uncounted makes it larger.
   */
  ghost function Drift(es: seq<Slot>, b: Books): int { Count(es, In(Window)) - b.window }

  /** The counters after one slot went from kind `from` to kind `to`. */
  ghost function Shift(b: Books, from: Kind, to: Kind): Books
    requires from == In(Window) && to != from ==> b.window > 0
    requires from == In(Probation) && to != from ==> b.probation > 0
    requires from == In(Protected) && to != from ==> b.protected > 0
  {
    if from == to then b
    else
      b.(window := b.window - (if from == In(Window) then 1 else 0) + (if to == In(Window) then 1 else 0),
         probation := b.probation - (if from == In(Probation) then 1 else 0) + (if to == In(Probation) then 1 else 0),
         protected := b.protected - (if from == In(Protected) then 1 else 0) + (if to == In(Protected) then 1 else 0))
  }

  /** Rewriting one slot keeps the agreement if the counters follow. */
  lemma Rebook(es: seq<Slot>, i: nat, e: Slot, b: Books)
    requires Tallied(es, b) && i < |es| && SlotOk(e) && e.reserved == es[i].reserved
    requires KindOf(es[i]) == In(Window) && KindOf(e) != In(Window) ==> b.window > 0
    ensures KindOf(es[i]) == In(Probation) ==> b.probation > 0
    ensures KindOf(es[i]) == In(Protected) ==> b.protected > 0
    ensures Tallied(es[i := e], Shift(b, KindOf(es[i]), KindOf(e)))
    ensures Drift(es[i := e], Shift(b, KindOf(es[i]), KindOf(e))) == Drift(es, b)
  {
    CountHas(es, KindOf(es[i]), i, |es|);
    CountUpdate(es, i, e, In(Window));
    CountUpdate(es, i, e, In(Probation));
    CountUpdate(es, i, e, In(Protected));
    CountUpdate(es, i, e, Reserved);
  }

  /** How many free slots there are, from the counters and the drift. */
  lemma FreeCount(es: seq<Slot>, b: Books)
    requires Tallied(es, b)
    ensures Count(es, Free) == b.windowCap - b.window - Drift(es, b) + b.probationCap - b.probation + b.protectedCap - b.protected
  {
    CountAll(es, |es|);
  }

  /** A free slot is exactly what the sweep over unassigned slots may take. */
  lemma FreeMeansEligible(es: seq<Slot>)
    requires forall i :: 0 <= i < |es| ==> SlotOk(es[i])
    ensures Count(es, Free) > 0 <==> exists i :: 0 <= i < |es| && Eligible(es[i], Unassigned)
  {
    if Count(es, Free) > 0 {
      var i := CountFound(es, Free, |es|);
      assert Eligible(es[i], Unassigned);
    }
    forall i | 0 <= i < |es| && Eligible(es[i], Unassigned) ensures Count(es, Free) > 0 {
      CountHas(es, Free, i, |es|);
    }
  }

  /** Pigeonhole: as long as the window holds no more than its counter says, and that is below capacity, a slot is free. */
  lemma FreeSlotExists(es: seq<Slot>, b: Books) returns (i: nat)
    requires Balanced(es, b) && Drift(es, b) <= 0 && b.window < b.windowCap
    ensures i < |es| && KindOf(es[i]) == Free && Eligible(es[i], Unassigned)
  {
    FreeCount(es, b);
    i := CountFound(es, Free, |es|);
  }

  /** A sweep leaves the accounts alone. */
  lemma SweepBalanced(es: seq<Slot>, now: seq<Slot>, h: nat, hand: nat, seg: Segment, v: int, b: Books)
    requires Balanced(es, b) && SweepDone(es, h, seg, now, hand, v)
    requires seg != Unassigned
    ensures Balanced(now, b) && Drift(now, b) == Drift(es, b)
  {
    SweepPicks(es, now, h, hand, seg, v);
    SameBooks(es, now, b);
  }

  /** Taking a free slot: a sweep over the unassigned ones, and the slot joins the window. */
  lemma TakeFree(es: seq<Slot>, now: seq<Slot>, v: nat, b: Books)
    requires Balanced(es, b) && Picked(es, now, Unassigned, v) && b.window < b.windowCap
    ensures KindOf(es[v]) == Free && now[v] == Taken(es[v])
    ensures var now' := now[v := Moved(now[v], Unassigned, Window)];
            Balanced(now', b.(window := b.window + 1)) && Drift(now', b.(window := b.window + 1)) == Drift(es, b)
  {
    var e := Moved(Taken(es[v]), Unassigned, Window);
    Rebook(es, v, e, b);
    SameBooks(es[v := e], now[v := Moved(now[v], Unassigned, Window)], b.(window := b.window + 1));
  }

  /** Slots of the same kinds have the same books. */
  lemma SameBooks(es: seq<Slot>, now: seq<Slot>, b: Books)
    requires Balanced(es, b) && |now| == |es| && forall i :: 0 <= i < |es| ==> KindOf(now[i]) == KindOf(es[i]) && SlotOk(now[i])
    ensures Balanced(now, b) && Drift(now, b) == Drift(es, b)
  {
    forall k: Kind ensures Count(now, k) == Count(es, k) { CountFrame(es, now, k, |es|); }
  }

  /** A window slot is given back while the counter keeps it. */
  lemma GiveBack(es: seq<Slot>, i: nat, b: Books)
    requires Balanced(es, b) && i < |es| && es[i].seg == Window && !es[i].marked
    ensures Balanced(es[i := Reset(es[i])], b) && Drift(es[i := Reset(es[i])], b) == Drift(es, b) - 1
  {
    CountUpdate(es, i, Reset(es[i]), In(Window));
    CountUpdate(es, i, Reset(es[i]), In(Probation));
    CountUpdate(es, i, Reset(es[i]), In(Protected));
    CountUpdate(es, i, Reset(es[i]), Reserved);
  }

  // ---------------------------------------------------------------------------------------
  // The branch that breaks the accounts
  // ---------------------------------------------------------------------------------------

  /** A slot that joins the window uncounted: the drift grows by one, everything else stays. */
  lemma JoinUncounted(es: seq<Slot>, i: nat, b: Books)
    requires Balanced(es, b) && i < |es| && KindOf(es[i]) == Free
    ensures var es' := es[i := Moved(es[i], Unassigned, Window)];
            Balanced(es', b) && Drift(es', b) == Drift(es, b) + 1 && Count(es', Free) == Count(es, Free) - 1
  {
    var e := Moved(es[i], Unassigned, Window);
    CountUpdate(es, i, e, In(Window));
    CountUpdate(es, i, e, In(Probation));
    CountUpdate(es, i, e, In(Protected));
    CountUpdate(es, i, e, Reserved);
    CountUpdate(es, i, e, Free);
  }

  /**
   No slot is free, and none becomes free: either no eviction is attempted, or the window's victim only
   moves to probation.
   */
  ghost predicate Starved(es: seq<Slot>, b: Books) {
    && Count(es, Free) == 0
    && (b.window < b.windowCap || (b.probation < b.probationCap && exists i :: 0 <= i < |es| && Eligible(es[i], Window)))
  }

  /** It takes uncounted slots to get there: exactly as many as the segments have room left by their counters. */
  lemma StarvedMeansDrift(es: seq<Slot>, b: Books)
    requires Balanced(es, b) && Starved(es, b)
    ensures Drift(es, b) > 0
    ensures Drift(es, b) == b.windowCap - b.window + b.probationCap - b.probation + b.protectedCap - b.protected
  {
    FreeCount(es, b);
  }

  /** And it happens: four slots, exact books, and one free slot that joins the window uncounted. */
  lemma StarvedHappens() returns (es: seq<Slot>, b: Books)
    ensures Balanced(es, b) && Drift(es, b) == 0 && b == Books(1, 0, 2, 1, 1, 2)
    ensures |es| == 4 && es[3] == Blank && !Starved(es, b)
    ensures forall i :: 0 <= i < 3 ==> es[i].occupied && es[i].key == i + 1 && es[i].pins == es[i].unpins == 1
    ensures Starved(es[3 := Moved(es[3], Unassigned, Window)], b)
  {
    var used := Blank.(occupied := true, pins := 1, unpins := 1, ref := true);
    es := [used.(seg := Protected, key := 1), used.(seg := Protected, key := 2), used.(seg := Window, key := 3), Blank];
    b := Books(1, 0, 2, 1, 1, 2);
    forall k: Kind ensures Count(es, k) == CountUpTo(es, k, 2) + (if k == In(Window) then 1 else 0) + (if k == Free then 1 else 0) {
      assert CountUpTo(es, k, 4) == CountUpTo(es, k, 3) + if KindOf(es[3]) == k then 1 else 0;
      assert CountUpTo(es, k, 3) == CountUpTo(es, k, 2) + if KindOf(es[2]) == k then 1 else 0;
    }
    forall k: Kind ensures CountUpTo(es, k, 2) == if k == In(Protected) then 2 else 0 {
      assert CountUpTo(es, k, 2) == CountUpTo(es, k, 1) + if KindOf(es[1]) == k then 1 else 0;
      assert CountUpTo(es, k, 1) == CountUpTo(es, k, 0) + if KindOf(es[0]) == k then 1 else 0;
    }
    JoinUncounted(es, 3, b);
    assert Eligible(es[3 := Moved(es[3], Unassigned, Window)][2], Window);
  }

  // ---------------------------------------------------------------------------------------
  // Capacities
  // ---------------------------------------------------------------------------------------

  /** `math.Round` on a non-negative real. */
  function Round(x: real): nat
    requires x >= 0.0
  {
    (x + 0.5).Floor
  }

  const MAIN_CACHE_RATIO: real := 0.2

  /** The two main segments share the main cache exactly, whatever its size. */
  lemma CapacitiesAddUp(main: nat)
    ensures Round(main as real * MAIN_CACHE_RATIO) + Round(main as real * (1.0 - MAIN_CACHE_RATIO)) == main
    ensures -2 <= 5 * Round(main as real * MAIN_CACHE_RATIO) - main <= 2
    ensures main >= 2 ==> Round(main as real * (1.0 - MAIN_CACHE_RATIO)) >= 1
  {
    var q, r := main / 5, main % 5;
    assert main as real * MAIN_CACHE_RATIO == q as real + r as real * 0.2;
    assert main as real * (1.0 - MAIN_CACHE_RATIO) == (4 * q) as real + r as real * 0.8;
    assert (q as real + r as real * 0.2 + 0.5).Floor == q + (r as real * 0.2 + 0.5).Floor;
    assert ((4 * q) as real + r as real * 0.8 + 0.5).Floor == 4 * q + (r as real * 0.8 + 0.5).Floor;
  }

  // ---------------------------------------------------------------------------------------
  // The cache policy object
  // ---------------------------------------------------------------------------------------

  datatype Error = WindowNotFull | NoWindowVictim | NoProbationVictim | NoProtectedVictim | WriteFailed | NoFreeSlot

  datatype Outcome = Done | Got(slot: nat) | Failed(error: Error) | Panicked

  /** Nothing but the reference bit changed. */
  ghost predicate Kept(e: Slot, f: Slot) { f == e.(ref := f.ref) }

  ghost predicate KeptBut(was: seq<Slot>, now: seq<Slot>, v: int, w: int) {
    |now| == |was| && forall i :: 0 <= i < |was| && i != v && i != w ==> Kept(was[i], now[i])
  }

  /** A victim that stays in the cache: in probation, unmarked and released, with its page and dirty flag. */
  ghost predicate Stayed(e: Slot, f: Slot) {
    && f.seg == Probation && !f.marked && !f.acc && f.pins == f.unpins == e.pins + 1
    && f.occupied == e.occupied && f.dirty == e.dirty && f.key == e.key && !f.reserved && f.ref
  }

  /** A victim that is given up without being evicted: released, but still marked. */
  ghost predicate LeftMarked(e: Slot, f: Slot) {
    f.marked && !f.acc && f.pins == f.unpins && f == e.(ref := true, marked := true, pins := e.pins + 1, unpins := e.unpins + 1)
  }

  /** The window victim `wv` has moved to probation. */
  ghost predicate Demoted(was: seq<Slot>, now: seq<Slot>, wv: int) {
    && 0 <= wv < |was| == |now| && Eligible(was[wv], Window)
    && Stayed(was[wv], now[wv]) && KeptBut(was, now, wv, wv)
  }

  /**
   The window victim `wv` met the probation victim `pv`: the entry of the page used less often is blank, the other
   is in probation, and nothing but reference bits changed elsewhere.
   */
  ghost predicate Duelled(was: seq<Slot>, now: seq<Slot>, freq: nat -> int, wv: int, pv: int) {
    && 0 <= wv < |was| == |now| && 0 <= pv < |was| && Eligible(was[wv], Window) && Eligible(was[pv], Probation)
    && KeptBut(was, now, wv, pv)
    && if freq(was[wv].key) >= freq(was[pv].key) then Stayed(was[wv], now[wv]) && now[pv] == Blank
       else Stayed(was[pv], now[pv]) && now[wv] == Blank
  }

  /** Both victims are marked and pinned. */
  ghost predicate BothTaken(was: seq<Slot>, now: seq<Slot>, wv: int, pv: int) {
    && 0 <= wv < |was| == |now| && 0 <= pv < |was| && Eligible(was[wv], Window) && Eligible(was[pv], Probation)
    && now[wv] == Taken(was[wv]) && now[pv] == Taken(was[pv]) && KeptBut(was, now, wv, pv)
  }

  /** At most `v`, the victim that was found, is left marked. */
  ghost predicate GivenUp(was: seq<Slot>, now: seq<Slot>, v: int) {
    && -1 <= v < |was| == |now| && KeptBut(was, now, v, v)
    && (v != -1 ==> LeftMarked(was[v], now[v]))
  }

  /** How a meeting of the two victims ends. */
  ghost predicate Settled(was: seq<Slot>, now: seq<Slot>, freq: nat -> int, wv: int, pv: int, r: Outcome) {
    && (r == Done ==> Duelled(was, now, freq, wv, pv))
    && (r == Failed(NoWindowVictim) ==> wv == -1 && GivenUp(was, now, pv))
    && (r == Failed(NoProbationVictim) ==> pv == -1 && GivenUp(was, now, wv))
    && (r == Failed(WriteFailed) ==> BothTaken(was, now, wv, pv))
  }

  /** Entry `v`, which was free, is marked and pinned and belongs to the window. */
  ghost predicate Granted(was: seq<Slot>, now: seq<Slot>, v: int) {
    && 0 <= v < |was| == |now| && Eligible(was[v], Unassigned) && !was[v].occupied
    && now[v] == was[v].(seg := Window, acc := true, ref := true, marked := true, pins := was[v].pins + 1)
    && KeptBut(was, now, v, v)
  }

  /** Entry `i` is protected; the victim `v` of a full protected segment, if there is one, is in probation. */
  ghost predicate Promoted(was: seq<Slot>, now: seq<Slot>, i: nat, v: int) {
    && i < |was| == |now| && -1 <= v < |was| && v != i && now[i] == was[i].(seg := Protected)
    && if v == -1 then now == was[i := now[i]]
       else Eligible(was[v], Protected) && Stayed(was[v], now[v]) && KeptBut(was, now, i, v)
  }

  /** `v` is the second-chance victim of the segment. */
  ghost predicate VictimIs(es: seq<Slot>, h: nat, seg: Segment, v: int) {
    h < |es| && 0 <= v < |es| && IsVictim(es, h, seg, Dist(h, v, |es|))
  }

  /** After the window sweep took `wv`, the probation sweep goes on from there and finds `pv`. */
  ghost predicate NextVictim(es: seq<Slot>, h: nat, wv: int, pv: int) {
    h < |es| && 0 <= wv < |es| && VictimIs(Swept(es, h, Window, Dist(h, wv, |es|)), (wv + 1) % |es|, Probation, pv)
  }

  lemma SecondVictim(es: seq<Slot>, h: nat, mid: seq<Slot>, hand: nat, wv: int, pv: int)
    requires SweepDone(es, h, Window, mid, hand, wv) && wv != -1 && 0 <= pv < |es| && hand < |es| == |mid|
    requires IsVictim(mid, hand, Probation, Dist(hand, pv, |es|))
    ensures NextVictim(es, h, wv, pv)
  {
  }

  /** The loser's slot is free again, the winner's is in probation, unmarked and unpinned. */
  function Replaced(es: seq<Slot>, loser: nat, winner: nat): seq<Slot>
    requires loser < |es| && winner < |es|
  {
    es[loser := Unmarked(Reset(es[loser]))][winner := Unpinned(Unmarked(Moved(es[winner], Window, Probation)))]
  }

  lemma DuelOutcome(was: seq<Slot>, now: seq<Slot>, after: seq<Slot>, freq: nat -> int, wv: nat, pv: nat)
    requires BothTaken(was, now, wv, pv) && PinsOk(was[wv]) && PinsOk(was[pv])
    requires after == if freq(now[wv].key) >= freq(now[pv].key) then Replaced(now, pv, wv) else Replaced(now, wv, pv)
    ensures Duelled(was, after, freq, wv, pv)
  {
  }

  lemma BothPicked(was: seq<Slot>, mid: seq<Slot>, now: seq<Slot>, wv: int, pv: int)
    requires Picked(was, mid, Window, wv) && Picked(mid, now, Probation, pv) && wv != -1 && pv != -1
    ensures BothTaken(was, now, wv, pv)
  {
  }

  lemma FreeGranted(was: seq<Slot>, now: seq<Slot>, v: nat)
    requires Picked(was, now, Unassigned, v) && SlotOk(was[v])
    ensures Granted(was, now[v := Moved(now[v], Unassigned, Window)], v)
  {
  }

  /** One sweep found nothing; the victim of the other, if any, is released. */
  lemma OnePicked(was: seq<Slot>, mid: seq<Slot>, now: seq<Slot>, wv: int, pv: int, v: int)
    requires Picked(was, mid, Window, wv) && Picked(mid, now, Probation, pv) && (wv == -1 || pv == -1) && v == (if wv == -1 then pv else wv)
    requires v != -1 ==> PinsOk(was[v])
    ensures v == -1 ==> GivenUp(was, now, v)
    ensures v != -1 ==> now[v].acc && GivenUp(was, now[v := Unpinned(now[v])], v)
  {
  }

  ghost predicate NoneEligible(es: seq<Slot>, seg: Segment) { forall i :: 0 <= i < |es| ==> !Eligible(es[i], seg) }

  /** A sweep marked and pinned `v`, or found nothing; otherwise it only cleared reference bits in its segment. */
  ghost predicate Picked(es: seq<Slot>, now: seq<Slot>, seg: Segment, v: int) {
    && |now| == |es| && -1 <= v < |es|
    && (v == -1 <==> NoneEligible(es, seg))
    && (v != -1 ==> Eligible(es[v], seg) && now[v] == Taken(es[v]))
    && (forall i :: 0 <= i < |es| && i != v ==> now[i] == es[i] || (Eligible(es[i], seg) && now[i] == Spared(es[i])))
  }

  lemma SweepPicks(es: seq<Slot>, now: seq<Slot>, h: nat, hand: nat, seg: Segment, v: int)
    requires SweepDone(es, h, seg, now, hand, v)
    ensures Picked(es, now, seg, v)
  {
    if v != -1 { SweepTouches(es, h, seg, v); }
  }

  lemma PickedElsewhere(es: seq<Slot>, now: seq<Slot>, v: int)
    requires Picked(es, now, Window, v)
    ensures NoneEligible(es, Probation) <==> NoneEligible(now, Probation)
  {
    forall i | 0 <= i < |es| ensures Eligible(es[i], Probation) == Eligible(now[i], Probation) {}
  }

  /** A probation slot and a protected one change places. */
  lemma SwapBalanced(es: seq<Slot>, v: nat, i: nat, ev: Slot, ei: Slot, b: Books)
    requires Balanced(es, b) && v < |es| && i < |es| && es[v].seg == Protected && es[i].seg == Probation && es[v].acc
    requires ev == Unpinned(Unmarked(Moved(es[v], Protected, Probation))) && ei == Moved(es[i], Probation, Protected)
    ensures Balanced(es[v := ev][i := ei], b) && Drift(es[v := ev][i := ei], b) == Drift(es, b)
  {
    Rebook(es, v, ev, b);
    Rebook(es[v := ev], i, ei, Shift(b, In(Protected), In(Probation)));
  }

  lemma ReplacedBalanced(es: seq<Slot>, loser: nat, winner: nat, b: Books)
    requires Balanced(es, b) && loser < |es| && winner < |es| && b.window > 0 && es[winner].acc && !es[loser].reserved
    requires (es[loser].seg == Window && es[winner].seg == Probation) || (es[loser].seg == Probation && es[winner].seg == Window)
    ensures Balanced(Replaced(es, loser, winner), b.(window := b.window - 1))
    ensures Drift(Replaced(es, loser, winner), b.(window := b.window - 1)) == Drift(es, b)
  {
    var gone := Unmarked(Reset(es[loser]));
    Rebook(es, loser, gone, b);
    Rebook(es[loser := gone], winner, Unpinned(Unmarked(Moved(es[winner], Window, Probation))), Shift(b, KindOf(es[loser]), Free));
  }

  lemma {:induction false} InitialCounts(es: seq<Slot>, reserve: bool, n: nat)
    requires n <= |es| && (n > 0 ==> es[0] == if reserve then Taken(Blank).(reserved := true) else Blank)
    requires forall i :: 1 <= i < n ==> es[i] == Blank
    ensures forall seg :: seg != Unassigned ==> CountUpTo(es, In(seg), n) == 0
    ensures CountUpTo(es, Reserved, n) == if reserve && n > 0 then 1 else 0
  {
    if n > 0 { InitialCounts(es, reserve, n - 1); }
  }

  class Policy {
    const clk: Clock
    var windowCount: nat
    var probationCount: nat
    var protectedCount: nat
    const windowCapacity: nat
    const probationCapacity: nat
    const protectedCapacity: nat

    ghost function Book(): Books
      reads this
    {
      Books(windowCount, probationCount, protectedCount, windowCapacity, probationCapacity, protectedCapacity)
    }

    ghost predicate Valid()
      reads this, clk, clk.slots
    {
      clk.Valid() && Balanced(clk.slots[..], Book())
    }

    /** How far the window is ahead of its counter. */
    ghost function Surplus(): int
      reads this, clk, clk.slots
    {
      Drift(clk.slots[..], Book())
    }

    /** `NewWTinylfu`; `New` below rejects the other sizes. */
    constructor (windowSize: nat, mainCacheSize: nat, reserve: bool)
      requires 0 < windowSize < mainCacheSize
      ensures Valid() && fresh(clk) && fresh(clk.slots) && Surplus() == 0
      ensures windowCount == probationCount == protectedCount == 0 && windowCapacity == windowSize
      ensures windowCapacity + probationCapacity + protectedCapacity + (if reserve then 1 else 0) == clk.slots.Length == windowSize + mainCacheSize
      ensures -2 <= 5 * probationCapacity - mainCacheSize <= 2
    {
      CapacitiesAddUp(mainCacheSize);
      windowCount, probationCount, protectedCount := 0, 0, 0;
      windowCapacity := windowSize;
      probationCapacity := Round(mainCacheSize as real * MAIN_CACHE_RATIO);
      var protectedCap := Round(mainCacheSize as real * (1.0 - MAIN_CACHE_RATIO));
      if reserve { protectedCap := protectedCap - 1; }
      protectedCapacity := protectedCap;
      clk := new Clock(windowSize + mainCacheSize, reserve);
      new;
      InitialCounts(clk.slots[..], reserve, clk.slots.Length);
    }

    static method New(windowSize: nat, mainCacheSize: nat, reserve: bool) returns (w: Policy?)
      ensures w == null <==> windowSize == 0 || mainCacheSize == 0 || windowSize >= mainCacheSize
      ensures w != null ==> fresh(w) && fresh(w.clk) && fresh(w.clk.slots) && w.Valid()
    {
      if windowSize <= 0 || mainCacheSize <= 0 || windowSize >= mainCacheSize {
        return null;
      }
      w := new Policy(windowSize, mainCacheSize, reserve);
    }

    /** `promoteToProtected`: a probation slot becomes protected; when that segment is full, its victim takes the place. */
    method PromoteToProtected(i: nat) returns (r: Outcome, ghost v: int)
      requires Valid() && i < clk.slots.Length
      modifies this, clk`head, clk.slots
      ensures Valid() && clk.slots == old(clk.slots) && !r.Panicked? && Surplus() == old(Surplus())
      ensures old(clk.slots[i].seg) != Probation ==> r == Done && clk.slots[..] == old(clk.slots[..]) && Book() == old(Book())
      ensures old(clk.slots[i].seg) == Probation && r == Done ==> Promoted(old(clk.slots[..]), clk.slots[..], i, v)
      ensures old(clk.slots[i].seg) == Probation && r == Done && old(protectedCount) < protectedCapacity ==>
                v == -1 && windowCount == old(windowCount) && probationCount + 1 == old(probationCount) && protectedCount == old(protectedCount) + 1
      ensures old(clk.slots[i].seg) == Probation && r == Done && old(protectedCount) == protectedCapacity ==>
                VictimIs(old(clk.slots[..]), old(clk.head), Protected, v) && Book() == old(Book())
      ensures r.Failed? ==> clk.slots[..] == old(clk.slots[..]) && Book() == old(Book())
      ensures r.Failed? <==> (old(clk.slots[i].seg) == Probation && protectedCapacity == old(protectedCount) &&
                              forall j :: 0 <= j < clk.slots.Length ==> !Eligible(old(clk.slots[j]), Protected))
    {
      ghost var es, b := clk.slots[..], Book();
      v := -1;
      if clk.slots[i].seg != Probation {
        return Done, v;
      }
      if protectedCount < protectedCapacity {
        Rebook(es, i, Moved(es[i], Probation, Protected), b);
        clk.slots[i] := Moved(clk.slots[i], Probation, Protected);
        assert clk.slots[..] == es[i := Moved(es[i], Probation, Protected)];
        probationCount := probationCount - 1;
        protectedCount := protectedCount + 1;
        if probationCount > probationCapacity {
          return Panicked, v;
        }
        r := Done;
      } else {
        r, v := SwapWithProtected(i);
      }
    }

    /** A sweep for a victim of one of the three segments. */
    method SweepFor(seg: Segment) returns (v: int)
      requires Valid() && seg != Unassigned
      modifies clk`head, clk.slots
      ensures Valid() && clk.slots == old(clk.slots) && Surplus() == old(Surplus())
      ensures Picked(old(clk.slots[..]), clk.slots[..], seg, v)
      ensures SweepDone(old(clk.slots[..]), old(clk.head), seg, clk.slots[..], clk.head, v)
    {
      ghost var es, h := clk.slots[..], clk.head;
      v := clk.EvictWithoutClearing(seg);
      SweepBalanced(es, clk.slots[..], h, clk.head, seg, v, Book());
      SweepPicks(es, clk.slots[..], h, clk.head, seg, v);
    }

    method SwapWithProtected(i: nat) returns (r: Outcome, ghost v: int)
      requires Valid() && i < clk.slots.Length && clk.slots[i].seg == Probation && protectedCount == protectedCapacity
      modifies clk`head, clk.slots
      ensures Valid() && clk.slots == old(clk.slots) && !r.Panicked? && Surplus() == old(Surplus())
      ensures r == Done ==> v != -1 && Promoted(old(clk.slots[..]), clk.slots[..], i, v) && VictimIs(old(clk.slots[..]), old(clk.head), Protected, v)
      ensures r.Failed? ==> clk.slots[..] == old(clk.slots[..])
      ensures r.Failed? <==> forall j :: 0 <= j < clk.slots.Length ==> !Eligible(old(clk.slots[j]), Protected)
    {
      ghost var es := clk.slots[..];
      var victim := SweepFor(Protected);
      v := victim;
      if victim == -1 {
        return Failed(NoProtectedVictim), v;
      }
      assert Eligible(es[victim], Protected) && PinsOk(es[victim]);
      if victim == i {
        return Panicked, v;
      }
      Swap(victim, i);
      r := Done;
    }

    /** The protected victim and the probation slot change segments; the victim is unmarked and unpinned. */
    method Swap(v: nat, i: nat)
      requires Valid() && v < clk.slots.Length && i < clk.slots.Length
      requires clk.slots[v].seg == Protected && clk.slots[v].acc && clk.slots[i].seg == Probation
      modifies clk.slots
      ensures Valid() && clk.slots == old(clk.slots) && Surplus() == old(Surplus())
      ensures var now := old(clk.slots[..]);
              clk.slots[..] == now[v := Unpinned(Unmarked(now[v].(seg := Probation)))][i := now[i].(seg := Protected)]
    {
      ghost var now := clk.slots[..];
      var ev := Unpinned(Unmarked(Moved(clk.slots[v], Protected, Probation)));
      var ei := Moved(clk.slots[i], Probation, Protected);
      SwapBalanced(now, v, i, ev, ei, Book());
      clk.slots[v] := ev;
      clk.slots[i] := ei;
      assert clk.slots[..] == now[v := ev][i := ei];
    }

    /** Some slot of the segment could be evicted. */
    ghost predicate CanEvict(seg: Segment)
      reads this, clk, clk.slots
    {
      exists i :: 0 <= i < clk.slots.Length && Eligible(clk.slots[i], seg)
    }

    /** The full window cannot be relieved: it has no victim, or meets a full probation segment that has none. */
    ghost predicate Stuck()
      reads this, clk, clk.slots
    {
      !CanEvict(Window) || (!CanEvict(Probation) && probationCount >= probationCapacity)
    }

    /**
     `evictWindow`: with room in probation the window's victim moves there; otherwise it meets
     probation's victim and the one used less often leaves the cache.  `freq` stands for the
     frequency filter, `writeOk` for whether a page write succeeds.
     */
    method EvictWindow(freq: nat -> int, writeOk: bool) returns (r: Outcome, ghost wv: int, ghost pv: int)
      requires Valid()
      modifies this, clk`head, clk.slots
      ensures Valid() && clk.slots == old(clk.slots) && (r == Done || r.Failed?) && Surplus() == old(Surplus())
      ensures r == Failed(WindowNotFull) <==> old(windowCount) < windowCapacity
      ensures r == Failed(WindowNotFull) ==> clk.slots[..] == old(clk.slots[..])
      ensures r == Done ==>
                && windowCount == old(windowCount) - 1 && protectedCount == old(protectedCount)
                && probationCount == if old(probationCount) < probationCapacity then old(probationCount) + 1 else old(probationCount)
      ensures r == Done ==> VictimIs(old(clk.slots[..]), old(clk.head), Window, wv)
      ensures r == Done && old(probationCount) < probationCapacity ==> Demoted(old(clk.slots[..]), clk.slots[..], wv)
      ensures r == Done && old(probationCount) >= probationCapacity ==>
                && Duelled(old(clk.slots[..]), clk.slots[..], freq, wv, pv)
                && NextVictim(old(clk.slots[..]), old(clk.head), wv, pv)
      ensures r.Failed? ==> r.error != NoFreeSlot && r.error != NoProtectedVictim && Book() == old(Book())
      ensures r == Failed(NoWindowVictim) ==> wv == -1 && GivenUp(old(clk.slots[..]), clk.slots[..], pv)
      ensures r == Failed(NoProbationVictim) ==> pv == -1 && GivenUp(old(clk.slots[..]), clk.slots[..], wv)
      ensures r == Failed(WriteFailed) ==> BothTaken(old(clk.slots[..]), clk.slots[..], wv, pv)
      ensures old(windowCount == windowCapacity && Stuck()) ==> r.Failed?
      ensures old(windowCount == windowCapacity) && r.Failed? && (writeOk || old(probationCount) < probationCapacity) ==> old(Stuck())
    {
      wv, pv := -1, -1;
      if probationCount > probationCapacity {
        return Panicked, wv, pv;
      }
      if windowCount < windowCapacity {
        return Failed(WindowNotFull), wv, pv;
      }
      if probationCount >= probationCapacity {
        r, wv, pv := EvictByDuel(freq, writeOk);
      } else {
        r, wv := EvictToProbation();
      }
    }

    /** Probation has room: the window victim moves there. */
    method EvictToProbation() returns (r: Outcome, ghost wv: int)
      requires Valid() && windowCount == windowCapacity && probationCount < probationCapacity
      modifies this, clk`head, clk.slots
      ensures Valid() && clk.slots == old(clk.slots) && Surplus() == old(Surplus())
      ensures r == if old(CanEvict(Window)) then Done else Failed(NoWindowVictim)
      ensures r == Done ==> windowCount == old(windowCount) - 1 && probationCount == old(probationCount) + 1 && protectedCount == old(protectedCount)
      ensures r == Done ==> VictimIs(old(clk.slots[..]), old(clk.head), Window, wv) && Demoted(old(clk.slots[..]), clk.slots[..], wv)
      ensures r != Done ==> Book() == old(Book()) && wv == -1 && clk.slots[..] == old(clk.slots[..])
    {
      ghost var es := clk.slots[..];
      var v := SweepFor(Window);
      wv := v;
      if v == -1 {
        return Failed(NoWindowVictim), wv;
      }
      assert Eligible(es[v], Window) && PinsOk(es[v]);
      r := DemoteVictim(v);
    }

    /** Probation is full: the window victim meets the probation victim. */
    method EvictByDuel(freq: nat -> int, writeOk: bool) returns (r: Outcome, ghost wv: int, ghost pv: int)
      requires Valid() && windowCount == windowCapacity && probationCount == probationCapacity
      modifies this, clk`head, clk.slots
      ensures Valid() && clk.slots == old(clk.slots) && Surplus() == old(Surplus())
      ensures r == Done || r == Failed(NoWindowVictim) || r == Failed(NoProbationVictim) || r == Failed(WriteFailed)
      ensures r == Done ==> windowCount == old(windowCount) - 1 && probationCount == old(probationCount) && protectedCount == old(protectedCount)
      ensures r == Done ==> VictimIs(old(clk.slots[..]), old(clk.head), Window, wv) && NextVictim(old(clk.slots[..]), old(clk.head), wv, pv)
      ensures Settled(old(clk.slots[..]), clk.slots[..], freq, wv, pv, r)
      ensures r != Done ==> Book() == old(Book())
      ensures old(Stuck()) ==> r.Failed?
      ensures r.Failed? && writeOk ==> old(Stuck())
    {
      ghost var es, h := clk.slots[..], clk.head;
      assert Stuck() <==> NoneEligible(es, Window) || NoneEligible(es, Probation);
      var v := SweepFor(Window);
      ghost var mid, hand := clk.slots[..], clk.head;
      wv := v;
      PickedElsewhere(es, mid, v);
      r, pv := Duel(freq, writeOk, v, es);
      if r == Done { SecondVictim(es, h, mid, hand, v, pv); }
    }

    /** The window victim moves to probation, unmarked and unpinned. */
    method DemoteVictim(wv: nat) returns (r: Outcome)
      requires Valid() && wv < clk.slots.Length && clk.slots[wv].seg == Window && clk.slots[wv].acc
      requires probationCount < probationCapacity && windowCount > 0
      modifies this, clk.slots
      ensures Valid() && clk.slots == old(clk.slots) && r == Done
      ensures clk.slots[..] == old(clk.slots[..])[wv := Unpinned(Unmarked(old(clk.slots[wv]).(seg := Probation)))]
      ensures Surplus() == old(Surplus())
      ensures windowCount == old(windowCount) - 1 && probationCount == old(probationCount) + 1 && protectedCount == old(protectedCount)
    {
      ghost var es, b := clk.slots[..], Book();
      var e := Unpinned(Unmarked(Moved(clk.slots[wv], Window, Probation)));
      Rebook(es, wv, e, b);
      clk.slots[wv] := e;
      assert clk.slots[..] == es[wv := e];
      probationCount := probationCount + 1;
      windowCount := windowCount - 1;
      if probationCount > probationCapacity {
        return Panicked;
      }
      r := Done;
    }

    /** The full-probation branch: victims of both segments are compared, and the one used less often leaves. */
    method Duel(freq: nat -> int, writeOk: bool, wv: int, ghost before: seq<Slot>) returns (r: Outcome, ghost pv: int)
      requires Valid() && probationCount == probationCapacity && windowCount > 0
      requires Picked(before, clk.slots[..], Window, wv) && forall i :: 0 <= i < |before| ==> PinsOk(before[i])
      modifies this, clk`head, clk.slots
      ensures Valid() && clk.slots == old(clk.slots) && Surplus() == old(Surplus())
      ensures r == Done || r == Failed(NoWindowVictim) || r == Failed(NoProbationVictim) || r == Failed(WriteFailed)
      ensures Settled(before, clk.slots[..], freq, wv, pv, r)
      ensures r == Done ==> windowCount == old(windowCount) - 1 && wv != -1
      ensures r == Done ==> pv != -1 && IsVictim(old(clk.slots[..]), old(clk.head), Probation, Dist(old(clk.head), pv, clk.slots.Length))
      ensures probationCount == old(probationCount) && protectedCount == old(protectedCount)
      ensures r.Failed? ==> windowCount == old(windowCount)
      ensures wv == -1 ==> r.Failed?
      ensures NoneEligible(old(clk.slots[..]), Probation) ==> r.Failed?
      ensures r.Failed? && writeOk ==> wv == -1 || NoneEligible(old(clk.slots[..]), Probation)
    {
      ghost var mid := clk.slots[..];
      var v := SweepFor(Probation);
      ghost var now := clk.slots[..];
      pv := v;
      if wv == -1 {
        OnePicked(before, mid, now, wv, v, v);
        if v != -1 { UnpinVictim(v); }
        return Failed(NoWindowVictim), pv;
      }
      if v == -1 {
        OnePicked(before, mid, now, wv, v, wv);
        UnpinVictim(wv);
        return Failed(NoProbationVictim), pv;
      }
      BothPicked(before, mid, now, wv, v);
      r := Settle(freq, writeOk, wv, v, before);
    }

    /** The comparison of the two victims. */
    method Settle(freq: nat -> int, writeOk: bool, wv: nat, pv: nat, ghost before: seq<Slot>) returns (r: Outcome)
      requires Valid() && windowCount > 0 && BothTaken(before, clk.slots[..], wv, pv) && PinsOk(before[wv]) && PinsOk(before[pv])
      modifies this`windowCount, clk.slots
      ensures Valid() && clk.slots == old(clk.slots) && Surplus() == old(Surplus())
      ensures r == Done || (r == Failed(WriteFailed) && !writeOk)
      ensures r == Done ==> windowCount == old(windowCount) - 1 && Duelled(before, clk.slots[..], freq, wv, pv)
      ensures r != Done ==> windowCount == old(windowCount) && clk.slots[..] == old(clk.slots[..])
    {
      ghost var now := clk.slots[..];
      if freq(clk.slots[wv].key) >= freq(clk.slots[pv].key) {
        r := Replace(pv, wv, writeOk);
      } else {
        r := Replace(wv, pv, writeOk);
      }
      if r == Done { DuelOutcome(before, now, clk.slots[..], freq, wv, pv); }
    }

    /** An error return: the victim's pin is dropped, its eviction mark is not. */
    method UnpinVictim(v: nat)
      requires Valid() && v < clk.slots.Length && KindOf(clk.slots[v]) != Free && clk.slots[v].acc
      modifies clk.slots
      ensures Valid() && clk.slots == old(clk.slots) && clk.slots[..] == old(clk.slots[..])[v := Unpinned(old(clk.slots[v]))]
      ensures Surplus() == old(Surplus())
    {
      ghost var es := clk.slots[..];
      Rebook(es, v, Unpinned(es[v]), Book());
      clk.slots[v] := Unpinned(clk.slots[v]);
      assert clk.slots[..] == es[v := Unpinned(es[v])];
    }

    /** `loser` is flushed if dirty and leaves the cache; `winner` ends up in probation. */
    method Replace(loser: nat, winner: nat, writeOk: bool) returns (r: Outcome)
      requires Valid() && loser < clk.slots.Length && winner < clk.slots.Length && loser != winner
      requires clk.slots[loser].acc && clk.slots[winner].acc && !clk.slots[loser].reserved
      requires (clk.slots[loser].seg == Window && clk.slots[winner].seg == Probation) ||
               (clk.slots[loser].seg == Probation && clk.slots[winner].seg == Window)
      requires windowCount > 0
      modifies this`windowCount, clk.slots
      ensures Valid() && clk.slots == old(clk.slots)
      ensures Surplus() == old(Surplus())
      ensures r == if old(clk.slots[loser].dirty) && !writeOk then Failed(WriteFailed) else Done
      ensures r == Done ==> windowCount == old(windowCount) - 1
      ensures r == Done ==> clk.slots[..] == Replaced(old(clk.slots[..]), loser, winner)
      ensures r != Done ==> windowCount == old(windowCount) && clk.slots[..] == old(clk.slots[..])
    {
      if clk.slots[loser].dirty {
        if !writeOk {
          return Failed(WriteFailed);
        }
      }
      ghost var es := clk.slots[..];
      ReplacedBalanced(es, loser, winner, Book());
      clk.slots[loser] := Unmarked(Reset(clk.slots[loser]));
      clk.slots[winner] := Unpinned(Unmarked(Moved(clk.slots[winner], Window, Probation)));
      assert clk.slots[..] == Replaced(es, loser, winner);
      windowCount := windowCount - 1;
      r := Done;
    }

    /**
     `getFreeFrame`: evicts from a full window, then takes a free slot for the window.  Its last
     error ("Unable to add item") occurs exactly when the slots are `Starved`, and the overflow panics never.
     */
    method GetFreeFrame(freq: nat -> int, writeOk: bool) returns (r: Outcome, ghost wv: int, ghost pv: int, ghost mid: seq<Slot>)
      requires Valid()
      modifies this, clk`head, clk.slots
      ensures Valid() && clk.slots == old(clk.slots) && Surplus() == old(Surplus())
      ensures r.Got? || r.Failed?
      ensures r == Failed(NoFreeSlot) <==> old(Starved(clk.slots[..], Book()))
      ensures old(Surplus()) <= 0 ==> r != Failed(NoFreeSlot)
      ensures r.Failed? && r != Failed(NoFreeSlot) ==> old(windowCount) == windowCapacity
      ensures writeOk ==> (r.Failed? <==> old((windowCount == windowCapacity && Stuck()) || Starved(clk.slots[..], Book())))
      ensures r.Got? ==> Granted(mid, clk.slots[..], r.slot)
      ensures r == Failed(NoFreeSlot) ==> clk.slots[..] == mid
      ensures old(windowCount) < windowCapacity ==> mid == old(clk.slots[..])
      ensures old(windowCount) == windowCapacity && (r.Got? || r == Failed(NoFreeSlot)) ==>
                VictimIs(old(clk.slots[..]), old(clk.head), Window, wv) &&
                if old(probationCount) < probationCapacity then Demoted(old(clk.slots[..]), mid, wv)
                else Duelled(old(clk.slots[..]), mid, freq, wv, pv) && NextVictim(old(clk.slots[..]), old(clk.head), wv, pv)
    {
      FreeCount(clk.slots[..], Book());
      wv, pv, mid := -1, -1, clk.slots[..];
      if windowCount > windowCapacity {
        return Panicked, wv, pv, mid;
      }
      if windowCount == windowCapacity {
        r, wv, pv := EvictWindow(freq, writeOk);
        mid := clk.slots[..];
        if r.Failed? {
          return;
        }
        FreeCount(clk.slots[..], Book());
      }
      r := TakeSlot();
    }

    /** A free slot is marked, pinned, and counted in the window; there is none exactly when no slot is free. */
    method TakeSlot() returns (r: Outcome)
      requires Valid() && windowCount < windowCapacity
      modifies this, clk`head, clk.slots
      ensures Valid() && clk.slots == old(clk.slots) && Surplus() == old(Surplus())
      ensures if old(Count(clk.slots[..], Free)) == 0 then r == Failed(NoFreeSlot) else r.Got?
      ensures r.Got? ==> Granted(old(clk.slots[..]), clk.slots[..], r.slot)
      ensures r.Failed? ==> clk.slots[..] == old(clk.slots[..])
    {
      ghost var es, b, h := clk.slots[..], Book(), clk.head;
      FreeMeansEligible(es);
      var v := clk.EvictWithoutClearing(Unassigned);
      SweepPicks(es, clk.slots[..], h, clk.head, Unassigned, v);
      if v == -1 {
        return Failed(NoFreeSlot);
      }
      ghost var now := clk.slots[..];
      TakeFree(es, now, v, b);
      FreeGranted(es, now, v);
      clk.slots[v] := Moved(clk.slots[v], Unassigned, Window);
      assert clk.slots[..] == now[v := Moved(now[v], Unassigned, Window)];
      windowCount := windowCount + 1;
      r := Got(v);
    }

    // -------------------------------------------------------------------------------------
    // What other goroutines do to slots between the operations above
    // -------------------------------------------------------------------------------------

    /** Writes slot `i`, which stays of its kind. */
    method Update(i: nat, e: Slot)
      requires Valid() && i < clk.slots.Length
      requires SlotOk(e) && KindOf(e) == KindOf(clk.slots[i]) && e.reserved == clk.slots[i].reserved
      modifies clk.slots
      ensures Valid() && clk.slots == old(clk.slots) && clk.slots[..] == old(clk.slots[..])[i := e]
      ensures Surplus() == old(Surplus())
    {
      Rebook(clk.slots[..], i, e, Book());
      ghost var es := clk.slots[..];
      clk.slots[i] := e;
      assert clk.slots[..] == es[i := e];
    }

    /** `refIfOccupied`: a client pins a frame it found in the table. */
    method RefIfOccupied(i: nat) returns (ok: bool)
      requires Valid() && i < clk.slots.Length
      modifies clk.slots
      ensures Valid() && clk.slots == old(clk.slots)
      ensures Surplus() == old(Surplus())
      ensures ok == old(clk.slots[i].occupied && !clk.slots[i].marked)
      ensures clk.slots[..] == if ok then old(clk.slots[..])[i := old(clk.slots[i].(acc := true, ref := true, pins := clk.slots[i].pins + 1))] else old(clk.slots[..])
    {
      var e := clk.slots[i];
      if !e.occupied || e.marked {
        return false;
      }
      Update(i, Pinned(e));
      ok := true;
    }

    /** `refIfNotReferenced`: the background writer pins a frame nobody holds. */
    method RefIfNotReferenced(i: nat) returns (ok: bool)
      requires Valid() && i < clk.slots.Length
      modifies clk.slots
      ensures Valid() && clk.slots == old(clk.slots)
      ensures Surplus() == old(Surplus())
      ensures ok == old(!clk.slots[i].acc && clk.slots[i].occupied && !clk.slots[i].marked)
      ensures clk.slots[..] == if ok then old(clk.slots[..])[i := old(clk.slots[i].(acc := true, ref := true, pins := clk.slots[i].pins + 1))] else old(clk.slots[..])
    {
      var e := clk.slots[i];
      if e.acc || e.marked || !e.occupied {
        return false;
      }
      Update(i, Pinned(e));
      ok := true;
    }

    /** `unref`: panics exactly when no pin is outstanding. */
    method Unref(i: nat) returns (r: Outcome)
      requires Valid() && i < clk.slots.Length
      modifies clk.slots
      ensures Valid() && clk.slots == old(clk.slots)
      ensures Surplus() == old(Surplus())
      ensures r == if old(clk.slots[i].acc) then Done else Panicked
      ensures clk.slots[..] ==
              if r == Done
              then old(clk.slots[..])[i := old(clk.slots[i].(unpins := clk.slots[i].unpins + 1, acc := clk.slots[i].unpins + 1 < clk.slots[i].pins))]
              else old(clk.slots[..])
    {
      var e := clk.slots[i];
      if e.pins <= e.unpins {
        return Panicked;
      }
      Update(i, Unpinned(e));
      r := Done;
    }

    /** `unMarkForEviction` and `markOccupied`, by whoever was given the slot. */
    method Publish(i: nat)
      requires Valid() && i < clk.slots.Length && clk.slots[i].seg != Unassigned
      modifies clk.slots
      ensures Valid() && clk.slots == old(clk.slots)
      ensures Surplus() == old(Surplus())
      ensures clk.slots[..] == old(clk.slots[..])[i := old(clk.slots[i]).(marked := false, occupied := true)]
    {
      Update(i, Unmarked(clk.slots[i]).(occupied := true));
    }

    /**
     `Increment`: a probation frame is promoted, and an unassigned one joins the window without being counted.
     The caller may hold an entry that was evicted and reset since it was looked up, so it can be free.
     */
    method Increment(i: nat) returns (r: Outcome, ghost v: int)
      requires Valid() && i < clk.slots.Length && !clk.slots[i].reserved
      modifies this, clk`head, clk.slots
      ensures Valid() && clk.slots == old(clk.slots) && !r.Panicked?
      ensures old(clk.slots[i].seg) == Probation && r == Done ==>
                && Promoted(old(clk.slots[..]), clk.slots[..], i, v)
                && (v != -1 <==> old(protectedCount) == protectedCapacity)
                && (v != -1 ==> VictimIs(old(clk.slots[..]), old(clk.head), Protected, v))
      ensures r.Failed? ==> clk.slots[..] == old(clk.slots[..]) && Book() == old(Book())
      ensures r.Failed? <==> (old(clk.slots[i].seg) == Probation && protectedCapacity == old(protectedCount) &&
                              forall j :: 0 <= j < clk.slots.Length ==> !Eligible(old(clk.slots[j]), Protected))
      ensures old(clk.slots[i].seg) == Window || old(clk.slots[i].seg) == Protected ==> r == Done && clk.slots[..] == old(clk.slots[..])
      ensures old(clk.slots[i].seg) == Unassigned ==>
                r == Done && clk.slots[..] == old(clk.slots[..])[i := old(clk.slots[i]).(seg := Window)] && Book() == old(Book())
      ensures Surplus() == old(Surplus()) + if old(clk.slots[i].seg) == Unassigned then 1 else 0
    {
      v := -1;
      if clk.slots[i].seg == Probation {
        r, v := PromoteToProtected(i);
      } else if clk.slots[i].seg == Unassigned {
        ghost var es := clk.slots[..];
        JoinUncounted(es, i, Book());
        clk.slots[i] := Moved(clk.slots[i], Unassigned, Window);
        assert clk.slots[..] == es[i := Moved(es[i], Unassigned, Window)];
        r := Done;
      } else {
        r := Done;
      }
    }

    /** `readdFrameToPool`: a frame whose page could not be read goes back; the counter keeps it. */
    method ReaddFrameToPool(i: nat)
      requires Valid() && i < clk.slots.Length && clk.slots[i].seg == Window && !clk.slots[i].marked
      modifies clk.slots
      ensures Valid() && clk.slots == old(clk.slots)
      ensures clk.slots[..] == old(clk.slots[..])[i := Blank]
      ensures Surplus() == old(Surplus()) - 1 && Book() == old(Book())
    {
      ghost var es := clk.slots[..];
      GiveBack(es, i, Book());
      clk.slots[i] := Reset(clk.slots[i]);
      assert clk.slots[..] == es[i := Reset(es[i])];
    }
  }
}
