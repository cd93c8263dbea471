/**
 Pin safety of a shard, in every run: nothing is assumed about which misses meet a cached page.
 */
module ShardPins {
  import opened Shard

  // ---------------------------------------------------------------------------------------
  // The invariant
  // ---------------------------------------------------------------------------------------

  /** A marked victim is the evictor's alone. */
  ghost predicate VictimPinned(s: State, i: nat) {
    i in s.victims && i < |s.slots| && s.slots[i].marked && PinSum(s, i) == 1
  }

  /** A frame being filled is its filler's alone; a frame held is occupied and not marked. */
  ghost predicate TaskPinned(s: State, h: nat) {
    && h in s.tasks
    && match s.tasks[h]
       case Loaded(_, i) => i < |s.slots|
       case Missing(_) => true
       case Filling(_, i, _) => i < |s.slots| && !s.slots[i].occupied && s.slots[i].marked && PinSum(s, i) == 1
       case Filled(_, i) => i < |s.slots| && !s.slots[i].occupied && !s.slots[i].marked && PinSum(s, i) == 1
       case Holding(_, i) => i < |s.slots| && s.slots[i].occupied && !s.slots[i].marked
  }

  ghost predicate WriterPinned(s: State) {
    s.writer != Off ==> s.writer.slot < |s.slots| && s.slots[s.writer.slot].occupied && !s.slots[s.writer.slot].marked
  }

  ghost predicate TableInRange(s: State) { forall p: Pid :: p in s.table ==> s.table[p] < |s.slots| }

  ghost predicate PinSafe(s: State) {
    && (forall i: nat :: i < |s.slots| ==> PinsOk(s, i))
    && (forall i: nat :: i in s.victims ==> VictimPinned(s, i))
    && (forall h: nat :: h in s.tasks ==> TaskPinned(s, h))
    && WriterPinned(s) && TableInRange(s)
  }

  lemma InitialPinSafe(s: State)
    requires Initial(s)
    ensures PinSafe(s)
  {
    assert forall i: nat :: Holders(s.tasks, i) == {};
  }

  // ---------------------------------------------------------------------------------------
  // Steps that concern one slot and one task
  // ---------------------------------------------------------------------------------------

  /** Only slot `i` and task `h` may differ; -1 stands for none. */
  ghost predicate Near(s: State, s': State, i: int, h: int) {
    && |s'.slots| == |s.slots| && i < |s.slots|
    && (forall j: nat :: j < |s.slots| && j != i ==> s'.slots[j] == s.slots[j])
    && (forall j: nat :: j != i ==> (j in s'.victims <==> j in s.victims))
    && (s'.writer == s.writer || ((s.writer == Off || s.writer.slot == i) && (s'.writer == Off || s'.writer.slot == i)))
    && (forall g: nat :: g != h ==> (g in s'.tasks <==> g in s.tasks) && (g in s.tasks ==> s'.tasks[g] == s.tasks[g]))
  }

  /** Task `h` pins no slot but `i`, before and after; whoever else pins `i` holds it and may go on doing so. */
  ghost predicate Apart(s: State, s': State, i: int, h: int) {
    && (h >= 0 && h in s.tasks ==> forall j: nat :: j != i ==> !Pins(s.tasks[h], j))
    && (h >= 0 && h in s'.tasks ==> forall j: nat :: j != i ==> !Pins(s'.tasks[h], j))
    && (forall g: nat :: g in s.tasks && g != h && 0 <= i < |s'.slots| && Pins(s.tasks[g], i) ==>
          s.tasks[g].Holding? && s'.slots[i].occupied && !s'.slots[i].marked)
  }

  lemma OthersPinned(s: State, s': State, i: int, h: int)
    requires PinSafe(s) && Near(s, s', i, h) && Apart(s, s', i, h)
    ensures forall j: nat :: j < |s.slots| && j != i ==> PinsOk(s', j)
    ensures forall j: nat :: j != i && j in s'.victims ==> VictimPinned(s', j)
    ensures forall g: nat :: g in s'.tasks && g != h ==> TaskPinned(s', g)
  {
    forall j: nat | j != i ensures PinSum(s', j) == PinSum(s, j) {
      assert Holders(s'.tasks, j) == Holders(s.tasks, j);
    }
    forall j: nat | j < |s.slots| && j != i ensures PinsOk(s', j) { assert PinsOk(s, j); }
    forall j: nat | j != i && j in s'.victims ensures VictimPinned(s', j) { assert VictimPinned(s, j); }
    forall g: nat | g in s'.tasks && g != h ensures TaskPinned(s', g) {
      assert TaskPinned(s, g);
      var t := s.tasks[g];
      if t.Filling? || t.Filled? { assert Pins(t, t.slot) && t.slot != i; }
      if t.Holding? && t.slot == i { assert Pins(t, i); }
    }
  }

  /** Such a step keeps pins safe if its own slot and task and the writer are fine. */
  lemma StaysSafe(s: State, s': State, i: int, h: int)
    requires PinSafe(s) && Near(s, s', i, h) && Apart(s, s', i, h) && WriterPinned(s') && TableInRange(s')
    requires i >= 0 ==> PinsOk(s', i) && (i in s'.victims ==> VictimPinned(s', i))
    requires h >= 0 && h in s'.tasks ==> TaskPinned(s', h)
    ensures PinSafe(s')
  {
    OthersPinned(s, s', i, h);
  }

  /** Whoever pins an occupied slot holds it. */
  lemma PinnersHoldIt(s: State, i: nat)
    requires PinSafe(s) && i < |s.slots| && s.slots[i].occupied
    ensures forall g: nat :: g in s.tasks && Pins(s.tasks[g], i) ==> s.tasks[g].Holding?
  {
    forall g: nat | g in s.tasks && Pins(s.tasks[g], i) ensures s.tasks[g].Holding? { assert TaskPinned(s, g); }
  }

  /** A slot that is not accessed is pinned by nobody. */
  lemma Unpinned(s: State, i: nat)
    requires PinSafe(s) && i < |s.slots| && !s.slots[i].acc
    ensures PinSum(s, i) == 0 && forall g: nat :: g in s.tasks ==> !Pins(s.tasks[g], i)
  {
    assert PinsOk(s, i);
    NoHolder(s, i);
  }

  // ---------------------------------------------------------------------------------------
  // Every step
  // ---------------------------------------------------------------------------------------

  lemma LookupSafe(s: State, h: nat, page: Pid)
    requires PinSafe(s) && Enabled(s, Lookup(h, page))
    ensures PinSafe(Next(s, Lookup(h, page)))
  {
    StaysSafe(s, Next(s, Lookup(h, page)), -1, h);
  }

  lemma PinTrySafe(s: State, h: nat)
    requires PinSafe(s) && Enabled(s, PinTry(h))
    ensures PinSafe(Next(s, PinTry(h)))
  {
    var i := s.tasks[h].slot;
    if s.slots[i].occupied && !s.slots[i].marked {
      PinHitSafe(s, h, i);
    } else {
      StaysSafe(s, Next(s, PinTry(h)), -1, h);
    }
  }

  lemma PinHitSafe(s: State, h: nat, i: nat)
    requires PinSafe(s) && Enabled(s, PinTry(h)) && i == s.tasks[h].slot && s.slots[i].occupied && !s.slots[i].marked
    ensures PinSafe(Next(s, PinTry(h)))
  {
    var s' := Next(s, PinTry(h));
    assert PinsOk(s, i) && (i in s.victims ==> VictimPinned(s, i));
    PinSumSet(s, s', i, h, s'.tasks[h]);
    PinnersHoldIt(s, i);
    StaysSafe(s, s', i, h);
  }

  /** `getFreeFrame` for a miss or a new page. */
  lemma GrantSafe(s: State, step: Step, h: nat, i: nat)
    requires PinSafe(s) && Enabled(s, step) && ((step.Take? && step.h == h && step.slot == i) || (step.NewPage? && step.h == h && step.slot == i))
    ensures PinSafe(Next(s, step))
  {
    var s' := Next(s, step);
    assert PinsOk(s, i);
    Unpinned(s, i);
    PinSumSet(s, s', i, h, s'.tasks[h]);
    StaysSafe(s, s', i, h);
  }

  /** The steps of a client that is filling its frame. */
  lemma FillSafe(s: State, step: Step, h: nat)
    requires PinSafe(s) && Enabled(s, step)
    requires (step.ReadIn? || step.Publish? || step.PublishNew? || step.GiveBack?) && step.h == h
    ensures PinSafe(Next(s, step))
  {
    var s', i := Next(s, step), s.tasks[h].slot;
    assert TaskPinned(s, h) && PinsOk(s, i);
    SoleHolder(s, i, h);
    if step.GiveBack? { PinSumDrop(s, s', i, h); } else { PinSumSet(s, s', i, h, s'.tasks[h]); }
    StaysSafe(s, s', i, h);
  }

  lemma WriteSafe(s: State, h: nat, content: Body)
    requires PinSafe(s) && Enabled(s, Write(h, content))
    ensures PinSafe(Next(s, Write(h, content)))
  {
    var s', i := Next(s, Write(h, content)), s.tasks[h].slot;
    assert TaskPinned(s, h) && PinsOk(s, i) && (i in s.victims ==> VictimPinned(s, i));
    PinnersHoldIt(s, i);
    StaysSafe(s, s', i, -1);
  }

  lemma ReleaseSafe(s: State, h: nat)
    requires PinSafe(s) && Enabled(s, Release(h))
    ensures PinSafe(Next(s, Release(h)))
  {
    var s', i := Next(s, Release(h)), s.tasks[h].slot;
    assert TaskPinned(s, h) && PinsOk(s, i) && (i in s.victims ==> VictimPinned(s, i));
    PinSumDrop(s, s', i, h);
    PinnersHoldIt(s, i);
    assert h in Holders(s.tasks, i);
    StaysSafe(s, s', i, h);
  }

  lemma ChooseSafe(s: State, i: nat)
    requires PinSafe(s) && Enabled(s, Choose(i))
    ensures PinSafe(Next(s, Choose(i)))
  {
    var s' := Next(s, Choose(i));
    assert PinsOk(s, i);
    Unpinned(s, i);
    StaysSafe(s, s', i, -1);
  }

  /** The steps of the evictor on a slot it has marked. */
  lemma EvictorSafe(s: State, step: Step, i: nat)
    requires PinSafe(s) && Enabled(s, step)
    requires (step.Spare? || step.Flush? || step.Drop? || step.Reset?) && step.slot == i
    ensures PinSafe(Next(s, step))
  {
    var s' := Next(s, step);
    assert VictimPinned(s, i) && PinsOk(s, i);
    NoHolder(s, i);
    StaysSafe(s, s', i, -1);
  }

  lemma WriterPinSafe(s: State, i: nat)
    requires PinSafe(s) && Enabled(s, WriterPin(i))
    ensures PinSafe(Next(s, WriterPin(i)))
  {
    assert PinsOk(s, i);
    Unpinned(s, i);
    StaysSafe(s, Next(s, WriterPin(i)), i, -1);
  }

  lemma WriterSafe(s: State, step: Step)
    requires PinSafe(s) && Enabled(s, step) && (step.WriterSkip? || step.WriterCopy? || step.WriterWrite? || step.WriterUnpin?)
    ensures PinSafe(Next(s, step))
  {
    var i := s.writer.slot;
    assert PinsOk(s, i) && (i in s.victims ==> VictimPinned(s, i));
    PinnersHoldIt(s, i);
    WriterNear(s, step, i, Next(s, step));
    StaysSafe(s, Next(s, step), i, -1);
  }

  lemma WriterNear(s: State, step: Step, i: nat, s': State)
    requires Enabled(s, step) && (step.WriterSkip? || step.WriterCopy? || step.WriterWrite? || step.WriterUnpin?)
    requires i == s.writer.slot && PinsOk(s, i) && s.slots[i].occupied && !s.slots[i].marked && i !in s.victims && s' == Next(s, step)
    ensures Near(s, s', i, -1) && PinsOk(s', i) && s'.tasks == s.tasks && s'.table == s.table
    ensures s'.slots[i].occupied && !s'.slots[i].marked && (s'.writer == Off || s'.writer.slot == i)
  {
  }

  /** Every step keeps pins safe, whether or not the pages it concerns are cached elsewhere. */
  lemma StepPinSafe(s: State, step: Step)
    requires PinSafe(s) && Enabled(s, step)
    ensures PinSafe(Next(s, step))
  {
    match step
    case Lookup(h, page) => LookupSafe(s, h, page);
    case PinTry(h) => PinTrySafe(s, h);
    case Take(h, slot) => GrantSafe(s, step, h, slot);
    case NewPage(h, _, slot) => GrantSafe(s, step, h, slot);
    case ReadIn(h) => FillSafe(s, step, h);
    case Publish(h) => FillSafe(s, step, h);
    case PublishNew(h, _) => FillSafe(s, step, h);
    case GiveBack(h) => FillSafe(s, step, h);
    case Write(h, content) => WriteSafe(s, h, content);
    case Release(h) => ReleaseSafe(s, h);
    case Choose(i) => ChooseSafe(s, i);
    case Spare(i) => EvictorSafe(s, step, i);
    case Flush(i) => EvictorSafe(s, step, i);
    case Drop(i) => EvictorSafe(s, step, i);
    case Reset(i) => EvictorSafe(s, step, i);
    case WriterPin(i) => WriterPinSafe(s, i);
    case WriterSkip => WriterSafe(s, step);
    case WriterCopy => WriterSafe(s, step);
    case WriterWrite => WriterSafe(s, step);
    case WriterUnpin => WriterSafe(s, step);
  }

  ghost predicate MovesAt(b: seq<State>, steps: seq<Step>, k: int) {
    0 <= k < |steps| && k + 1 < |b| && Enabled(b[k], steps[k]) && b[k + 1] == Next(b[k], steps[k])
  }

  /** `b` lists the states of a run that takes `steps`. */
  ghost predicate Behaviour(b: seq<State>, steps: seq<Step>) {
    |b| == |steps| + 1 && forall k :: 0 <= k < |steps| ==> MovesAt(b, steps, k)
  }

  /** Pin safety in every state of every run. */
  lemma {:induction false} ReachablePinSafe(b: seq<State>, steps: seq<Step>, k: nat)
    requires Behaviour(b, steps) && Initial(b[0]) && k < |b|
    ensures PinSafe(b[k])
  {
    if k == 0 {
      InitialPinSafe(b[0]);
    } else {
      ReachablePinSafe(b, steps, k - 1);
      assert MovesAt(b, steps, k - 1);
      StepPinSafe(b[k - 1], steps[k - 1]);
    }
  }

  // ---------------------------------------------------------------------------------------
  // What it means
  // ---------------------------------------------------------------------------------------

  lemma HeldIsNoVictim(s: State, h: nat)
    requires PinSafe(s) && h in s.tasks && s.tasks[h].Holding?
    ensures s.tasks[h].slot !in s.victims
  {
    assert TaskPinned(s, h);
    assert forall j: nat :: j in s.victims ==> VictimPinned(s, j);
  }

  /** The access bit is set exactly while some pin is outstanding, and every pin has its holder. */
  lemma AccessMeansHeld(s: State, i: nat)
    requires PinSafe(s) && i < |s.slots|
    ensures s.slots[i].acc <==> s.slots[i].pin > s.slots[i].unpin
    ensures s.slots[i].acc <==> i in s.victims || WriterOn(s.writer, i) || exists h: nat :: h in s.tasks && Pins(s.tasks[h], i)
  {
    assert PinsOk(s, i);
    if |Holders(s.tasks, i)| > 0 {
      var h :| h in Holders(s.tasks, i);
    }
    forall h: nat | h in s.tasks && Pins(s.tasks[h], i) ensures |Holders(s.tasks, i)| > 0 {
      assert h in Holders(s.tasks, i);
    }
  }

  /** A chosen victim has no outstanding pin but the evictor's own. */
  lemma ChosenIsUnpinned(s: State, i: nat)
    requires PinSafe(s) && Enabled(s, Choose(i))
    ensures PinSum(s, i) == 0 && PinSum(Next(s, Choose(i)), i) == 1
  {
    ChooseSafe(s, i);
    Unpinned(s, i);
    assert VictimPinned(Next(s, Choose(i)), i);
  }

  /** While a frame is marked nobody can pin it, neither a client nor the writer. */
  lemma MarkedIsUntouchable(s: State, i: nat)
    requires PinSafe(s) && i in s.victims
    ensures forall h: nat :: Enabled(s, PinTry(h)) && s.tasks[h].slot == i ==> Next(s, PinTry(h)).tasks[h].Missing?
    ensures !Enabled(s, WriterPin(i)) && !Enabled(s, Choose(i))
  {
    assert VictimPinned(s, i);
  }

  /** Resetting a frame never takes it from under a client or the writer. */
  lemma ResetHitsNobody(s: State, i: nat)
    requires PinSafe(s) && Enabled(s, Reset(i))
    ensures forall h: nat :: h in s.tasks ==> !Pins(s.tasks[h], i)
    ensures !WriterOn(s.writer, i) && s.slots[i].pin == s.slots[i].unpin + 1
  {
    assert VictimPinned(s, i) && PinsOk(s, i);
    NoHolder(s, i);
  }

  /** A held frame keeps its page through every step of everybody else; publication, with its key write, is one step. */
  lemma HeldStays(s: State, step: Step, h: nat)
    requires PinSafe(s) && Enabled(s, step)
    requires h in s.tasks && s.tasks[h].Holding? && step != Release(h)
    ensures var s' := Next(s, step);
            && h in s'.tasks && s'.tasks[h] == s.tasks[h]
            && s'.slots[s.tasks[h].slot].occupied && s'.slots[s.tasks[h].slot].key == s.slots[s.tasks[h].slot].key
  {
    assert TaskPinned(s, h);
    if step.Publish? || step.PublishNew? || step.GiveBack? || step.ReadIn? {
      assert TaskPinned(s, step.h);
    }
    HeldIsNoVictim(s, h);
  }
}
