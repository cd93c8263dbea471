/**
 One shard of the buffer manager as a protocol (pkg/buffermanager/shard.go, bgwriter.go,
 wtinylfu.go, clock.go): clients that look up, pin, read in, write and release frames, an
 evictor that runs under the W-TinyLFU lock, and the background writer, interleaved.  A step is
 one section under a lock, except that `Publish` marks the frame occupied, sets its key and
 stores it in the table at once.
 */
module Shard {

  type Pid = nat
  type Body = seq<int>

  /** A clock entry with its frame.  `bit` is the Dirty bit inside the page bytes. */
  datatype Slot = Slot(occupied: bool, marked: bool, acc: bool, pin: nat, unpin: nat,
                       key: Pid, body: Body, bit: bool, dirty: bool)

  const Blank := Slot(false, false, false, 0, 0, 0, [], false, false)

  /** A page on disk. */
  datatype Stored = Stored(body: Body, bit: bool)

  /** How far the evictor has got with a slot it has marked. */
  datatype Phase = Chosen | Flushed | Dropped

  /**
   A client operation.  `Loaded` has read the table but not pinned yet; `Missing` will ask for
   a free frame; `Filling` has been given one; `Filled` has read the page into it; `Holding` has
   returned the frame to its caller.
   */
  datatype Task =
    | Loaded(page: Pid, slot: nat)
    | Missing(page: Pid)
    | Filling(page: Pid, slot: nat, isNew: bool)
    | Filled(page: Pid, slot: nat)
    | Holding(page: Pid, slot: nat)

  datatype Writer = Off | Pinned(slot: nat) | Copied(slot: nat, page: Pid, copy: Stored) | Written(slot: nat)

  /** `last` is the specification: what was last written to each page. */
  datatype State = State(slots: seq<Slot>, table: map<Pid, nat>, disk: map<Pid, Stored>, last: map<Pid, Body>,
                         victims: map<nat, Phase>, tasks: map<nat, Task>, writer: Writer)

  // ---------------------------------------------------------------------------------------
  // Steps
  // ---------------------------------------------------------------------------------------

  datatype Step =
    | Lookup(h: nat, page: Pid)
    | PinTry(h: nat)
    | Take(h: nat, slot: nat)
    | NewPage(h: nat, page: Pid, slot: nat)
    | ReadIn(h: nat)
    | Publish(h: nat)
    | PublishNew(h: nat, blank: Body)
    | GiveBack(h: nat)
    | Write(h: nat, content: Body)
    | Release(h: nat)
    | Choose(slot: nat)
    | Spare(slot: nat)
    | Flush(slot: nat)
    | Drop(slot: nat)
    | Reset(slot: nat)
    | WriterPin(slot: nat)
    | WriterSkip
    | WriterCopy
    | WriterWrite
    | WriterUnpin

  function PinSlot(e: Slot): Slot { e.(acc := true, pin := e.pin + 1) }

  function UnpinSlot(e: Slot): Slot { e.(unpin := e.unpin + 1, acc := e.acc && e.pin - e.unpin != 1) }

  /** A slot the unassigned-segment sweep can hand out. */
  predicate FreeSlot(e: Slot) { !e.occupied && !e.marked && !e.acc }

  predicate Enabled(s: State, step: Step) {
    match step
    case Lookup(h, page) => h !in s.tasks && page != 0
    case PinTry(h) => h in s.tasks && s.tasks[h].Loaded? && s.tasks[h].slot < |s.slots|
    case Take(h, slot) => h in s.tasks && s.tasks[h].Missing? && slot < |s.slots| && FreeSlot(s.slots[slot]) && s.victims == map[]
    case NewPage(h, page, slot) => h !in s.tasks && page != 0 && slot < |s.slots| && FreeSlot(s.slots[slot]) && s.victims == map[]
    case ReadIn(h) => h in s.tasks && s.tasks[h].Filling? && !s.tasks[h].isNew && s.tasks[h].slot < |s.slots| && s.tasks[h].page in s.disk
    case Publish(h) => h in s.tasks && s.tasks[h].Filled? && s.tasks[h].slot < |s.slots|
    case PublishNew(h, _) => h in s.tasks && s.tasks[h].Filling? && s.tasks[h].isNew && s.tasks[h].slot < |s.slots|
    case GiveBack(h) => h in s.tasks && s.tasks[h].Filling? && !s.tasks[h].isNew && s.tasks[h].slot < |s.slots| && s.tasks[h].page !in s.disk
    case Write(h, _) => h in s.tasks && s.tasks[h].Holding? && s.tasks[h].slot < |s.slots|
    case Release(h) => h in s.tasks && s.tasks[h].Holding? && s.tasks[h].slot < |s.slots|
    case Choose(i) => i < |s.slots| && !s.slots[i].marked && !s.slots[i].acc
    case Spare(i) => i < |s.slots| && i in s.victims && s.victims[i] == Chosen
    case Flush(i) => i < |s.slots| && i in s.victims && s.victims[i] == Chosen
    case Drop(i) => i < |s.slots| && i in s.victims && s.victims[i] == Flushed
    case Reset(i) => i < |s.slots| && i in s.victims && s.victims[i] == Dropped
    case WriterPin(i) => s.writer == Off && i < |s.slots| && !s.slots[i].acc && !s.slots[i].marked && s.slots[i].occupied
    case WriterSkip => s.writer.Pinned? && s.writer.slot < |s.slots| && !s.slots[s.writer.slot].dirty
    case WriterCopy => s.writer.Pinned? && s.writer.slot < |s.slots| && s.slots[s.writer.slot].dirty
    case WriterWrite => s.writer.Copied?
    case WriterUnpin => s.writer.Written? && s.writer.slot < |s.slots|
  }

  function Next(s: State, step: Step): State
    requires Enabled(s, step)
  {
    match step
    case Lookup(h, page) =>
      s.(tasks := s.tasks[h := if page in s.table then Loaded(page, s.table[page]) else Missing(page)])
    case PinTry(h) =>
      var i, page := s.tasks[h].slot, s.tasks[h].page;
      if s.slots[i].occupied && !s.slots[i].marked
      then s.(slots := s.slots[i := PinSlot(s.slots[i])], tasks := s.tasks[h := Holding(page, i)])
      else s.(tasks := s.tasks[h := Missing(page)])
    case Take(h, slot) =>
      s.(slots := s.slots[slot := PinSlot(s.slots[slot]).(marked := true)],
         tasks := s.tasks[h := Filling(s.tasks[h].page, slot, false)])
    case NewPage(h, page, slot) =>
      s.(slots := s.slots[slot := PinSlot(s.slots[slot]).(marked := true)], tasks := s.tasks[h := Filling(page, slot, true)])
    case ReadIn(h) =>
      var i, page := s.tasks[h].slot, s.tasks[h].page;
      s.(slots := s.slots[i := s.slots[i].(marked := false, body := s.disk[page].body, bit := s.disk[page].bit)],
         tasks := s.tasks[h := Filled(page, i)])
    case Publish(h) =>
      var i, page := s.tasks[h].slot, s.tasks[h].page;
      s.(slots := s.slots[i := s.slots[i].(occupied := true, key := page)],
         table := s.table[page := i], tasks := s.tasks[h := Holding(page, i)])
    case PublishNew(h, blank) =>
      var i, page := s.tasks[h].slot, s.tasks[h].page;
      s.(slots := s.slots[i := s.slots[i].(marked := false, occupied := true, key := page, body := blank, dirty := true)],
         table := s.table[page := i], last := s.last[page := blank], tasks := s.tasks[h := Holding(page, i)])
    case GiveBack(h) =>
      s.(slots := s.slots[s.tasks[h].slot := Blank], tasks := s.tasks - {h})
    case Write(h, content) =>
      var i := s.tasks[h].slot;
      s.(slots := s.slots[i := s.slots[i].(body := content, dirty := true, bit := true)],
         last := s.last[s.slots[i].key := content])
    case Release(h) =>
      var i := s.tasks[h].slot;
      s.(slots := s.slots[i := UnpinSlot(s.slots[i])], tasks := s.tasks - {h})
    case Choose(i) =>
      s.(slots := s.slots[i := PinSlot(s.slots[i]).(marked := true)], victims := s.victims[i := Chosen])
    case Spare(i) =>
      s.(slots := s.slots[i := UnpinSlot(s.slots[i]).(marked := false)], victims := s.victims - {i})
    case Flush(i) =>
      var e := s.slots[i];
      s.(disk := if e.dirty then s.disk[e.key := Stored(e.body, e.bit)] else s.disk, victims := s.victims[i := Flushed])
    case Drop(i) =>
      s.(table := s.table - {s.slots[i].key}, victims := s.victims[i := Dropped])
    case Reset(i) =>
      s.(slots := s.slots[i := Blank], victims := s.victims - {i})
    case WriterPin(i) =>
      s.(slots := s.slots[i := PinSlot(s.slots[i])], writer := Pinned(i))
    case WriterSkip =>
      s.(slots := s.slots[s.writer.slot := UnpinSlot(s.slots[s.writer.slot])], writer := Off)
    case WriterCopy =>
      var i := s.writer.slot;
      var e := s.slots[i];
      s.(slots := s.slots[i := e.(dirty := false, bit := false)], writer := Copied(i, e.key, Stored(e.body, e.bit)))
    case WriterWrite =>
      s.(disk := s.disk[s.writer.page := s.writer.copy], writer := Written(s.writer.slot))
    case WriterUnpin =>
      s.(slots := s.slots[s.writer.slot := UnpinSlot(s.slots[s.writer.slot])], writer := Off)
  }

  // ---------------------------------------------------------------------------------------
  // Pins
  // ---------------------------------------------------------------------------------------

  /** The task holds a pin on slot `i`. */
  predicate Pins(t: Task, i: nat) { (t.Filling? || t.Filled? || t.Holding?) && t.slot == i }

  ghost function Holders(tasks: map<nat, Task>, i: nat): set<nat> { set h | h in tasks && Pins(tasks[h], i) }

  predicate WriterOn(w: Writer, i: nat) { w != Off && w.slot == i }

  /** Every pin belongs to exactly one holder: a task, the writer or the evictor. */
  ghost function PinSum(s: State, i: nat): nat {
    |Holders(s.tasks, i)| + (if WriterOn(s.writer, i) then 1 else 0) + (if i in s.victims then 1 else 0)
  }

  ghost predicate PinsOk(s: State, i: nat) {
    && i < |s.slots|
    && s.slots[i].pin == s.slots[i].unpin + PinSum(s, i)
    && (s.slots[i].acc <==> s.slots[i].unpin < s.slots[i].pin)
  }

  /** The task is bringing page `p` in. */
  predicate Brings(t: Task, p: Pid) { (t.Filling? || t.Filled?) && t.page == p }

  ghost predicate Initial(s: State) {
    && (forall i :: 0 <= i < |s.slots| ==> s.slots[i] == Blank)
    && s.table == map[] && s.victims == map[] && s.tasks == map[] && s.writer == Off
    && s.last == map p | p in s.disk :: s.disk[p].body
  }

  // ---------------------------------------------------------------------------------------
  // Counting pins
  // ---------------------------------------------------------------------------------------

  lemma HoldersSet(tasks: map<nat, Task>, h: nat, t: Task, i: nat)
    ensures var before := if h in tasks && Pins(tasks[h], i) then 1 else 0;
            |Holders(tasks[h := t], i)| == |Holders(tasks, i)| - before + (if Pins(t, i) then 1 else 0)
  {
    var a, b := Holders(tasks, i), Holders(tasks[h := t], i);
    assert a - {h} == b - {h};
    assert h in a ==> |a - {h}| == |a| - 1;
    assert h in b ==> |b - {h}| == |b| - 1;
    assert h !in a ==> a - {h} == a;
    assert h !in b ==> b - {h} == b;
  }

  lemma HoldersDrop(tasks: map<nat, Task>, h: nat, i: nat)
    requires h in tasks
    ensures |Holders(tasks - {h}, i)| == |Holders(tasks, i)| - (if Pins(tasks[h], i) then 1 else 0)
  {
    var a, b := Holders(tasks, i), Holders(tasks - {h}, i);
    assert b == a - {h};
    assert h in a ==> |a - {h}| == |a| - 1;
    assert h !in a ==> a - {h} == a;
  }

  /** The pin sum of slot `i` when only task `h` changed its mind about it. */
  lemma PinSumSet(s: State, s': State, i: nat, h: nat, t: Task)
    requires s'.tasks == s.tasks[h := t] && s'.writer == s.writer && s'.victims == s.victims
    ensures PinSum(s', i) == PinSum(s, i) - (if h in s.tasks && Pins(s.tasks[h], i) then 1 else 0) + (if Pins(t, i) then 1 else 0)
  {
    HoldersSet(s.tasks, h, t, i);
  }

  lemma PinSumDrop(s: State, s': State, i: nat, h: nat)
    requires h in s.tasks && s'.tasks == s.tasks - {h} && s'.writer == s.writer && s'.victims == s.victims
    ensures PinSum(s', i) == PinSum(s, i) - (if Pins(s.tasks[h], i) then 1 else 0)
  {
    HoldersDrop(s.tasks, h, i);
  }

  /** A slot with one pin has one holder. */
  lemma SoleHolder(s: State, i: nat, h: nat)
    requires h in s.tasks && Pins(s.tasks[h], i) && PinSum(s, i) == 1
    ensures forall g: nat :: g in s.tasks && g != h ==> !Pins(s.tasks[g], i)
    ensures i !in s.victims && !WriterOn(s.writer, i)
  {
    var hs := Holders(s.tasks, i);
    assert h in hs;
    assert |hs - {h}| == |hs| - 1;
    assert hs - {h} == {};
    forall g: nat | g in s.tasks && g != h
      ensures !Pins(s.tasks[g], i)
    {
      assert g !in hs - {h};
    }
  }

  lemma NoHolder(s: State, i: nat)
    requires |Holders(s.tasks, i)| == 0
    ensures forall g: nat :: g in s.tasks ==> !Pins(s.tasks[g], i)
  {
    forall g: nat | g in s.tasks
      ensures !Pins(s.tasks[g], i)
    {
      assert g !in Holders(s.tasks, i);
    }
  }
}
