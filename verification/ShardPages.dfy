/**
 Write-back coherence of a shard, page by page: what happens to a page depends on how frames are
 granted for this page, and not on how they are granted for others.
 */
module ShardPages {
  import opened Shard
  import opened ShardPins

  // ---------------------------------------------------------------------------------------
  // Slots and table, in every run
  // ---------------------------------------------------------------------------------------

  /** An occupied slot has a page, and is marked only by the evictor; an empty one is blank. */
  ghost predicate SlotTidy(s: State, i: nat) {
    && i < |s.slots|
    && (s.slots[i].occupied ==> s.slots[i].key != 0 && (s.slots[i].marked ==> i in s.victims))
    && (!s.slots[i].occupied ==> s.slots[i].key == 0 && !s.slots[i].dirty)
  }

  /** The table names a slot only by the page in it, and none that the evictor has dropped. */
  ghost predicate Named(s: State, p: Pid) {
    p in s.table ==>
      && s.table[p] < |s.slots| && s.slots[s.table[p]].occupied && s.slots[s.table[p]].key == p
      && (s.table[p] in s.victims ==> s.victims[s.table[p]] != Dropped)
  }

  ghost predicate Tidy(s: State) {
    && (forall i: nat :: i < |s.slots| ==> SlotTidy(s, i))
    && (forall p: Pid :: Named(s, p))
    && (forall h: nat :: h in s.tasks ==> s.tasks[h].page != 0)
    && (s.writer.Copied? && s.writer.slot < |s.slots| ==> s.writer.page == s.slots[s.writer.slot].key)
  }

  /** What holds in every state of every run. */
  ghost predicate Sound(s: State) { PinSafe(s) && Tidy(s) }

  /** The steps of a client on a slot that is not the occupied one of another page. */
  lemma TidyFill(s: State, step: Step, h: nat, i: nat)
    requires Tidy(s) && Enabled(s, step) && (step.ReadIn? || step.Publish? || step.PublishNew? || step.GiveBack?)
    requires h == step.h && i == s.tasks[h].slot && !s.slots[i].occupied && i !in s.victims && !WriterOn(s.writer, i)
    requires step.Publish? ==> !s.slots[i].marked
    ensures Tidy(Next(s, step))
  {
    var s' := Next(s, step);
    forall j: nat | j < |s'.slots| ensures SlotTidy(s', j) { assert SlotTidy(s, j); }
    forall p: Pid ensures Named(s', p) { assert Named(s, p); }
  }

  lemma TidyClient(s: State, step: Step)
    requires Tidy(s) && Enabled(s, step) && (step.Lookup? || step.PinTry?)
    ensures Tidy(Next(s, step))
  {
    var s' := Next(s, step);
    forall j: nat | j < |s'.slots| ensures SlotTidy(s', j) { assert SlotTidy(s, j); }
    forall p: Pid ensures Named(s', p) { assert Named(s, p); }
  }

  lemma TidyGrant(s: State, step: Step)
    requires Tidy(s) && Enabled(s, step) && (step.Take? || step.NewPage?)
    ensures Tidy(Next(s, step))
  {
    var s' := Next(s, step);
    forall j: nat | j < |s'.slots| ensures SlotTidy(s', j) { assert SlotTidy(s, j); }
    forall p: Pid ensures Named(s', p) { assert Named(s, p); }
  }

  lemma TidyHolder(s: State, step: Step)
    requires Tidy(s) && Enabled(s, step) && (step.Write? || step.Release?) && s.slots[s.tasks[step.h].slot].occupied
    ensures Tidy(Next(s, step))
  {
    var s' := Next(s, step);
    forall j: nat | j < |s'.slots| ensures SlotTidy(s', j) { assert SlotTidy(s, j); }
    forall p: Pid ensures Named(s', p) { assert Named(s, p); }
  }

  lemma TidyEvictor(s: State, step: Step, i: nat)
    requires Tidy(s) && Enabled(s, step)
    requires (step.Choose? || step.Spare? || step.Flush? || step.Drop? || step.Reset?) && i == step.slot
    requires i in s.victims ==> !WriterOn(s.writer, i)
    ensures Tidy(Next(s, step))
  {
    var s' := Next(s, step);
    forall j: nat | j < |s'.slots| ensures SlotTidy(s', j) { assert SlotTidy(s, j); }
    forall p: Pid ensures Named(s', p) { assert Named(s, p); }
  }

  lemma TidyWriter(s: State, step: Step)
    requires Tidy(s) && Enabled(s, step)
    requires step.WriterPin? || step.WriterSkip? || step.WriterCopy? || step.WriterWrite? || step.WriterUnpin?
    ensures Tidy(Next(s, step))
  {
    var s' := Next(s, step);
    forall j: nat | j < |s'.slots| ensures SlotTidy(s', j) { assert SlotTidy(s, j); }
    forall p: Pid ensures Named(s', p) { assert Named(s, p); }
  }

  lemma StepTidy(s: State, step: Step)
    requires Sound(s) && Enabled(s, step)
    ensures Tidy(Next(s, step))
  {
    if step.ReadIn? || step.Publish? || step.PublishNew? || step.GiveBack? {
      FillerAlone(s, step.h);
      TidyFill(s, step, step.h, s.tasks[step.h].slot);
    } else if step.Choose? || step.Spare? || step.Flush? || step.Drop? || step.Reset? {
      if step.slot in s.victims { VictimAlone(s, step.slot); }
      TidyEvictor(s, step, step.slot);
    } else if step.WriterPin? || step.WriterSkip? || step.WriterCopy? || step.WriterWrite? || step.WriterUnpin? {
      TidyWriter(s, step);
    } else if step.Write? || step.Release? {
      assert TaskPinned(s, step.h);
      TidyHolder(s, step);
    } else if step.Take? || step.NewPage? {
      TidyGrant(s, step);
    } else {
      TidyClient(s, step);
    }
  }

  /** Every step keeps pins safe and slots and table tidy, whatever is cached. */
  lemma StepSound(s: State, step: Step)
    requires Sound(s) && Enabled(s, step)
    ensures Sound(Next(s, step))
  {
    StepPinSafe(s, step);
    StepTidy(s, step);
  }

  /** Who fills a frame has it alone. */
  lemma FillerAlone(s: State, h: nat)
    requires PinSafe(s) && h in s.tasks && (s.tasks[h].Filling? || s.tasks[h].Filled?)
    ensures var i := s.tasks[h].slot;
            && i < |s.slots| && !s.slots[i].occupied && i !in s.victims && !WriterOn(s.writer, i)
            && (s.tasks[h].Filled? ==> !s.slots[i].marked)
            && forall g: nat :: g in s.tasks && g != h ==> !Pins(s.tasks[g], i)
  {
    assert TaskPinned(s, h);
    SoleHolder(s, s.tasks[h].slot, h);
  }

  /** A marked victim is pinned by no client and not by the writer. */
  lemma VictimAlone(s: State, i: nat)
    requires PinSafe(s) && i in s.victims
    ensures i < |s.slots| && s.slots[i].marked && !WriterOn(s.writer, i) && forall g: nat :: g in s.tasks ==> !Pins(s.tasks[g], i)
  {
    assert VictimPinned(s, i);
    NoHolder(s, i);
  }

  lemma InitialSound(s: State)
    requires Initial(s)
    ensures Sound(s)
  {
    InitialPinSafe(s);
  }

  /** Pins, slots and table, in every state of every run. */
  lemma {:induction false} RunSound(b: seq<State>, steps: seq<Step>, k: nat)
    requires Behaviour(b, steps) && Sound(b[0]) && k < |b|
    ensures Sound(b[k])
  {
    if k > 0 {
      RunSound(b, steps, k - 1);
      assert MovesAt(b, steps, k - 1);
      StepSound(b[k - 1], steps[k - 1]);
    }
  }

  // ---------------------------------------------------------------------------------------
  // One page
  // ---------------------------------------------------------------------------------------

  /** Page `p` is in slot `j`. */
  ghost predicate Holds(s: State, j: nat, p: Pid) { j < |s.slots| && s.slots[j].occupied && s.slots[j].key == p }

  /** Slot `i` carries the last content of page `p`, and so does the disk unless someone still owes the write. */
  ghost predicate FrameOk(s: State, p: Pid, i: nat) {
    && i < |s.slots|
    && p in s.last && s.slots[i].body == s.last[p]
    && (p in s.table ==> s.table[p] == i)
    && (p !in s.table ==> i in s.victims && s.victims[i] == Dropped)
    && (i in s.victims && s.victims[i] != Chosen ==> p in s.disk && s.disk[p].body == s.last[p])
    && (!s.slots[i].dirty ==>
          if s.writer.Copied? && s.writer.slot == i then s.writer.copy.body == s.last[p]
          else p in s.disk && s.disk[p].body == s.last[p])
  }

  /** No slot has the page in it. */
  ghost predicate Nowhere(s: State, p: Pid) { forall j: nat :: !Holds(s, j, p) }

  /** Task `h` is bringing in page `p`, which nobody has. */
  ghost predicate BringOk(s: State, p: Pid, h: nat) {
    && h in s.tasks && p !in s.table && Nowhere(s, p)
    && (s.tasks[h].Filling? && s.tasks[h].isNew ==> p !in s.last)
    && (s.tasks[h].Filled? ==> s.tasks[h].slot < |s.slots| && p in s.last && s.slots[s.tasks[h].slot].body == s.last[p])
  }

  ghost predicate OneBringer(s: State, p: Pid) {
    forall h: nat, k: nat :: h in s.tasks && k in s.tasks && Brings(s.tasks[h], p) && Brings(s.tasks[k], p) ==> h == k
  }

  /** The page is on disk as it was last written if nobody caches it. */
  ghost predicate DiskOk(s: State, p: Pid) {
    && (p in s.last && p !in s.table ==> p in s.disk && s.disk[p].body == s.last[p])
    && (p in s.disk ==> p in s.last)
  }

  /** Coherence of page `p`. */
  ghost predicate PageOk(s: State, p: Pid) {
    && (forall i: nat :: Holds(s, i, p) ==> FrameOk(s, p, i))
    && (forall h: nat :: h in s.tasks && Brings(s.tasks[h], p) ==> BringOk(s, p, h))
    && OneBringer(s, p) && DiskOk(s, p)
  }

  /** A frame is granted for page `p` only if the page is not in the table and nobody is bringing it in; for a new page, its id is unused. */
  ghost predicate CleanFor(s: State, step: Step, p: Pid) {
    match step
    case Take(h, _) =>
      h in s.tasks && (s.tasks[h].page == p ==> p !in s.table && forall k :: k in s.tasks ==> !Brings(s.tasks[k], p))
    case NewPage(_, page, _) =>
      page == p ==> p !in s.last && p !in s.table && forall k :: k in s.tasks ==> !Brings(s.tasks[k], p)
    case _ => true
  }

  lemma InitialPage(s: State, p: Pid)
    requires Initial(s)
    ensures PageOk(s, p)
  {
  }

  // ---------------------------------------------------------------------------------------
  // Steps that leave the page alone
  // ---------------------------------------------------------------------------------------

  /** Slot `j`, which has page `p` afterwards, had it before, with the same content, and evictor and writer stand as before. */
  ghost predicate FrameKept(s: State, s': State, j: nat, p: Pid) {
    && Holds(s, j, p) && Holds(s', j, p)
    && s'.slots[j].body == s.slots[j].body && s'.slots[j].dirty == s.slots[j].dirty
    && (j in s.victims && s.victims[j] == Dropped ==> j in s'.victims && s'.victims[j] == Dropped)
    && (j in s'.victims && s'.victims[j] != Chosen ==> j in s.victims && s.victims[j] != Chosen)
    && (s'.writer.Copied? && s'.writer.slot == j <==> s.writer.Copied? && s.writer.slot == j)
    && (s'.writer.Copied? && s'.writer.slot == j ==> s'.writer.copy == s.writer.copy)
  }

  /** Task `h`, which brings in page `p` afterwards, did so before, and its frame has the same content. */
  ghost predicate TaskKept(s: State, s': State, h: nat) {
    && h in s.tasks && h in s'.tasks && s'.tasks[h] == s.tasks[h]
    && (s.tasks[h].Filled? && s.tasks[h].slot < |s.slots| ==>
          s.tasks[h].slot < |s'.slots| && s'.slots[s.tasks[h].slot].body == s.slots[s.tasks[h].slot].body)
  }

  ghost predicate MapsKept(s: State, s': State, p: Pid) {
    && (p in s'.table <==> p in s.table) && (p in s.table ==> s'.table[p] == s.table[p])
    && (p in s'.disk <==> p in s.disk) && (p in s.disk ==> s'.disk[p] == s.disk[p])
    && (p in s'.last <==> p in s.last) && (p in s.last ==> s'.last[p] == s.last[p])
  }

  ghost predicate Alike(s: State, s': State, p: Pid) {
    && MapsKept(s, s', p)
    && (forall j: nat :: Holds(s', j, p) ==> FrameKept(s, s', j, p))
    && (forall h: nat :: h in s'.tasks && Brings(s'.tasks[h], p) ==> TaskKept(s, s', h))
  }

  lemma AlikePage(s: State, s': State, p: Pid)
    requires PageOk(s, p) && Alike(s, s', p)
    ensures PageOk(s', p)
  {
    forall j: nat | Holds(s', j, p) ensures FrameOk(s', p, j) { assert FrameKept(s, s', j, p) && FrameOk(s, p, j); }
    forall h: nat | h in s'.tasks && Brings(s'.tasks[h], p) ensures BringOk(s', p, h) {
      assert TaskKept(s, s', h) && BringOk(s, p, h);
    }
    assert forall h: nat :: h in s'.tasks && Brings(s'.tasks[h], p) ==> TaskKept(s, s', h);
  }

  /** The steps that change only pins and marks, and tasks that bring nothing in. */
  lemma ClientAlike(s: State, step: Step, p: Pid)
    requires Enabled(s, step) && (step.Lookup? || step.Release?)
    ensures Alike(s, Next(s, step), p)
  {
    var s' := Next(s, step);
    forall j: nat | Holds(s', j, p) ensures FrameKept(s, s', j, p) {}
    forall h: nat | h in s'.tasks && Brings(s'.tasks[h], p) ensures TaskKept(s, s', h) {}
  }

  lemma PinAlike(s: State, step: Step, p: Pid)
    requires Enabled(s, step) && step.PinTry?
    ensures Alike(s, Next(s, step), p)
  {
    var s' := Next(s, step);
    forall j: nat | Holds(s', j, p) ensures FrameKept(s, s', j, p) {}
    forall h: nat | h in s'.tasks && Brings(s'.tasks[h], p) ensures TaskKept(s, s', h) {}
  }

  lemma MarkAlike(s: State, step: Step, p: Pid)
    requires Enabled(s, step) && ((step.Choose? && step.slot !in s.victims) || step.Spare?)
    ensures Alike(s, Next(s, step), p)
  {
    var s' := Next(s, step);
    forall j: nat | Holds(s', j, p) ensures FrameKept(s, s', j, p) {}
    forall h: nat | h in s'.tasks && Brings(s'.tasks[h], p) ensures TaskKept(s, s', h) {}
  }

  lemma WriterPinAlike(s: State, step: Step, p: Pid)
    requires Enabled(s, step) && (step.WriterPin? || step.WriterSkip? || step.WriterUnpin?)
    ensures Alike(s, Next(s, step), p)
  {
    var s' := Next(s, step);
    forall j: nat | Holds(s', j, p) ensures FrameKept(s, s', j, p) {}
    forall h: nat | h in s'.tasks && Brings(s'.tasks[h], p) ensures TaskKept(s, s', h) {}
  }

  lemma GrantAlike(s: State, step: Step, p: Pid)
    requires Enabled(s, step) && (step.Take? || step.NewPage?) && Next(s, step).tasks[step.h].page != p
    ensures Alike(s, Next(s, step), p)
  {
  }

  lemma FillAlike(s: State, step: Step, p: Pid, h: nat, i: nat)
    requires Enabled(s, step) && (step.ReadIn? || step.Publish? || step.PublishNew? || step.GiveBack?)
    requires h == step.h && i == s.tasks[h].slot && !s.slots[i].occupied && (s.tasks[h].page != p || step.GiveBack?)
    requires forall g: nat :: g in s.tasks && g != h ==> !Pins(s.tasks[g], i)
    ensures Alike(s, Next(s, step), p)
  {
    var s' := Next(s, step);
    forall g: nat | g in s'.tasks && Brings(s'.tasks[g], p) ensures TaskKept(s, s', g) {
      assert g != h && !Pins(s.tasks[g], i);
    }
  }

  lemma WriteAlike(s: State, step: Step, p: Pid, i: nat)
    requires Enabled(s, step) && step.Write? && i == s.tasks[step.h].slot && s.slots[i].key != p
    requires forall g: nat :: g in s.tasks && s.tasks[g].Filled? ==> s.tasks[g].slot != i
    ensures Alike(s, Next(s, step), p)
  {
    var s' := Next(s, step);
    forall g: nat | g in s'.tasks && Brings(s'.tasks[g], p) ensures TaskKept(s, s', g) {
      assert s.tasks[g].Filled? ==> s.tasks[g].slot != i;
    }
  }

  lemma EvictAlike(s: State, step: Step, p: Pid, i: nat)
    requires Enabled(s, step) && (step.Flush? || step.Drop? || step.Reset?) && i == step.slot
    requires forall g: nat :: g in s.tasks ==> !Pins(s.tasks[g], i)
    requires step.Reset? || s.slots[i].key != p || (!s.slots[i].occupied && !s.slots[i].dirty && p !in s.table)
    ensures Alike(s, Next(s, step), p)
  {
    var s' := Next(s, step);
    forall g: nat | g in s'.tasks && Brings(s'.tasks[g], p) ensures TaskKept(s, s', g) {
      assert !Pins(s.tasks[g], i);
    }
  }

  lemma WriterAlike(s: State, step: Step, p: Pid, i: nat)
    requires Enabled(s, step) && (step.WriterCopy? || step.WriterWrite?) && i == s.writer.slot < |s.slots| && s.slots[i].key != p
    requires s.writer.Copied? ==> s.writer.page == s.slots[i].key
    ensures Alike(s, Next(s, step), p)
  {
  }

  // ---------------------------------------------------------------------------------------
  // Steps that concern the page
  // ---------------------------------------------------------------------------------------

  /** A frame is granted for page `p`. */
  lemma GrantPage(s: State, step: Step, p: Pid)
    requires PageOk(s, p) && Enabled(s, step) && CleanFor(s, step, p)
    requires (step.Take? && s.tasks[step.h].page == p) || (step.NewPage? && step.page == p)
    ensures PageOk(Next(s, step), p)
  {
    var s', h := Next(s, step), step.h;
    forall j: nat ensures !Holds(s, j, p) && !Holds(s', j, p) { assert Holds(s, j, p) ==> FrameOk(s, p, j); }
  }

  lemma ReadInPage(s: State, h: nat, p: Pid)
    requires PageOk(s, p) && Enabled(s, ReadIn(h)) && s.tasks[h].page == p && !s.slots[s.tasks[h].slot].occupied
    ensures PageOk(Next(s, ReadIn(h)), p)
  {
    var s' := Next(s, ReadIn(h));
    assert BringOk(s, p, h);
    forall j: nat ensures !Holds(s', j, p) { assert !Holds(s, j, p); }
    forall g: nat | g in s'.tasks && Brings(s'.tasks[g], p) ensures g == h { assert Brings(s.tasks[g], p); }
  }

  /** Page `p`, just read in or just made, is published. */
  lemma PublishPage(s: State, step: Step, h: nat, i: nat, p: Pid)
    requires PageOk(s, p) && Enabled(s, step) && (step.Publish? || step.PublishNew?) && h == step.h
    requires s.tasks[h].page == p && s.tasks[h].slot == i && i !in s.victims && !WriterOn(s.writer, i)
    ensures PageOk(Next(s, step), p)
  {
    var s' := Next(s, step);
    assert BringOk(s, p, h);
    forall j: nat | Holds(s', j, p) ensures FrameOk(s', p, j) { assert !Holds(s, j, p); }
    forall g: nat | g in s'.tasks ensures !Brings(s'.tasks[g], p) { assert g != h ==> !Brings(s.tasks[g], p); }
  }

  /** A page in the table is in one slot and nobody brings it in. */
  lemma OnlyHere(s: State, i: nat, p: Pid)
    requires PageOk(s, p) && Holds(s, i, p) && p in s.table
    ensures s.table[p] == i && (forall j: nat :: Holds(s, j, p) ==> j == i) && forall g: nat :: g in s.tasks ==> !Brings(s.tasks[g], p)
  {
    assert FrameOk(s, p, i);
    forall j: nat | Holds(s, j, p) ensures j == i { assert FrameOk(s, p, j); }
    forall g: nat | g in s.tasks ensures !Brings(s.tasks[g], p) { assert Brings(s.tasks[g], p) ==> BringOk(s, p, g); }
  }

  /** The step changed slot `i`, the only one of the page, which stays in the table. */
  lemma OwnSlot(s: State, s': State, i: nat, p: Pid)
    requires |s'.slots| == |s.slots| && (forall j: nat :: Holds(s', j, p) ==> j == i) && FrameOk(s', p, i)
    requires forall g: nat :: g in s'.tasks ==> !Brings(s'.tasks[g], p)
    requires DiskOk(s', p)
    ensures PageOk(s', p)
  {
  }

  lemma WritePage(s: State, h: nat, content: Body, i: nat, p: Pid)
    requires PageOk(s, p) && Enabled(s, Write(h, content)) && i == s.tasks[h].slot && Holds(s, i, p) && i !in s.victims
    ensures PageOk(Next(s, Write(h, content)), p)
  {
    var s' := Next(s, Write(h, content));
    assert FrameOk(s, p, i);
    OnlyHere(s, i, p);
    forall j: nat | Holds(s', j, p) ensures j == i { assert Holds(s, j, p); }
    OwnSlot(s, s', i, p);
  }

  lemma FlushPage(s: State, i: nat, p: Pid)
    requires PageOk(s, p) && Enabled(s, Flush(i)) && Holds(s, i, p) && !WriterOn(s.writer, i)
    ensures PageOk(Next(s, Flush(i)), p)
  {
    var s' := Next(s, Flush(i));
    assert FrameOk(s, p, i);
    OnlyHere(s, i, p);
    forall j: nat | Holds(s', j, p) ensures j == i { assert Holds(s, j, p); }
    OwnSlot(s, s', i, p);
  }

  lemma DropPage(s: State, i: nat, p: Pid)
    requires PageOk(s, p) && Enabled(s, Drop(i)) && Holds(s, i, p)
    ensures PageOk(Next(s, Drop(i)), p)
  {
    var s' := Next(s, Drop(i));
    assert FrameOk(s, p, i);
    OnlyHere(s, i, p);
    forall j: nat | Holds(s', j, p) ensures j == i { assert Holds(s, j, p); }
    OwnSlot(s, s', i, p);
  }

  /** The background writer copies the page, or writes its copy. */
  lemma WriterPage(s: State, step: Step, i: nat, p: Pid)
    requires PageOk(s, p) && Enabled(s, step) && (step.WriterCopy? || step.WriterWrite?) && i == s.writer.slot && Holds(s, i, p)
    requires i !in s.victims && (s.writer.Copied? ==> s.writer.page == p)
    ensures PageOk(Next(s, step), p)
  {
    var s' := Next(s, step);
    assert FrameOk(s, p, i);
    OnlyHere(s, i, p);
    forall j: nat | Holds(s', j, p) ensures j == i { assert Holds(s, j, p); }
    OwnSlot(s, s', i, p);
  }

  // ---------------------------------------------------------------------------------------
  // Every step
  // ---------------------------------------------------------------------------------------

  lemma ClientPage(s: State, step: Step, p: Pid)
    requires Sound(s) && PageOk(s, p) && Enabled(s, step) && CleanFor(s, step, p)
    requires step.Lookup? || step.PinTry? || step.Take? || step.NewPage? || step.Write? || step.Release?
    ensures PageOk(Next(s, step), p)
  {
    if step.Write? {
      var h, i := step.h, s.tasks[step.h].slot;
      assert TaskPinned(s, h);
      HeldIsNoVictim(s, h);
      if s.slots[i].key == p {
        WritePage(s, h, step.content, i, p);
      } else {
        forall g: nat | g in s.tasks && s.tasks[g].Filled? ensures s.tasks[g].slot != i { assert TaskPinned(s, g); }
        WriteAlike(s, step, p, i);
        AlikePage(s, Next(s, step), p);
      }
    } else if (step.Take? && s.tasks[step.h].page == p) || (step.NewPage? && step.page == p) {
      GrantPage(s, step, p);
    } else {
      if step.Take? || step.NewPage? {
        GrantAlike(s, step, p);
      } else if step.PinTry? {
        PinAlike(s, step, p);
      } else {
        ClientAlike(s, step, p);
      }
      AlikePage(s, Next(s, step), p);
    }
  }

  lemma FillPage(s: State, step: Step, p: Pid)
    requires Sound(s) && PageOk(s, p) && Enabled(s, step) && (step.ReadIn? || step.Publish? || step.PublishNew? || step.GiveBack?)
    ensures PageOk(Next(s, step), p)
  {
    var h, i := step.h, s.tasks[step.h].slot;
    FillerAlone(s, h);
    if s.tasks[h].page != p || step.GiveBack? {
      FillAlike(s, step, p, h, i);
      AlikePage(s, Next(s, step), p);
    } else if step.ReadIn? {
      ReadInPage(s, h, p);
    } else {
      assert SlotTidy(s, i);
      PublishPage(s, step, h, i, p);
    }
  }

  lemma EvictorPage(s: State, step: Step, p: Pid)
    requires Sound(s) && PageOk(s, p) && Enabled(s, step)
    requires step.Choose? || step.Spare? || step.Flush? || step.Drop? || step.Reset?
    ensures PageOk(Next(s, step), p)
  {
    var i := step.slot;
    assert i in s.victims ==> VictimPinned(s, i);
    if step.Choose? || step.Spare? {
      MarkAlike(s, step, p);
      AlikePage(s, Next(s, step), p);
    } else {
      VictimAlone(s, i);
      assert SlotTidy(s, i) && Named(s, p) && (p in s.table ==> SlotTidy(s, s.table[p]));
      if Holds(s, i, p) && step.Flush? {
        FlushPage(s, i, p);
      } else if Holds(s, i, p) && step.Drop? {
        DropPage(s, i, p);
      } else {
        EvictAlike(s, step, p, i);
        AlikePage(s, Next(s, step), p);
      }
    }
  }

  lemma BackgroundPage(s: State, step: Step, p: Pid)
    requires Sound(s) && PageOk(s, p) && Enabled(s, step)
    requires step.WriterPin? || step.WriterSkip? || step.WriterCopy? || step.WriterWrite? || step.WriterUnpin?
    ensures PageOk(Next(s, step), p)
  {
    if step.WriterCopy? || step.WriterWrite? {
      var i := s.writer.slot;
      assert i in s.victims ==> VictimPinned(s, i);
      if s.slots[i].key == p {
        WriterPage(s, step, i, p);
      } else {
        WriterAlike(s, step, p, i);
        AlikePage(s, Next(s, step), p);
      }
    } else {
      WriterPinAlike(s, step, p);
      AlikePage(s, Next(s, step), p);
    }
  }

  lemma CleanStep(s: State, step: Step, p: Pid)
    requires Sound(s) && PageOk(s, p) && Enabled(s, step) && CleanFor(s, step, p)
    ensures PageOk(Next(s, step), p)
  {
    if step.ReadIn? || step.Publish? || step.PublishNew? || step.GiveBack? {
      FillPage(s, step, p);
    } else if step.Choose? || step.Spare? || step.Flush? || step.Drop? || step.Reset? {
      EvictorPage(s, step, p);
    } else if step.WriterPin? || step.WriterSkip? || step.WriterCopy? || step.WriterWrite? || step.WriterUnpin? {
      BackgroundPage(s, step, p);
    } else {
      ClientPage(s, step, p);
    }
  }

  /** A frame granted for the page leaves it coherent only if the page was neither cached nor being brought in. */
  lemma CleanBefore(s: State, step: Step, p: Pid)
    requires Enabled(s, step) && PageOk(Next(s, step), p)
    ensures CleanFor(s, step, p)
  {
    if (step.Take? && s.tasks[step.h].page == p) || (step.NewPage? && step.page == p) {
      var s', h := Next(s, step), step.h;
      assert BringOk(s', p, h);
      forall k: nat | k in s.tasks ensures !Brings(s.tasks[k], p) {
        assert k != h ==> k in s'.tasks && s'.tasks[k] == s.tasks[k];
      }
    }
  }

  /** Every step keeps a page coherent, exactly when it does not grant a frame for it while it is cached or being brought in. */
  lemma StepPage(s: State, step: Step, p: Pid)
    requires Sound(s) && PageOk(s, p) && Enabled(s, step)
    ensures PageOk(Next(s, step), p) <==> CleanFor(s, step, p)
  {
    if CleanFor(s, step, p) { CleanStep(s, step, p); }
    if PageOk(Next(s, step), p) { CleanBefore(s, step, p); }
  }

  // ---------------------------------------------------------------------------------------
  // Every run
  // ---------------------------------------------------------------------------------------

  /** In the first `n` steps every frame granted for page `p` is granted while the page is neither cached nor being brought in. */
  ghost predicate CleanUntil(b: seq<State>, steps: seq<Step>, p: Pid, n: nat) {
    n <= |steps| < |b| && forall k :: 0 <= k < n ==> CleanFor(b[k], steps[k], p)
  }

  /** A page stays coherent as long as frames are granted for it in this way, whatever happens to other pages. */
  lemma {:induction false} RunPage(b: seq<State>, steps: seq<Step>, p: Pid, k: nat)
    requires Behaviour(b, steps) && CleanUntil(b, steps, p, k) && Sound(b[0]) && PageOk(b[0], p)
    ensures PageOk(b[k], p)
  {
    if k > 0 {
      RunPage(b, steps, p, k - 1);
      RunSound(b, steps, k - 1);
      assert MovesAt(b, steps, k - 1);
      CleanStep(b[k - 1], steps[k - 1], p);
    }
  }

  lemma FirstState(b: seq<State>, p: Pid)
    requires b != [] && Initial(b[0])
    ensures Sound(b[0]) && PageOk(b[0], p)
  {
    InitialSound(b[0]);
    InitialPage(b[0], p);
  }

  /** A page is coherent throughout a run from the start exactly when frames are granted for it in this way. */
  lemma ReachablePage(b: seq<State>, steps: seq<Step>, p: Pid)
    requires Behaviour(b, steps) && Initial(b[0])
    ensures (forall k :: 0 <= k < |b| ==> PageOk(b[k], p)) <==> CleanUntil(b, steps, p, |steps|)
  {
    FirstState(b, p);
    if CleanUntil(b, steps, p, |steps|) {
      forall k | 0 <= k < |b| ensures PageOk(b[k], p) {
        assert CleanUntil(b, steps, p, k);
        RunPage(b, steps, p, k);
      }
    }
    if forall k :: 0 <= k < |b| ==> PageOk(b[k], p) {
      forall k | 0 <= k < |steps| ensures CleanFor(b[k], steps[k], p) {
        assert MovesAt(b, steps, k) && PageOk(b[k + 1], p);
        CleanBefore(b[k], steps[k], p);
      }
    }
  }

  // ---------------------------------------------------------------------------------------
  // What a client gets
  // ---------------------------------------------------------------------------------------

  /** Whoever holds a frame sees the last content of the page in it, if that page is coherent; others may not be. */
  lemma HeldIsLast(s: State, h: nat)
    requires Sound(s) && h in s.tasks && s.tasks[h].Holding? && s.tasks[h].slot < |s.slots|
    ensures var i := s.tasks[h].slot;
            var p := s.slots[i].key;
            Holds(s, i, p) && (PageOk(s, p) ==> p in s.last && s.slots[i].body == s.last[p] && p in s.table && s.table[p] == i)
  {
    assert TaskPinned(s, h);
    HeldIsNoVictim(s, h);
    var i := s.tasks[h].slot;
    if PageOk(s, s.slots[i].key) { assert FrameOk(s, s.slots[i].key, i); }
  }

  /** The same over runs. */
  lemma HeldReadsLast(b: seq<State>, steps: seq<Step>, k: nat, h: nat)
    requires Behaviour(b, steps) && Initial(b[0]) && k < |b| && h in b[k].tasks && b[k].tasks[h].Holding?
    ensures var s, i := b[k], b[k].tasks[h].slot;
            && i < |s.slots| && Holds(s, i, s.slots[i].key)
            && (CleanUntil(b, steps, s.slots[i].key, k) ==>
                  var p := s.slots[i].key; p in s.last && s.slots[i].body == s.last[p] && p in s.table && s.table[p] == i)
  {
    FirstState(b, 0);
    RunSound(b, steps, k);
    assert TaskPinned(b[k], h);
    HeldIsLast(b[k], h);
    var p := b[k].slots[b[k].tasks[h].slot].key;
    FirstState(b, p);
    if CleanUntil(b, steps, p, k) { RunPage(b, steps, p, k); }
  }

  /**
   A hit on a slot that the table still names returns the page asked for.  If that page is coherent, it does so only then,
   and with the last content.
   */
  lemma HitYieldsLast(s: State, h: nat)
    requires Sound(s) && Enabled(s, PinTry(h)) && Next(s, PinTry(h)).tasks[h].Holding?
    ensures var s' := Next(s, PinTry(h));
            var i, p := s.tasks[h].slot, s.tasks[h].page;
            var named := p in s.table && s.table[p] == i;
            && (named ==> s'.slots[i].key == p)
            && (PageOk(s, p) ==> (s'.slots[i].key == p <==> named))
            && (PageOk(s, p) && named ==> p in s'.last && s'.slots[i].body == s'.last[p])
  {
    var i, p := s.tasks[h].slot, s.tasks[h].page;
    assert Named(s, p) && SlotTidy(s, i);
    assert i in s.victims ==> VictimPinned(s, i);
    if PageOk(s, p) && s.slots[i].key == p {
      assert Holds(s, i, p);
      assert FrameOk(s, p, i);
    }
  }

  /** The same over runs: the first part in every run, the second in runs that are clean for this page. */
  lemma HitReturns(b: seq<State>, steps: seq<Step>, k: nat, h: nat)
    requires Behaviour(b, steps) && Initial(b[0]) && k < |steps| && steps[k] == PinTry(h) && h in b[k + 1].tasks && b[k + 1].tasks[h].Holding?
    ensures h in b[k].tasks && b[k].tasks[h].Loaded?
    ensures var s, t := b[k], b[k + 1];
            var i, p := s.tasks[h].slot, s.tasks[h].page;
            var named := p in s.table && s.table[p] == i;
            && t.tasks[h] == Holding(p, i) && i < |t.slots|
            && (named ==> t.slots[i].key == p)
            && (CleanUntil(b, steps, p, k) ==> (t.slots[i].key == p <==> named))
            && (CleanUntil(b, steps, p, k) && named ==> p in t.last && t.slots[i].body == t.last[p])
  {
    assert MovesAt(b, steps, k);
    var p := b[k].tasks[h].page;
    FirstState(b, p);
    RunSound(b, steps, k);
    if CleanUntil(b, steps, p, k) { RunPage(b, steps, p, k); }
    HitYieldsLast(b[k], h);
  }

  /** A pin is taken exactly on an occupied slot that the evictor does not have; a slot the table names is occupied. */
  lemma PinOutcome(s: State, h: nat)
    requires Sound(s) && Enabled(s, PinTry(h))
    ensures var i, p := s.tasks[h].slot, s.tasks[h].page;
            && Next(s, PinTry(h)).tasks[h] == (if s.slots[i].occupied && i !in s.victims then Holding(p, i) else Missing(p))
            && (p in s.table && s.table[p] == i ==> s.slots[i].occupied)
  {
    var i, p := s.tasks[h].slot, s.tasks[h].page;
    assert Named(s, p) && SlotTidy(s, i);
    assert i in s.victims ==> VictimPinned(s, i);
  }

  /** In every run, a pin of a slot that the table still names is a hit exactly when the evictor does not have the slot. */
  lemma CachedIsHit(b: seq<State>, steps: seq<Step>, k: nat, h: nat)
    requires Behaviour(b, steps) && Initial(b[0]) && k < |steps| && steps[k] == PinTry(h)
    ensures h in b[k].tasks && b[k].tasks[h].Loaded? && h in b[k + 1].tasks
    ensures var s, i, p := b[k], b[k].tasks[h].slot, b[k].tasks[h].page;
            p in s.table && s.table[p] == i ==> b[k + 1].tasks[h] == if i in s.victims then Missing(p) else Holding(p, i)
  {
    assert MovesAt(b, steps, k);
    FirstState(b, 0);
    RunSound(b, steps, k);
    PinOutcome(b[k], h);
  }

  /**
   In every run, a client that looks up a cached page which the evictor does not have, and pins it at once, is handed that
   page; with its last content if the run is clean for the page.
   */
  lemma CachedIsReturned(b: seq<State>, steps: seq<Step>, k: nat, h: nat, p: Pid)
    requires Behaviour(b, steps) && Initial(b[0]) && k + 1 < |steps| && steps[k] == Lookup(h, p) && steps[k + 1] == PinTry(h)
    requires p in b[k].table && b[k].table[p] !in b[k].victims
    ensures var t, i := b[k + 2], b[k].table[p];
            && h in t.tasks && t.tasks[h] == Holding(p, i) && i < |t.slots| && t.slots[i].key == p
            && (CleanUntil(b, steps, p, k) ==> p in t.last && t.slots[i].body == t.last[p])
  {
    assert MovesAt(b, steps, k) && MovesAt(b, steps, k + 1);
    CachedIsHit(b, steps, k + 1, h);
    HitReturns(b, steps, k + 1, h);
    assert CleanUntil(b, steps, p, k) ==> CleanUntil(b, steps, p, k + 1);
  }

  /** A miss returns the requested page with its last content, if the page is coherent. */
  lemma MissYieldsLast(s: State, h: nat)
    requires Enabled(s, Publish(h)) && PageOk(s, s.tasks[h].page)
    ensures var s' := Next(s, Publish(h));
            var i := s'.tasks[h].slot;
            s'.slots[i].key == s.tasks[h].page && s.tasks[h].page in s'.last && s'.slots[i].body == s'.last[s.tasks[h].page]
  {
    assert BringOk(s, s.tasks[h].page, h);
  }

  /** A page is on disk as last written if it is not cached, or if its frame is clean and the writer owes no copy. */
  lemma DiskIsLast(s: State, p: Pid)
    requires Sound(s) && PageOk(s, p) && p in s.last
    requires p in s.table ==> s.table[p] < |s.slots| && !s.slots[s.table[p]].dirty && !(s.writer.Copied? && s.writer.slot == s.table[p])
    ensures p in s.disk && s.disk[p].body == s.last[p]
  {
    assert Named(s, p);
    if p in s.table { assert Holds(s, s.table[p], p) && FrameOk(s, p, s.table[p]); }
  }
}
