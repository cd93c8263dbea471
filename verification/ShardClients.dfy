/**
 What clients of a shard see from end to end: which page an operation is about, which write a reader
 sees, and where each operation leads when nobody interrupts it.
 */
module ShardClients {
  import opened Shard
  import opened ShardPins
  import opened ShardPages
  import opened ShardRuns

  // ---------------------------------------------------------------------------------------
  // The page asked for
  // ---------------------------------------------------------------------------------------

  /** Operation `h` is not ended by a step between `j` and `k`. */
  ghost predicate GoesOn(steps: seq<Step>, h: nat, j: int, k: int) {
    forall m :: j < m < k && 0 <= m < |steps| ==> steps[m] != Release(h) && steps[m] != GiveBack(h)
  }

  /** Every other step leaves the operation with the page it is about. */
  lemma PageKept(s: State, step: Step, h: nat)
    requires Enabled(s, step) && h in s.tasks && step != Release(h) && step != GiveBack(h)
    ensures h in Next(s, step).tasks && Next(s, step).tasks[h].page == s.tasks[h].page
  {
  }

  /** An operation stays about the page it was started for, until it is released or fails. */
  lemma {:induction false} AskedFor(b: seq<State>, steps: seq<Step>, j: nat, k: nat, h: nat, p: Pid)
    requires Behaviour(b, steps) && j < k <= |steps| && GoesOn(steps, h, j, k)
    requires steps[j].Lookup? || steps[j].NewPage?
    requires steps[j].h == h && steps[j].page == p
    ensures h in b[k].tasks && b[k].tasks[h].page == p
    decreases k
  {
    assert MovesAt(b, steps, k - 1);
    if k > j + 1 {
      AskedFor(b, steps, j, k - 1, h, p);
      PageKept(b[k - 1], steps[k - 1], h);
    }
  }

  // ---------------------------------------------------------------------------------------
  // The last content of a page is what was written to it last
  // ---------------------------------------------------------------------------------------

  /** The step writes to page `p`: to a frame that holds it, or by making it. */
  ghost predicate WritesTo(s: State, step: Step, p: Pid) {
    && (step.Write? || step.PublishNew?) && step.h in s.tasks
    && (step.Write? ==> s.tasks[step.h].Holding? && Holds(s, s.tasks[step.h].slot, p))
    && (step.PublishNew? ==> s.tasks[step.h].page == p)
  }

  ghost function Content(step: Step): Body
    requires step.Write? || step.PublishNew?
  {
    if step.Write? then step.content else step.blank
  }

  lemma LastStep(s: State, step: Step, p: Pid)
    requires Sound(s) && Enabled(s, step)
    ensures var s' := Next(s, step);
            if WritesTo(s, step, p) then p in s'.last && s'.last[p] == Content(step)
            else (p in s'.last <==> p in s.last) && (p in s.last ==> s'.last[p] == s.last[p])
  {
    if step.Write? {
      assert TaskPinned(s, step.h);
    } else if !step.PublishNew? {
      assert Next(s, step).last == s.last;
    }
  }

  /** No step from `j` up to `k` writes to page `p`. */
  ghost predicate Unwritten(b: seq<State>, steps: seq<Step>, p: Pid, j: nat, k: nat) {
    k <= |steps| < |b| && forall m :: j <= m < k ==> !WritesTo(b[m], steps[m], p)
  }

  lemma {:induction false} LastKept(b: seq<State>, steps: seq<Step>, p: Pid, j: nat, k: nat)
    requires Behaviour(b, steps) && Initial(b[0]) && j <= k <= |steps| && Unwritten(b, steps, p, j, k)
    ensures (p in b[k].last <==> p in b[j].last) && (p in b[j].last ==> b[k].last[p] == b[j].last[p])
    decreases k
  {
    if j < k {
      LastKept(b, steps, p, j, k - 1);
      FirstState(b, p);
      RunSound(b, steps, k - 1);
      assert MovesAt(b, steps, k - 1);
      LastStep(b[k - 1], steps[k - 1], p);
    }
  }

  /** In every run, the last content of a page is the content of the latest step that wrote to it. */
  lemma LastIsLatest(b: seq<State>, steps: seq<Step>, p: Pid, j: nat, k: nat)
    requires Behaviour(b, steps) && Initial(b[0]) && j < k <= |steps|
    requires WritesTo(b[j], steps[j], p) && Unwritten(b, steps, p, j + 1, k)
    ensures p in b[k].last && b[k].last[p] == Content(steps[j])
  {
    FirstState(b, p);
    RunSound(b, steps, j);
    assert MovesAt(b, steps, j);
    LastStep(b[j], steps[j], p);
    LastKept(b, steps, p, j + 1, k);
  }

  /** ... and what the disk had at the start, if there was none. */
  lemma LastIsFirst(b: seq<State>, steps: seq<Step>, p: Pid, k: nat)
    requires Behaviour(b, steps) && Initial(b[0]) && k <= |steps| && Unwritten(b, steps, p, 0, k)
    ensures (p in b[k].last <==> p in b[0].disk) && (p in b[0].disk ==> b[k].last[p] == b[0].disk[p].body)
  {
    LastKept(b, steps, p, 0, k);
  }

  /**
   In every run, whoever holds a frame sees in it the content of the latest step that wrote to its page, if the frames
   granted for that page so far were granted cleanly.
   */
  lemma ReadsLatestWrite(b: seq<State>, steps: seq<Step>, j: nat, k: nat, h: nat, p: Pid)
    requires Behaviour(b, steps) && Initial(b[0]) && j < k <= |steps| && h in b[k].tasks && b[k].tasks[h].Holding?
    requires b[k].tasks[h].slot < |b[k].slots| && p == b[k].slots[b[k].tasks[h].slot].key && CleanUntil(b, steps, p, k)
    requires WritesTo(b[j], steps[j], p) && Unwritten(b, steps, p, j + 1, k)
    ensures b[k].slots[b[k].tasks[h].slot].body == Content(steps[j])
  {
    HeldReadsLast(b, steps, k, h);
    LastIsLatest(b, steps, p, j, k);
  }

  // ---------------------------------------------------------------------------------------
  // Operations run to their end
  // ---------------------------------------------------------------------------------------

  lemma TwoSteps(s: State, a: Step, b: Step) returns (run: seq<State>)
    requires Enabled(s, a) && Enabled(Next(s, a), b)
    ensures Behaviour(run, [a, b]) && run == [s, Next(s, a), Next(Next(s, a), b)]
  {
    run := [s, Next(s, a), Next(Next(s, a), b)];
    assert MovesAt(run, [a, b], 0) && MovesAt(run, [a, b], 1);
  }

  /** A client looks up a cached page, writes to it and releases it. */
  lemma WriteRun(s: State, p: Pid, i: nat, h: nat, content: Body) returns (run: seq<State>, t: State)
    requires Sound(s) && h !in s.tasks && p != 0 && p in s.table && s.table[p] == i && i !in s.victims
    ensures Behaviour(run, [Lookup(h, p), PinTry(h), Write(h, content), Release(h)]) && run[0] == s && run[4] == t && i < |s.slots|
    ensures t == s.(slots := s.slots[i := s.slots[i].(body := content, dirty := true, bit := true, pin := s.slots[i].pin + 1, unpin := s.slots[i].unpin + 1)],
                    last := s.last[p := content])
  {
    var m := HitState(s, p, i, h);
    t := ReleasedState(s, m, p, i, h, content);
    run := FourSteps(s, Lookup(h, p), PinTry(h), Write(h, content), Release(h));
  }

  lemma HitState(s: State, p: Pid, i: nat, h: nat) returns (m: State)
    requires Sound(s) && h !in s.tasks && p != 0 && p in s.table && s.table[p] == i && i !in s.victims
    ensures Enabled(s, Lookup(h, p)) && Enabled(Next(s, Lookup(h, p)), PinTry(h)) && m == Next(Next(s, Lookup(h, p)), PinTry(h))
    ensures Holds(s, i, p) && PinsOk(s, i)
    ensures m == s.(slots := s.slots[i := PinSlot(s.slots[i])], tasks := s.tasks[h := Holding(p, i)])
  {
    assert Named(s, p) && SlotTidy(s, i) && PinsOk(s, i);
    m := Next(Next(s, Lookup(h, p)), PinTry(h));
    assert m.tasks == s.tasks[h := Holding(p, i)];
  }

  lemma ReleasedState(s: State, m: State, p: Pid, i: nat, h: nat, content: Body) returns (t: State)
    requires Holds(s, i, p) && PinsOk(s, i) && h !in s.tasks
    requires m == s.(slots := s.slots[i := PinSlot(s.slots[i])], tasks := s.tasks[h := Holding(p, i)])
    ensures Enabled(m, Write(h, content)) && Enabled(Next(m, Write(h, content)), Release(h)) && t == Next(Next(m, Write(h, content)), Release(h))
    ensures t == s.(slots := s.slots[i := s.slots[i].(body := content, dirty := true, bit := true, pin := s.slots[i].pin + 1, unpin := s.slots[i].unpin + 1)],
                    last := s.last[p := content])
  {
    t := Next(Next(m, Write(h, content)), Release(h));
    assert t.tasks == s.tasks;
    assert t.slots == s.slots[i := s.slots[i].(body := content, dirty := true, bit := true, pin := s.slots[i].pin + 1, unpin := s.slots[i].unpin + 1)];
  }

  /** A new page is made in a free slot. */
  lemma NewPageRun(s: State, p: Pid, i: nat, h: nat, blank: Body) returns (run: seq<State>, t: State)
    requires h !in s.tasks && p != 0 && i < |s.slots| && !s.slots[i].occupied && !s.slots[i].marked && !s.slots[i].acc && s.victims == map[]
    ensures Behaviour(run, [NewPage(h, p, i), PublishNew(h, blank)]) && run[0] == s && run[2] == t
    ensures t == s.(slots := s.slots[i := s.slots[i].(occupied := true, acc := true, pin := s.slots[i].pin + 1, key := p, body := blank, dirty := true)],
                    table := s.table[p := i], last := s.last[p := blank], tasks := s.tasks[h := Holding(p, i)])
  {
    run := TwoSteps(s, NewPage(h, p, i), PublishNew(h, blank));
    t := run[2];
    assert t.tasks == s.tasks[h := Holding(p, i)];
  }

  /** A miss on a page that is not on disk fails, and its frame is free again. */
  lemma FailedMissRun(s: State, p: Pid, i: nat, h: nat) returns (run: seq<State>, t: State)
    requires h in s.tasks && s.tasks[h] == Missing(p) && p !in s.disk && s.victims == map[]
    requires i < |s.slots| && !s.slots[i].occupied && !s.slots[i].marked && !s.slots[i].acc
    ensures Behaviour(run, [Take(h, i), GiveBack(h)]) && run[0] == s && run[2] == t
    ensures t == s.(slots := s.slots[i := Blank], tasks := s.tasks - {h})
  {
    run := TwoSteps(s, Take(h, i), GiveBack(h));
    t := run[2];
    assert t.tasks == s.tasks - {h};
    assert t.slots == s.slots[i := Blank];
  }

  /** An entry without a page that nobody has can be chosen as well; evicting it changes nothing but the entry. */
  lemma EmptyEvictionRun(s: State, i: nat) returns (run: seq<State>, t: State)
    requires Sound(s) && s.victims == map[] && i < |s.slots| && !s.slots[i].occupied && !s.slots[i].marked && !s.slots[i].acc
    ensures Behaviour(run, [Choose(i), Flush(i), Drop(i), Reset(i)]) && run[0] == s && run[4] == t
    ensures t == s.(slots := s.slots[i := Blank])
  {
    assert SlotTidy(s, i) && Named(s, 0);
    assert 0 in s.table ==> SlotTidy(s, s.table[0]);
    var s2 := ChosenEmpty(s, i);
    t := DroppedFrame(s2, 0, i);
    run := FourSteps(s, Choose(i), Flush(i), Drop(i), Reset(i));
    assert t.table == s.table && t.slots == s.slots[i := Blank];
  }

  lemma ChosenEmpty(s: State, i: nat) returns (t: State)
    requires s.victims == map[] && i < |s.slots| && !s.slots[i].marked && !s.slots[i].acc && !s.slots[i].dirty
    ensures Enabled(s, Choose(i)) && Enabled(Next(s, Choose(i)), Flush(i)) && t == Next(Next(s, Choose(i)), Flush(i))
    ensures t == s.(slots := s.slots[i := PinSlot(s.slots[i]).(marked := true)], victims := map[i := Flushed])
  {
    t := Next(Next(s, Choose(i)), Flush(i));
  }

  /** The background writer brings the disk up to date with a dirty frame that nobody holds, and leaves it clean. */
  lemma WriterRun(s: State, i: nat) returns (run: seq<State>, t: State)
    requires Sound(s) && s.writer == Off && i < |s.slots| && s.slots[i].occupied && !s.slots[i].acc && s.slots[i].dirty
    ensures Behaviour(run, [WriterPin(i), WriterCopy, WriterWrite, WriterUnpin]) && run[0] == s && run[4] == t
    ensures t == s.(slots := s.slots[i := s.slots[i].(dirty := false, bit := false, pin := s.slots[i].pin + 1, unpin := s.slots[i].unpin + 1)],
                    disk := s.disk[s.slots[i].key := Stored(s.slots[i].body, s.slots[i].bit)])
  {
    NobodyHas(s, i);
    run := FourSteps(s, WriterPin(i), WriterCopy, WriterWrite, WriterUnpin);
    t := run[4];
    assert t.slots == s.slots[i := s.slots[i].(dirty := false, bit := false, pin := s.slots[i].pin + 1, unpin := s.slots[i].unpin + 1)];
  }

  /** It passes over a clean one. */
  lemma WriterSkipRun(s: State, i: nat) returns (run: seq<State>, t: State)
    requires Sound(s) && s.writer == Off && i < |s.slots| && s.slots[i].occupied && !s.slots[i].acc && !s.slots[i].dirty
    ensures Behaviour(run, [WriterPin(i), WriterSkip]) && run[0] == s && run[2] == t
    ensures t == s.(slots := s.slots[i := s.slots[i].(pin := s.slots[i].pin + 1, unpin := s.slots[i].unpin + 1)])
  {
    NobodyHas(s, i);
    run := TwoSteps(s, WriterPin(i), WriterSkip);
    t := run[2];
  }

  lemma NobodyHas(s: State, i: nat)
    requires Sound(s) && i < |s.slots| && s.slots[i].occupied && !s.slots[i].acc
    ensures !s.slots[i].marked && s.slots[i].pin == s.slots[i].unpin
  {
    assert SlotTidy(s, i);
    Unpinned(s, i);
    assert PinsOk(s, i);
  }
}
