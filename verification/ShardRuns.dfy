/**
 Whole runs of a shard: coherence of all pages at once, and the two interleavings in which the
 source returns something else than the page's last content.
 */
module ShardRuns {
  import opened Shard
  import opened ShardPins
  import opened ShardPages

  // ---------------------------------------------------------------------------------------
  // All pages at once
  // ---------------------------------------------------------------------------------------

  /** Every page is coherent. */
  ghost predicate Coherent(s: State) { Sound(s) && forall p: Pid :: PageOk(s, p) }

  /**
   The one thing the protocol needs and does not check: when a miss is given its frame, the page
   is not in the table and nobody else is bringing it in.  For a new page, its id is unused.
   */
  ghost predicate Clean(s: State, step: Step) {
    match step
    case Take(h, _) => h in s.tasks && CleanFor(s, step, s.tasks[h].page)
    case NewPage(_, page, _) => CleanFor(s, step, page)
    case _ => true
  }

  lemma CleanForAll(s: State, step: Step)
    requires Enabled(s, step)
    ensures Clean(s, step) <==> forall p: Pid :: CleanFor(s, step, p)
  {
  }

  /** Every frame is granted for a page that is neither in the table nor being brought in. */
  ghost predicate AllClean(b: seq<State>, steps: seq<Step>) {
    |b| == |steps| + 1 && forall k :: 0 <= k < |steps| ==> Clean(b[k], steps[k])
  }

  /** Every step keeps the invariant, exactly when a frame is granted only for a page that is neither cached nor being brought in. */
  lemma StepCoherent(s: State, step: Step)
    requires Coherent(s) && Enabled(s, step)
    ensures Coherent(Next(s, step)) <==> Clean(s, step)
  {
    CleanForAll(s, step);
    StepSound(s, step);
    forall p: Pid ensures PageOk(Next(s, step), p) <==> CleanFor(s, step, p) { StepPage(s, step, p); }
  }

  /** Write-back coherence over every such interleaving. */
  lemma {:induction false} RunCoherent(b: seq<State>, steps: seq<Step>, k: nat)
    requires Behaviour(b, steps) && AllClean(b, steps) && Coherent(b[0]) && k < |b|
    ensures Coherent(b[k])
  {
    if k > 0 {
      RunCoherent(b, steps, k - 1);
      assert MovesAt(b, steps, k - 1);
      StepCoherent(b[k - 1], steps[k - 1]);
    }
  }

  lemma InitialCoherent(s: State)
    requires Initial(s)
    ensures Coherent(s)
  {
    InitialSound(s);
    forall p: Pid ensures PageOk(s, p) { InitialPage(s, p); }
  }

  /** The invariant holds throughout a run from the start exactly when every frame is granted for such a page. */
  lemma ReachableCoherent(b: seq<State>, steps: seq<Step>)
    requires Behaviour(b, steps) && Initial(b[0])
    ensures (forall k :: 0 <= k < |b| ==> Coherent(b[k])) <==> AllClean(b, steps)
  {
    InitialCoherent(b[0]);
    if AllClean(b, steps) {
      forall k | 0 <= k < |b| ensures Coherent(b[k]) { RunCoherent(b, steps, k); }
    }
    if forall k :: 0 <= k < |b| ==> Coherent(b[k]) {
      forall k | 0 <= k < |steps| ensures Clean(b[k], steps[k]) {
        assert MovesAt(b, steps, k) && Coherent(b[k]) && Coherent(b[k + 1]);
        StepCoherent(b[k], steps[k]);
      }
    }
  }

  /** Where all pages are coherent, whoever holds a frame sees the last content of the page in it. */
  lemma HeldIsLast(s: State, h: nat)
    requires Coherent(s) && h in s.tasks && s.tasks[h].Holding?
    ensures var i := s.tasks[h].slot;
            && i < |s.slots| && s.slots[i].key in s.last && s.slots[i].body == s.last[s.slots[i].key]
            && s.slots[i].key in s.table && s.table[s.slots[i].key] == i
  {
    assert TaskPinned(s, h);
    ShardPages.HeldIsLast(s, h);
  }

  /** ... and a hit returns the requested page, with its last content, exactly when the table still names the slot that was looked up. */
  lemma HitYieldsLast(s: State, h: nat)
    requires Coherent(s) && Enabled(s, PinTry(h)) && Next(s, PinTry(h)).tasks[h].Holding?
    ensures var s' := Next(s, PinTry(h));
            var i, p := s.tasks[h].slot, s.tasks[h].page;
            && (s'.slots[i].key == p <==> p in s.table && s.table[p] == i)
            && (p in s.table && s.table[p] == i ==> p in s'.last && s'.slots[i].body == s'.last[p])
  {
    ShardPages.HitYieldsLast(s, h);
  }

  // ---------------------------------------------------------------------------------------
  // A miss
  // ---------------------------------------------------------------------------------------

  /**
   A miss that nobody interrupts, whether or not its page is cached: the frame carries the page asked for, with its last
   content exactly when the disk has that.  `ShardMisses.MissReturns` is the same for every run.
   */
  lemma MissYields(s: State, h: nat, j: nat) returns (s1: State, s2: State, t: State)
    requires Enabled(s, Take(h, j)) && s.tasks[h].page in s.disk && PageOk(s, s.tasks[h].page)
    ensures s1 == Next(s, Take(h, j)) && Enabled(s1, ReadIn(h)) && s2 == Next(s1, ReadIn(h))
    ensures Enabled(s2, Publish(h)) && t == Next(s2, Publish(h))
    ensures var p := s.tasks[h].page;
            && t.tasks == s.tasks[h := Holding(p, j)] && j < |t.slots| && t.slots[j].key == p && p in t.last && p in s.last
            && (t.slots[j].body == t.last[p] <==> s.disk[p].body == s.last[p])
            && (p !in s.table ==> t.slots[j].body == t.last[p])
    ensures |t.slots| == |s.slots| && (forall i: nat :: i < |s.slots| && i != j ==> t.slots[i] == s.slots[i]) && t.last == s.last
  {
    s1 := Next(s, Take(h, j));
    s2 := Next(s1, ReadIn(h));
    t := Next(s2, Publish(h));
    assert t.tasks == s.tasks[h := Holding(s.tasks[h].page, j)];
  }

  // ---------------------------------------------------------------------------------------
  // The two interleavings the source does not exclude
  // ---------------------------------------------------------------------------------------

  /** Page `p` sits unpinned in slot `i`, no eviction is under way, and client `h` is idle. */
  ghost predicate Quiet(s: State, p: Pid, i: nat, h: nat) {
    && Sound(s) && PageOk(s, p) && s.victims == map[] && h !in s.tasks
    && p != 0 && p in s.table && s.table[p] == i && i < |s.slots| && !s.slots[i].acc
  }

  /** Without an eviction under way, the slot the table names has the page, and is not marked. */
  lemma Settled(s: State, p: Pid, i: nat)
    requires Sound(s) && s.victims == map[] && p in s.table && s.table[p] == i && i < |s.slots|
    ensures Holds(s, i, p) && !s.slots[i].marked && PinsOk(s, i)
  {
    assert Named(s, p) && SlotTidy(s, i);
  }

  /** A move is one wherever its two states and its step stand. */
  lemma SameMove(b: seq<State>, steps: seq<Step>, k: int, d: seq<State>, more: seq<Step>, m: int)
    requires MovesAt(b, steps, k) && 0 <= m < |more| && m + 1 < |d| && more[m] == steps[k] && d[m] == b[k] && d[m + 1] == b[k + 1]
    ensures MovesAt(d, more, m)
  {
  }

  lemma JoinBehaviours(b: seq<State>, steps: seq<Step>, c: seq<State>, more: seq<Step>)
    requires Behaviour(b, steps) && Behaviour(c, more) && b[|steps|] == c[0]
    ensures Behaviour(b + c[1..], steps + more)
  {
    var d, both := b + c[1..], steps + more;
    forall k | 0 <= k < |both| ensures MovesAt(d, both, k) {
      if k < |steps| {
        SameMove(b, steps, k, d, both, k);
      } else {
        SameMove(c, more, k - |steps|, d, both, k);
      }
    }
  }

  lemma JoinRuns(b: seq<State>, steps: seq<Step>, c: seq<State>, more: seq<Step>)
    requires Behaviour(b, steps) && AllClean(b, steps) && Behaviour(c, more) && AllClean(c, more) && b[|steps|] == c[0]
    ensures Behaviour(b + c[1..], steps + more) && AllClean(b + c[1..], steps + more)
  {
    JoinBehaviours(b, steps, c, more);
    var d, both := b + c[1..], steps + more;
    forall k | 0 <= k < |both| ensures Clean(d[k], both[k]) {
      if k < |steps| {
        assert Clean(b[k], steps[k]);
      } else {
        assert Clean(c[k - |steps|], more[k - |steps|]) && d[k] == c[k - |steps|];
      }
    }
  }

  /** A run goes on with one more step. */
  lemma Extend(b: seq<State>, steps: seq<Step>, step: Step)
    requires Behaviour(b, steps) && Enabled(b[|steps|], step)
    ensures Behaviour(b + [Next(b[|steps|], step)], steps + [step])
  {
    var d, more := b + [Next(b[|steps|], step)], steps + [step];
    forall k | 0 <= k < |more| ensures MovesAt(d, more, k) {
      if k < |steps| { SameMove(b, steps, k, d, more, k); }
    }
  }

  lemma OneStep(s: State, step: Step)
    requires Enabled(s, step) && Clean(s, step)
    ensures Behaviour([s, Next(s, step)], [step]) && AllClean([s, Next(s, step)], [step])
  {
    assert MovesAt([s, Next(s, step)], [step], 0);
  }

  lemma FourSteps(s: State, a: Step, b: Step, c: Step, d: Step) returns (run: seq<State>)
    requires Enabled(s, a) && Clean(s, a)
    requires var s1 := Next(s, a); Enabled(s1, b) && Clean(s1, b)
    requires var s2 := Next(Next(s, a), b); Enabled(s2, c) && Clean(s2, c)
    requires var s3 := Next(Next(Next(s, a), b), c); Enabled(s3, d) && Clean(s3, d)
    ensures Behaviour(run, [a, b, c, d]) && AllClean(run, [a, b, c, d])
    ensures run[0] == s && run[4] == Next(Next(Next(Next(s, a), b), c), d)
  {
    var s1 := Next(s, a);
    var s2 := Next(s1, b);
    var s3 := Next(s2, c);
    OneStep(s, a);
    OneStep(s1, b);
    OneStep(s2, c);
    OneStep(s3, d);
    JoinRuns([s, s1], [a], [s1, s2], [b]);
    var two := [s, s1] + [s1, s2][1..];
    JoinRuns(two, [a] + [b], [s2, s3], [c]);
    var three := two + [s2, s3][1..];
    JoinRuns(three, [a] + [b] + [c], [s3, Next(s3, d)], [d]);
    run := three + [s3, Next(s3, d)][1..];
    assert [a] + [b] + [c] + [d] == [a, b, c, d];
  }

  /** A hit on a frame the evictor has marked turns into a miss, even if the frame is then spared. */
  lemma HitWhileMarked(s: State, p: Pid, i: nat, h: nat) returns (run: seq<State>, t: State)
    requires Quiet(s, p, i, h)
    ensures Behaviour(run, [Lookup(h, p), Choose(i), PinTry(h), Spare(i)])
    ensures AllClean(run, [Lookup(h, p), Choose(i), PinTry(h), Spare(i)]) && run[0] == s && run[4] == t
    ensures t == s.(slots := s.slots[i := s.slots[i].(pin := s.slots[i].pin + 1, unpin := s.slots[i].unpin + 1)],
                    tasks := s.tasks[h := Missing(p)])
    ensures Holds(s, i, p)
  {
    Settled(s, p, i);
    run := FourSteps(s, Lookup(h, p), Choose(i), PinTry(h), Spare(i));
    t := run[4];
    assert t.victims == s.victims;
    assert t.tasks == s.tasks[h := Missing(p)];
  }

  /**
   A hit that meets its frame just while the evictor weighs it, and then spares it, is taken
   for a miss although the page is still cached.  The page is read from disk into a second
   frame: the client gets the last content exactly when the disk already had it.
   */
  lemma SparedFrameIsReadTwice(s: State, p: Pid, i: nat, j: nat, h: nat) returns (run: seq<State>, steps: seq<Step>, t: State)
    requires Quiet(s, p, i, h) && p in s.disk && j < |s.slots| && FreeSlot(s.slots[j])
    ensures steps == [Lookup(h, p), Choose(i), PinTry(h), Spare(i)] + [Take(h, j)] + [ReadIn(h)] + [Publish(h)]
    ensures Behaviour(run, steps) && run[0] == s && run[7] == t && !CleanFor(run[4], Take(h, j), p)
    ensures t.tasks == s.tasks[h := Holding(p, j)] && |t.slots| == |s.slots| && t.last == s.last && p in t.last
    ensures t.slots[j].key == p && (t.slots[j].body == t.last[p] <==> s.disk[p].body == s.slots[i].body)
    ensures p in t.table && t.table[p] == j && Holds(t, j, p) && !t.slots[j].marked && !PageOk(t, p)
  {
    Settled(s, p, i);
    assert FrameOk(s, p, i);
    var four := [Lookup(h, p), Choose(i), PinTry(h), Spare(i)];
    var m;
    run, m := HitWhileMarked(s, p, i, h);
    RunPage(run, four, p, 4);
    run, steps, t := ThenMiss(run, four, h, j);
    assert t.tasks == s.tasks[h := Holding(p, j)];
    TwoFrames(t, p, i, j);
  }

  /** A run goes on with an uninterrupted miss. */
  lemma ThenMiss(b: seq<State>, done: seq<Step>, h: nat, j: nat) returns (run: seq<State>, steps: seq<Step>, t: State)
    requires Behaviour(b, done) && Enabled(b[|done|], Take(h, j)) && b[|done|].tasks[h].page in b[|done|].disk
    requires PageOk(b[|done|], b[|done|].tasks[h].page)
    ensures steps == done + [Take(h, j)] + [ReadIn(h)] + [Publish(h)]
    ensures Behaviour(run, steps) && run[..|b|] == b && run[|steps|] == t
    ensures var s := b[|done|];
            var p := s.tasks[h].page;
            && t.tasks == s.tasks[h := Holding(p, j)] && |t.slots| == |s.slots| && t.last == s.last && p in t.last
            && p in t.table && t.table[p] == j && Holds(t, j, p) && !t.slots[j].marked
            && (t.slots[j].body == t.last[p] <==> s.disk[p].body == s.last[p])
            && forall i: nat :: i < |s.slots| && i != j ==> t.slots[i] == s.slots[i]
  {
    var m1, m2;
    m1, m2, t := MissYields(b[|done|], h, j);
    Extend(b, done, Take(h, j));
    Extend(b + [m1], done + [Take(h, j)], ReadIn(h));
    Extend(b + [m1] + [m2], done + [Take(h, j)] + [ReadIn(h)], Publish(h));
    run, steps := b + [m1] + [m2] + [t], done + [Take(h, j)] + [ReadIn(h)] + [Publish(h)];
  }

  /** A page in the table that is in two slots is not coherent. */
  lemma TwoFrames(t: State, p: Pid, i: nat, j: nat)
    requires Holds(t, i, p) && Holds(t, j, p) && i != j && p in t.table
    ensures !PageOk(t, p)
  {
    assert !(FrameOk(t, p, i) && FrameOk(t, p, j));
  }

  /** Evicting an unpinned frame completely. */
  lemma EvictionRun(s: State, p: Pid, i: nat) returns (run: seq<State>, t: State)
    requires Sound(s) && s.victims == map[] && p in s.table && s.table[p] == i && i < |s.slots| && !s.slots[i].acc
    ensures Behaviour(run, [Choose(i), Flush(i), Drop(i), Reset(i)])
    ensures AllClean(run, [Choose(i), Flush(i), Drop(i), Reset(i)]) && run[0] == s && run[4] == t
    ensures t == s.(slots := s.slots[i := Blank], table := s.table - {p},
                    disk := if s.slots[i].dirty then s.disk[p := Stored(s.slots[i].body, s.slots[i].bit)] else s.disk)
  {
    Settled(s, p, i);
    t := EvictedFrame(s, p, i);
    run := FourSteps(s, Choose(i), Flush(i), Drop(i), Reset(i));
  }

  lemma EvictedFrame(s: State, p: Pid, i: nat) returns (t: State)
    requires s.victims == map[] && i < |s.slots| && !s.slots[i].acc && !s.slots[i].marked && s.slots[i].occupied && s.slots[i].key == p
    ensures Enabled(s, Choose(i)) && Enabled(Next(s, Choose(i)), Flush(i)) && Enabled(Next(Next(s, Choose(i)), Flush(i)), Drop(i))
    ensures var s3 := Next(Next(Next(s, Choose(i)), Flush(i)), Drop(i)); Enabled(s3, Reset(i)) && t == Next(s3, Reset(i))
    ensures t == s.(slots := s.slots[i := Blank], table := s.table - {p},
                    disk := if s.slots[i].dirty then s.disk[p := Stored(s.slots[i].body, s.slots[i].bit)] else s.disk)
  {
    var s2 := FlushedFrame(s, p, i);
    t := DroppedFrame(s2, p, i);
    assert t.slots == s.slots[i := Blank];
  }

  lemma FlushedFrame(s: State, p: Pid, i: nat) returns (t: State)
    requires s.victims == map[] && i < |s.slots| && !s.slots[i].acc && !s.slots[i].marked && s.slots[i].occupied && s.slots[i].key == p
    ensures Enabled(s, Choose(i)) && Enabled(Next(s, Choose(i)), Flush(i)) && t == Next(Next(s, Choose(i)), Flush(i))
    ensures t == s.(slots := s.slots[i := PinSlot(s.slots[i]).(marked := true)], victims := map[i := Flushed],
                    disk := if s.slots[i].dirty then s.disk[p := Stored(s.slots[i].body, s.slots[i].bit)] else s.disk)
  {
    t := Next(Next(s, Choose(i)), Flush(i));
  }

  lemma DroppedFrame(s: State, p: Pid, i: nat) returns (t: State)
    requires s.victims == map[i := Flushed] && i < |s.slots| && s.slots[i].key == p
    ensures Enabled(s, Drop(i)) && Enabled(Next(s, Drop(i)), Reset(i)) && t == Next(Next(s, Drop(i)), Reset(i))
    ensures t == s.(slots := s.slots[i := Blank], table := s.table - {p}, victims := map[])
  {
    t := Next(Next(s, Drop(i)), Reset(i));
    assert t.victims == map[];
  }

  /** Bringing an uncached page into a free slot. */
  lemma MissRun(s: State, q: Pid, i: nat, g: nat) returns (run: seq<State>, t: State)
    requires s.victims == map[] && g !in s.tasks && i < |s.slots| && FreeSlot(s.slots[i])
    requires q != 0 && q !in s.table && q in s.disk && forall k :: k in s.tasks ==> !Brings(s.tasks[k], q)
    ensures Behaviour(run, [Lookup(g, q), Take(g, i), ReadIn(g), Publish(g)])
    ensures AllClean(run, [Lookup(g, q), Take(g, i), ReadIn(g), Publish(g)]) && run[0] == s && run[4] == t
    ensures t == s.(slots := s.slots[i := PinSlot(s.slots[i]).(occupied := true, key := q, body := s.disk[q].body, bit := s.disk[q].bit)],
                    table := s.table[q := i], tasks := s.tasks[g := Holding(q, i)])
  {
    run := FourSteps(s, Lookup(g, q), Take(g, i), ReadIn(g), Publish(g));
    t := run[4];
    assert t.tasks == s.tasks[g := Holding(q, i)];
  }

  /**
   Between the table lookup and the pin, the frame can be evicted and given to another page:
   the client asked for `p` and is handed `q`, on a run in which every miss is clean.
   */
  lemma ReusedFrameIsReturned(s: State, p: Pid, i: nat, h: nat, q: Pid, g: nat) returns (run: seq<State>, steps: seq<Step>, t: State)
    requires Quiet(s, p, i, h) && g !in s.tasks && g != h
    requires q != 0 && q !in s.table && q in s.disk && forall k :: k in s.tasks ==> !Brings(s.tasks[k], q)
    ensures steps == [Lookup(h, p)] + ([Choose(i), Flush(i), Drop(i), Reset(i)] +
                     [Lookup(g, q), Take(g, i), ReadIn(g), Publish(g)]) + [PinTry(h)]
    ensures Behaviour(run, steps) && AllClean(run, steps) && run[0] == s && run[|steps|] == t && (Coherent(s) ==> Coherent(t))
    ensures h in t.tasks && t.tasks[h] == Holding(p, i) && i < |t.slots| && t.slots[i].key == q && p != q
  {
    var s1 := Next(s, Lookup(h, p));
    StepSound(s, Lookup(h, p));
    OneStep(s, Lookup(h, p));
    var reusing, s2 := ReuseRun(s1, p, i, q, g);
    JoinRuns([s, s1], [Lookup(h, p)], reusing, [Choose(i), Flush(i), Drop(i), Reset(i)] + [Lookup(g, q), Take(g, i), ReadIn(g), Publish(g)]);
    var r := [s, s1] + reusing[1..];
    steps := [Lookup(h, p)] + ([Choose(i), Flush(i), Drop(i), Reset(i)] + [Lookup(g, q), Take(g, i), ReadIn(g), Publish(g)]);
    OneStep(s2, PinTry(h));
    t := Next(s2, PinTry(h));
    JoinRuns(r, steps, [s2, t], [PinTry(h)]);
    run, steps := r + [s2, t][1..], steps + [PinTry(h)];
    if Coherent(s) { RunCoherent(run, steps, |steps|); }
  }

  /** A frame is evicted and given to another page. */
  lemma ReuseRun(s: State, p: Pid, i: nat, q: Pid, g: nat) returns (run: seq<State>, t: State)
    requires Sound(s) && s.victims == map[] && p in s.table && s.table[p] == i && i < |s.slots| && !s.slots[i].acc && g !in s.tasks
    requires q != 0 && q !in s.table && q in s.disk && forall k :: k in s.tasks ==> !Brings(s.tasks[k], q)
    ensures var steps := [Choose(i), Flush(i), Drop(i), Reset(i)] + [Lookup(g, q), Take(g, i), ReadIn(g), Publish(g)];
            Behaviour(run, steps) && AllClean(run, steps) && run[0] == s && run[8] == t
    ensures i < |t.slots| && t.slots[i].occupied && !t.slots[i].marked && t.slots[i].key == q && t.tasks == s.tasks[g := Holding(q, i)]
  {
    var evicting, s2 := EvictionRun(s, p, i);
    var missing;
    missing, t := MissRun(s2, q, i, g);
    JoinRuns(evicting, [Choose(i), Flush(i), Drop(i), Reset(i)], missing, [Lookup(g, q), Take(g, i), ReadIn(g), Publish(g)]);
    run := evicting + missing[1..];
  }

  const FRESH := State([Blank, Blank], map[], map[1 := Stored([1], false)], map[1 := [1]], map[], map[], Off)
  const WRITTEN := Slot(true, false, false, 1, 1, 1, [2], true, true)
  const STALE := State([WRITTEN, Blank], map[1 := 0], map[1 := Stored([1], false)], map[1 := [2]], map[], map[], Off)

  /** A client reads page 1, writes to it and releases it. */
  lemma FirstWrite() returns (run: seq<State>, steps: seq<Step>)
    ensures Initial(FRESH) && Behaviour(run, steps) && AllClean(run, steps) && run[0] == FRESH && run[|steps|] == STALE
  {
    var four := [Lookup(7, 1), Take(7, 0), ReadIn(7), Publish(7)];
    var read, held := MissRun(FRESH, 1, 0, 7);
    var wrote := WriteThenRelease(held);
    OneStep(held, Write(7, [2]));
    OneStep(wrote, Release(7));
    JoinRuns(read, four, [held, wrote], [Write(7, [2])]);
    JoinRuns(read + [held, wrote][1..], four + [Write(7, [2])], [wrote, STALE], [Release(7)]);
    run, steps := read + [held, wrote][1..] + [wrote, STALE][1..], four + [Write(7, [2])] + [Release(7)];
  }

  lemma WriteThenRelease(held: State) returns (wrote: State)
    requires held == FRESH.(slots := FRESH.slots[0 := PinSlot(Blank).(occupied := true, key := 1, body := [1], bit := false)],
                            table := FRESH.table[1 := 0], tasks := FRESH.tasks[7 := Holding(1, 0)])
    ensures Enabled(held, Write(7, [2])) && wrote == Next(held, Write(7, [2]))
    ensures Enabled(wrote, Release(7)) && Next(wrote, Release(7)) == STALE
  {
    wrote := Next(held, Write(7, [2]));
    var done := Next(wrote, Release(7));
    assert done.tasks == map[] && done.table == map[1 := 0] && done.last == map[1 := [2]];
    assert done.slots == [WRITTEN, Blank];
  }

  /** From the start, with one client, an evictor and two entries, a client is handed a page without what was last written to it. */
  lemma StaleReadHappens() returns (run: seq<State>, steps: seq<Step>)
    ensures Behaviour(run, steps) && Initial(run[0])
    ensures var t := run[|steps|];
            && t.tasks == map[7 := Holding(1, 1)] && |t.slots| == 2 && 1 in t.table && t.table[1] == 1
            && Holds(t, 1, 1) && !t.slots[1].marked && 1 in t.last && t.slots[1].body != t.last[1]
  {
    var first, writing := FirstWrite();
    InitialCoherent(FRESH);
    RunCoherent(first, writing, |writing|);
    var second, reading, t := SparedFrameIsReadTwice(STALE, 1, 0, 1, 7);
    JoinBehaviours(first, writing, second, reading);
    run, steps := first + second[1..], writing + reading;
  }

  /** From then on another client that hits the page in the slot the table names is handed the same stale content. */
  lemma StaleHitHappens() returns (run: seq<State>, steps: seq<Step>)
    ensures Behaviour(run, steps) && Initial(run[0]) && |steps| > 0 && steps[|steps| - 1] == PinTry(8)
    ensures var s, t := run[|steps| - 1], run[|steps|];
            && 1 in s.table && s.table[1] == 1 && t.tasks == map[7 := Holding(1, 1), 8 := Holding(1, 1)] && |t.slots| == 2
            && t.slots[1].key == 1 && 1 in t.last && t.slots[1].body != t.last[1]
  {
    run, steps := StaleReadHappens();
    Extend(run, steps, Lookup(8, 1));
    run, steps := run + [Next(run[|steps|], Lookup(8, 1))], steps + [Lookup(8, 1)];
    Extend(run, steps, PinTry(8));
    run, steps := run + [Next(run[|steps|], PinTry(8))], steps + [PinTry(8)];
  }
}
