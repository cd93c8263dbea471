/**
 What a miss returns, in every run: other clients, the evictor and the background writer may
 step between the read from disk and the publication of the frame.
 */
module ShardMisses {
  import opened Shard
  import opened ShardPins

  // ---------------------------------------------------------------------------------------
  // Every page on disk has a last content
  // ---------------------------------------------------------------------------------------

  /** Whatever is on disk, or on its way there, was read from disk at the start or written by a client. */
  ghost predicate Known(s: State) {
    && s.disk.Keys <= s.last.Keys
    && (forall i: nat :: i < |s.slots| && s.slots[i].dirty ==> s.slots[i].occupied && s.slots[i].key in s.last)
    && (s.writer.Copied? ==> s.writer.page in s.last)
  }

  lemma KnownStep(s: State, step: Step)
    requires PinSafe(s) && Known(s) && Enabled(s, step)
    ensures Known(Next(s, step)) && s.last.Keys <= Next(s, step).last.Keys
  {
    if step.Publish? || step.PublishNew? || step.ReadIn? || step.GiveBack? { assert TaskPinned(s, step.h); }
    if step.Write? { assert TaskPinned(s, step.h); }
  }

  lemma {:induction false} RunKnown(b: seq<State>, steps: seq<Step>, k: nat)
    requires Behaviour(b, steps) && Initial(b[0]) && k < |b|
    ensures PinSafe(b[k]) && Known(b[k])
  {
    ReachablePinSafe(b, steps, k);
    if k > 0 {
      RunKnown(b, steps, k - 1);
      assert MovesAt(b, steps, k - 1);
      KnownStep(b[k - 1], steps[k - 1]);
    }
  }

  /** A page that has a last content keeps having one. */
  lemma {:induction false} LastGrows(b: seq<State>, steps: seq<Step>, j: nat, k: nat)
    requires Behaviour(b, steps) && Initial(b[0]) && j <= k < |b|
    ensures b[j].last.Keys <= b[k].last.Keys
    decreases k
  {
    if j < k {
      LastGrows(b, steps, j, k - 1);
      RunKnown(b, steps, k - 1);
      assert MovesAt(b, steps, k - 1);
      KnownStep(b[k - 1], steps[k - 1]);
    }
  }

  // ---------------------------------------------------------------------------------------
  // From the read to the publication
  // ---------------------------------------------------------------------------------------

  /** Nobody else touches a frame that has been read in and not yet published. */
  lemma FilledStays(s: State, step: Step, h: nat)
    requires PinSafe(s) && Enabled(s, step) && h in s.tasks && s.tasks[h].Filled? && step != Publish(h)
    ensures var s' := Next(s, step);
            && h in s'.tasks && s'.tasks[h] == s.tasks[h]
            && |s'.slots| == |s.slots| > s.tasks[h].slot && s'.slots[s.tasks[h].slot].body == s.slots[s.tasks[h].slot].body
  {
    var i := s.tasks[h].slot;
    assert TaskPinned(s, h) && PinsOk(s, i);
    SoleHolder(s, i, h);
    if step.Publish? || step.PublishNew? || step.GiveBack? || step.ReadIn? || step.Write? || step.Release? {
      assert step.h != h ==> !Pins(s.tasks[step.h], i);
    }
  }

  ghost predicate Unpublished(steps: seq<Step>, h: nat, j: int, k: int) {
    forall m :: j < m < k && 0 <= m < |steps| ==> steps[m] != Publish(h)
  }

  lemma {:induction false} FilledUntil(b: seq<State>, steps: seq<Step>, j: nat, k: nat, h: nat)
    requires Behaviour(b, steps) && Initial(b[0]) && j < k <= |steps| && steps[j] == ReadIn(h) && Unpublished(steps, h, j, k)
    ensures h in b[j].tasks && b[j].tasks[h].Filling?
    ensures var p, i := b[j].tasks[h].page, b[j].tasks[h].slot;
            && p in b[j].disk && h in b[k].tasks && b[k].tasks[h] == Filled(p, i)
            && i < |b[k].slots| && b[k].slots[i].body == b[j].disk[p].body
    decreases k
  {
    assert MovesAt(b, steps, j);
    if k > j + 1 {
      FilledUntil(b, steps, j, k - 1, h);
      ReachablePinSafe(b, steps, k - 1);
      assert MovesAt(b, steps, k - 1);
      FilledStays(b[k - 1], steps[k - 1], h);
    }
  }

  /**
   In every run, a miss that reads its page at step `j` and publishes the frame at step `k` hands out the page asked
   for, with the content the disk had at step `j`: the last content exactly when that is still the page's at step `k`.
   */
  lemma MissReturns(b: seq<State>, steps: seq<Step>, j: nat, k: nat, h: nat)
    requires Behaviour(b, steps) && Initial(b[0]) && j < k < |steps|
    requires steps[j] == ReadIn(h) && steps[k] == Publish(h) && Unpublished(steps, h, j, k)
    ensures h in b[j].tasks && b[j].tasks[h].Filling?
    ensures var p, i, t := b[j].tasks[h].page, b[j].tasks[h].slot, b[k + 1];
            && p in b[j].disk && h in t.tasks && t.tasks[h] == Holding(p, i)
            && i < |t.slots| && t.slots[i].key == p && t.slots[i].body == b[j].disk[p].body
            && p in b[k].last && t.last == b[k].last
            && (t.slots[i].body == t.last[p] <==> b[j].disk[p].body == b[k].last[p])
  {
    FilledUntil(b, steps, j, k, h);
    RunKnown(b, steps, j);
    LastGrows(b, steps, j, k);
    assert MovesAt(b, steps, k);
  }
}
