/**
 The job queue of a page (pkg/diskmanager/diskmanager.go): any number of callers of `addJob` and of
 goroutines in `run`, one step for every section under the lock.
 */
module JobQueue {
  /** Jobs, told apart by a number. */
  type Job = nat

  /**
   `starting` callers have seen the queue idle and will start a goroutine, `pending` goroutines have not
   yet taken the lock for the first time, `idle` ones are between two jobs, and `busy` ones hold a job.
   */
  datatype Queue = Queue(
    jobs: seq<Job>, running: bool, starting: nat, pending: nat, idle: nat, busy: seq<Job>,
    added: seq<Job>, taken: seq<Job>, done: seq<Job>)

  datatype Step =
    | Add(job: Job)
    | Start
    | Begin
    | Take
    | Finish(i: nat)
    | Stop

  /** `newJobQueue`. */
  predicate New(q: Queue) {
    !q.running && q.starting == q.pending == q.idle == |q.jobs| == |q.busy| == |q.added| == |q.taken| == |q.done| == 0
  }

  predicate Enabled(q: Queue, s: Step) {
    match s
    case Add(_) => true
    case Start => q.starting > 0
    case Begin => q.pending > 0
    case Take => q.idle > 0 && q.jobs != []
    case Finish(i) => i < |q.busy|
    case Stop => q.idle > 0 && q.jobs == []
  }

  function Without(s: seq<Job>, i: nat): seq<Job>
    requires i < |s|
  {
    s[..i] + s[i + 1..]
  }

  function Next(q: Queue, s: Step): Queue
    requires Enabled(q, s)
  {
    match s
    case Add(job) => q.(jobs := q.jobs + [job], added := q.added + [job], starting := if q.running then q.starting else q.starting + 1)
    case Start => q.(starting := q.starting - 1, pending := q.pending + 1)
    case Begin => q.(pending := q.pending - 1, idle := q.idle + 1, running := true)
    case Take => q.(idle := q.idle - 1, busy := q.busy + [q.jobs[0]], taken := q.taken + [q.jobs[0]], jobs := q.jobs[1..])
    case Finish(i) => q.(idle := q.idle + 1, done := q.done + [q.busy[i]], busy := Without(q.busy, i))
    case Stop => q.(idle := q.idle - 1, running := false)
  }

  /** Goroutines in their loop. */
  function Live(q: Queue): nat { q.idle + |q.busy| }

  /** Goroutines in their loop or on their way to it. */
  function Runners(q: Queue): nat { q.starting + q.pending + Live(q) }

  // ---------------------------------------------------------------------------------------
  // Nothing is lost
  // ---------------------------------------------------------------------------------------

  predicate Sound(q: Queue) {
    && (q.running ==> Live(q) > 0)
    && (q.jobs != [] ==> Runners(q) > 0)
    && q.added == q.taken + q.jobs
    && multiset(q.taken) == multiset(q.done) + multiset(q.busy)
  }

  lemma AddSound(q: Queue, job: Job)
    requires Sound(q)
    ensures Sound(Next(q, Add(job)))
  {
    assert q.taken + (q.jobs + [job]) == q.taken + q.jobs + [job];
  }

  lemma TakeSound(q: Queue)
    requires Sound(q) && Enabled(q, Take)
    ensures Sound(Next(q, Take))
  {
    var job := q.jobs[0];
    assert q.taken + [job] + q.jobs[1..] == q.taken + q.jobs by { assert q.jobs == [job] + q.jobs[1..]; }
    assert multiset(q.taken + [job]) == multiset(q.taken) + multiset{job};
    assert multiset(q.busy + [job]) == multiset(q.busy) + multiset{job};
  }

  lemma FinishSound(q: Queue, i: nat)
    requires Sound(q) && Enabled(q, Finish(i))
    ensures Sound(Next(q, Finish(i)))
  {
    var job := q.busy[i];
    assert multiset(q.busy) == multiset(Without(q.busy, i)) + multiset{job} by {
      assert q.busy == q.busy[..i] + [job] + q.busy[i + 1..];
    }
    assert multiset(q.done + [job]) == multiset(q.done) + multiset{job};
  }

  lemma SoundStep(q: Queue, s: Step)
    requires Sound(q) && Enabled(q, s)
    ensures Sound(Next(q, s))
  {
    match s
    case Add(job) => AddSound(q, job);
    case Take => TakeSound(q);
    case Finish(i) => FinishSound(q, i);
    case Start =>
    case Begin =>
    case Stop =>
  }

  predicate StepAt(states: seq<Queue>, steps: seq<Step>, i: nat)
    requires i < |steps| && |states| == |steps| + 1
  {
    Enabled(states[i], steps[i]) && states[i + 1] == Next(states[i], steps[i])
  }

  /** A run of the queue from its creation. */
  predicate Run(states: seq<Queue>, steps: seq<Step>) {
    && |states| == |steps| + 1 && New(states[0])
    && forall i :: 0 <= i < |steps| ==> StepAt(states, steps, i)
  }

  /**
   In every state of every run: a running queue has a goroutine in its loop, a queue with jobs has one in
   its loop or on the way, and the jobs taken are the first of those added, in order and each once.
   */
  lemma {:induction false} RunSound(states: seq<Queue>, steps: seq<Step>, i: nat)
    requires Run(states, steps) && i < |states|
    ensures Sound(states[i])
  {
    if i > 0 {
      RunSound(states, steps, i - 1);
      assert StepAt(states, steps, i - 1);
      SoundStep(states[i - 1], steps[i - 1]);
    }
  }

  /** When all goroutines have ended, every job that was added was executed, exactly as often as it was added. */
  lemma QuietMeansDone(states: seq<Queue>, steps: seq<Step>, i: nat)
    requires Run(states, steps) && i < |states| && Runners(states[i]) == 0
    ensures states[i].jobs == [] && multiset(states[i].done) == multiset(states[i].added)
  {
    RunSound(states, steps, i);
    var q := states[i];
    assert q.taken + [] == q.taken;
  }

  // ---------------------------------------------------------------------------------------
  // The queue drains
  // ---------------------------------------------------------------------------------------

  /** How many steps goroutines can still take without a new job. */
  function StepsLeft(q: Queue): nat { 3 * q.starting + 2 * q.pending + q.idle + 2 * |q.busy| + 2 * |q.jobs| }

  /** Whatever the goroutines do, it brings them one step closer to their end; only a new job undoes that. */
  lemma EveryStepCounts(q: Queue, s: Step)
    requires Enabled(q, s) && !s.Add?
    ensures StepsLeft(Next(q, s)) == StepsLeft(q) - 1 && Next(q, s).added == q.added
  {
  }

  /** As long as there is a goroutine, or a job, some goroutine can take a step. */
  lemma NeverStuck(q: Queue) returns (s: Step)
    requires Sound(q) && (Runners(q) > 0 || q.jobs != [])
    ensures Enabled(q, s) && !s.Add?
  {
    s := if q.starting > 0 then Start else if q.pending > 0 then Begin else if q.busy != [] then Finish(0)
         else if q.jobs != [] then Take else Stop;
  }

  /**
   Every run can go on, without a new job, to a state in which all goroutines have ended and every job added was executed;
   and it gets there in exactly `StepsLeft` steps, whichever goroutine moves.
   */
  lemma {:induction false} Drains(states: seq<Queue>, steps: seq<Step>) returns (more: seq<Queue>, todo: seq<Step>)
    requires Run(states, steps)
    ensures Run(states + more, steps + todo) && |todo| == |more| == StepsLeft(states[|steps|])
    ensures forall i :: 0 <= i < |todo| ==> !todo[i].Add?
    ensures var q := (states + more)[|steps + todo|];
            Runners(q) == 0 && q.jobs == [] && q.added == states[|steps|].added && multiset(q.done) == multiset(q.added)
    decreases StepsLeft(states[|steps|])
  {
    var q := states[|steps|];
    RunSound(states, steps, |steps|);
    if Runners(q) == 0 {
      QuietMeansDone(states, steps, |steps|);
      more, todo := [], [];
      assert states + more == states && steps + todo == steps;
    } else {
      var s := NeverStuck(q);
      EveryStepCounts(q, s);
      RunOn(states, steps, s);
      var rest, later := Drains(states + [Next(q, s)], steps + [s]);
      more, todo := [Next(q, s)] + rest, [s] + later;
      assert states + more == states + [Next(q, s)] + rest && steps + todo == steps + [s] + later;
    }
  }

  lemma RunOn(states: seq<Queue>, steps: seq<Step>, s: Step)
    requires Run(states, steps) && Enabled(states[|steps|], s)
    ensures Run(states + [Next(states[|steps|], s)], steps + [s])
  {
    var longer, all := states + [Next(states[|steps|], s)], steps + [s];
    forall i | 0 <= i < |all| ensures StepAt(longer, all, i) {
      if i < |steps| { assert StepAt(states, steps, i); }
    }
  }

  // ---------------------------------------------------------------------------------------
  // Order of execution
  // ---------------------------------------------------------------------------------------

  /** A job is added while a goroutine is on its way, but does not yet count as running. */
  predicate Overlaps(q: Queue, s: Step) { s.Add? && !q.running && Runners(q) > 0 }

  /** At most one goroutine, and it counts as running once it is in its loop. */
  predicate Single(q: Queue) { Runners(q) <= 1 && (Live(q) == 1 ==> q.running) && q.taken == q.done + q.busy }

  lemma SingleStep(q: Queue, s: Step)
    requires Sound(q) && Single(q) && Enabled(q, s)
    ensures Single(Next(q, s)) <==> !Overlaps(q, s)
  {
    match s
    case Take => assert q.done + q.busy + [q.jobs[0]] == q.done + [q.jobs[0]];
    case Finish(i) => assert q.done + q.busy == q.done + [q.busy[i]] + [];
    case Add(_) =>
    case Start =>
    case Begin =>
    case Stop =>
  }

  predicate AlwaysSingle(states: seq<Queue>, n: nat)
    requires n <= |states|
  {
    forall i :: 0 <= i < n ==> Single(states[i])
  }

  predicate NeverOverlaps(states: seq<Queue>, steps: seq<Step>, n: nat)
    requires n <= |steps| < |states|
  {
    forall i :: 0 <= i < n ==> !Overlaps(states[i], steps[i])
  }

  lemma SingleUpTo(states: seq<Queue>, n: nat)
    requires n < |states|
    ensures AlwaysSingle(states, n + 1) <==> AlwaysSingle(states, n) && Single(states[n])
  {
  }

  lemma OverlapsUpTo(states: seq<Queue>, steps: seq<Step>, n: nat)
    requires n < |steps| < |states|
    ensures NeverOverlaps(states, steps, n + 1) <==> NeverOverlaps(states, steps, n) && !Overlaps(states[n], steps[n])
  {
  }

  /**
   There is never more than one goroutine, and jobs are executed in the order of their arrival, exactly as long
   as no job is added between the start of a goroutine and its first step.
   */
  lemma {:induction false} RunSingle(states: seq<Queue>, steps: seq<Step>, n: nat)
    requires Run(states, steps) && n < |states|
    ensures AlwaysSingle(states, n + 1) <==> NeverOverlaps(states, steps, n)
  {
    if n == 0 {
      SingleFirst(states, steps);
    } else {
      RunSingle(states, steps, n - 1);
      SingleMore(states, steps, n - 1);
    }
  }

  lemma SingleFirst(states: seq<Queue>, steps: seq<Step>)
    requires Run(states, steps)
    ensures AlwaysSingle(states, 1) && NeverOverlaps(states, steps, 0)
  {
    assert Single(states[0]);
  }

  lemma SingleMore(states: seq<Queue>, steps: seq<Step>, i: nat)
    requires Run(states, steps) && i < |steps|
    requires AlwaysSingle(states, i + 1) <==> NeverOverlaps(states, steps, i)
    ensures AlwaysSingle(states, i + 2) <==> NeverOverlaps(states, steps, i + 1)
  {
    SingleUpTo(states, i + 1);
    OverlapsUpTo(states, steps, i);
    if AlwaysSingle(states, i + 1) { SingleNext(states, steps, i); }
  }

  lemma SingleNext(states: seq<Queue>, steps: seq<Step>, i: nat)
    requires Run(states, steps) && i < |steps| && Single(states[i])
    ensures Single(states[i + 1]) <==> !Overlaps(states[i], steps[i])
  {
    RunSound(states, steps, i);
    assert StepAt(states, steps, i);
    SingleStep(states[i], steps[i]);
  }

  lemma ExecutedInOrder(states: seq<Queue>, steps: seq<Step>, i: nat)
    requires Run(states, steps) && i < |states| && NeverOverlaps(states, steps, i)
    ensures states[i].done <= states[i].added
  {
    RunSingle(states, steps, i);
    RunSound(states, steps, i);
    assert Single(states[i]);
  }

  /** Otherwise a job can be executed before one that arrived earlier. */
  lemma OutOfOrder() returns (states: seq<Queue>, steps: seq<Step>)
    ensures Run(states, steps) && states[|steps|].added == [1, 2] && states[|steps|].done == [2, 1]
  {
    steps := [Add(1), Add(2), Start, Start, Begin, Begin, Take, Take, Finish(1), Finish(0)];
    var q0 := Queue([], false, 0, 0, 0, [], [], [], []);
    var q1 := Next(q0, Add(1));
    var q2 := Next(q1, Add(2));
    var q3 := Next(q2, Start);
    var q4 := Next(q3, Start);
    var q5 := Next(q4, Begin);
    var q6 := Next(q5, Begin);
    var q7 := Next(q6, Take);
    var q8 := Next(q7, Take);
    var q9 := Next(q8, Finish(1));
    var q10 := Next(q9, Finish(0));
    states := [q0, q1, q2, q3, q4, q5, q6, q7, q8, q9, q10];
  }
}
