/** What holds over whole runs of the controller, from any number of idle workers on. */
module ControllerRuns {
  import opened Options
  import opened WorkQueue
  import opened Controller

  lemma InitOk(n: nat)
    ensures Inv(Init(n))
  {
  }

  /** The invariant holds in every state of every run of any number of workers. */
  lemma EveryRun(n: nat, steps: seq<Step>)
    requires Run(Init(n), steps).Some?
    ensures Inv(Run(Init(n), steps).value)
  {
    InitOk(n);
    RunKeeps(Init(n), steps);
  }

  /** No key is processed by two workers at once. */
  lemma NeverTwice(n: nat, steps: seq<Step>, v: nat, w: nat, k: Key)
    requires Run(Init(n), steps).Some?
    requires var s := Run(Init(n), steps).value; v < w < |s.workers| && Holds(s.workers[v], k)
    ensures !Holds(Run(Init(n), steps).value.workers[w], k)
  {
    EveryRun(n, steps);
  }

  /** A key taken is given back before it is taken again: takes and returns differ by the one
      still in processing. */
  lemma TakesMatchReturns(n: nat, steps: seq<Step>, k: Key)
    requires Run(Init(n), steps).Some?
    ensures var s := Run(Init(n), steps).value;
            Count(s.gets, k) == Count(s.dones, k) + if k in s.q.processing then 1 else 0
  {
    EveryRun(n, steps);
    assert BalancedAt(Run(Init(n), steps).value, k);
  }

  predicate AtRest(s: State) {
    && s.q.queue == [] && s.q.waiting == {} && s.pending.None?
    && forall w :: 0 <= w < |s.workers| ==> s.workers[w].Idle?
  }

  /** When nothing is left to do, every key was synced at its newest version or given up at it. */
  lemma NothingLost(n: nat, steps: seq<Step>, k: Key)
    requires Run(Init(n), steps).Some?
    requires !Run(Init(n), steps).value.q.shuttingDown && AtRest(Run(Init(n), steps).value)
    ensures Settled(Run(Init(n), steps).value, k)
  {
    EveryRun(n, steps);
    var s := Run(Init(n), steps).value;
    assert CoveredAt(s, k);
    assert k in s.q.dirty ==> k in s.q.processing;
  }

  /** Keys are given up exactly at their sixth failed sync in a row, and never sooner. */
  lemma DroppedAtSix(n: nat, steps: seq<Step>, w: nat)
    requires Run(Init(n), steps).Some? && w < |Run(Init(n), steps).value.workers|
    ensures var s := Run(Init(n), steps).value; var x := s.workers[w];
            && (x.Dropping? ==> Count(s.streak, x.key) == MAX_RETRIES + 1)
            && (x.Retrying? ==> Count(s.streak, x.key) <= MAX_RETRIES)
            && (x.Failed? ==> (Next(s, Decide(w)).value.workers[w].Dropping? <==> Count(s.streak, x.key) == MAX_RETRIES + 1))
  {
    EveryRun(n, steps);
    var s := Run(Init(n), steps).value;
    if !s.workers[w].Idle? {
      assert BudgetAt(s, s.workers[w].key);
      assert Failing(s.workers[w], s.workers[w].key) || !Failing(s.workers[w], s.workers[w].key);
    }
  }

  ghost predicate NothingNew(q: Queue, q': Queue) {
    q'.shuttingDown && q'.dirty <= q.dirty && q'.waiting <= q.waiting && forall k <- q'.queue :: k in q.dirty
  }

  lemma StopStep(s: State, step: Step)
    requires QueueOk(s.q) && s.q.shuttingDown && Next(s, step).Some?
    ensures NothingNew(s.q, Next(s, step).value.q)
  {
    hide Count, Bump;
    match step
    case Take(w) => assert forall k <- s.q.queue[1..] :: k in s.q.queue;
    case Update(_) =>
    case Notify =>
    case Expire(_) =>
    case Sync(_, _) =>
    case Succeed(_) =>
    case Decide(_) =>
    case Retry(_) =>
    case Drop(_) =>
    case Finish(_) =>
    case Stop =>
  }

  /** Once the queue was told to stop, no key enters it that was not already owed, and no retry
      is scheduled, in any run. */
  lemma {:induction false} NothingAddedAfterStop(s: State, steps: seq<Step>)
    requires Inv(s) && s.q.shuttingDown && Run(s, steps).Some?
    ensures NothingNew(s.q, Run(s, steps).value.q)
    decreases |steps|
  {
    hide Next, Inv, QueueOk;
    QueueNow(s);
    if steps != [] {
      StepKeeps(s, steps[0]);
      StopStep(s, steps[0]);
      NothingAddedAfterStop(Next(s, steps[0]).value, steps[1..]);
    }
  }

  lemma QueueNow(s: State)
    requires Inv(s)
    ensures QueueOk(s.q) && (s.q.shuttingDown ==> NothingNew(s.q, s.q))
  {
  }
}
