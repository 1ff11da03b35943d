/** The controller's own code: one worker handling items of the queue object, and the proof
    that handling one item is one stretch of a run of the state machine. */
module ControllerLoop {
  import opened Options
  import opened WorkQueue
  import opened Controller

  /** What handling the first key of the queue does to the queue. */
  function ProcessOne(q: Queue, ok: bool): Queue
    requires q.queue != []
  {
    var k := q.queue[0];
    var taken := Get(q);
    var handled :=
      if ok then Forget(taken, k)
      else if Count(taken.failures, k) < MAX_RETRIES then AddRateLimited(taken, k)
      else Forget(taken, k);
    Done(handled, k)
  }

  class PodController {
    const queue: RateLimitingQueue
    /** The keys whose lookup in the index fails. */
    var broken: set<Key>

    constructor (queue: RateLimitingQueue)
      ensures this.queue == queue
    {
      this.queue := queue;
      broken := {};
    }

    /** Fails exactly when the index lookup fails; a missing pod is not a failure. */
    method SyncToStdout(k: Key) returns (err: bool)
      ensures err == (k in broken)
    {
      err := k in broken;
    }

    method HandleErr(err: bool, k: Key)
      modifies queue
      ensures queue.State() ==
              if !err then Forget(old(queue.State()), k)
              else if Count(old(queue.failures), k) < MAX_RETRIES then AddRateLimited(old(queue.State()), k)
              else Forget(old(queue.State()), k)
    {
      if !err {
        queue.ForgetKey(k);
        return;
      }
      var n := queue.NumRequeues(k);
      if n < MAX_RETRIES {
        queue.AddKeyRateLimited(k);
        return;
      }
      queue.ForgetKey(k);
    }

    /** False exactly when the queue is shut down and drained. */
    method ProcessNextItem() returns (more: bool)
      requires queue.queue != [] || queue.shuttingDown
      modifies queue
      ensures more == (old(queue.queue) != [])
      ensures queue.State() ==
              if more then ProcessOne(old(queue.State()), old(queue.queue[0]) !in broken) else old(queue.State())
    {
      var k, quit := queue.GetKey();
      if quit { return false; }
      var err := SyncToStdout(k);
      HandleErr(err, k);
      queue.DoneKey(k);
      return true;
    }

    /** The worker loop, once the queue is shutting down: it drains what is queued, each key
        once, schedules no retry, and stops. */
    method RunWorker()
      requires queue.shuttingDown && QueueOk(queue.State()) && queue.processing == {}
      modifies queue
      ensures queue.queue == [] && queue.dirty == {} && queue.processing == {}
      ensures queue.waiting == old(queue.waiting) && queue.shuttingDown
    {
      var more := true;
      while more
        invariant queue.shuttingDown && QueueOk(queue.State()) && queue.processing == {}
        invariant queue.waiting == old(queue.waiting)
        invariant !more ==> queue.queue == []
        decreases more, |queue.queue|
      {
        if queue.queue != [] {
          OneLess(queue.State(), queue.queue[0] !in broken);
        }
        more := ProcessNextItem();
      }
      assert forall k :: k in queue.dirty ==> k in queue.queue;
    }
  }

  /** After shutdown a handled key does not come back. */
  lemma OneLess(q: Queue, ok: bool)
    requires q.queue != [] && q.shuttingDown && QueueOk(q) && q.processing == {}
    ensures var q' := ProcessOne(q, ok);
            QueueOk(q') && q'.queue == q.queue[1..] && q'.processing == {} && q'.shuttingDown && q'.waiting == q.waiting
  {
    GetKeeps(q);
    var k := q.queue[0];
    var taken := Get(q);
    var handled := if ok || Count(taken.failures, k) >= MAX_RETRIES then Forget(taken, k) else AddRateLimited(taken, k);
    DoneKeeps(handled, k);
  }

  /** Both cases of an item begin by taking the key and reading the index. */
  lemma Begin(s: State, w: nat, ok: bool)
    requires w < |s.workers| && s.workers[w].Idle? && s.q.queue != []
    ensures var k := s.q.queue[0];
            var s1, s2 := TakeStep(s, w), SyncStep(TakeStep(s, w).value, w, ok);
            && s1.Some? && s2.Some? && s2.value.q == Get(s.q)
            && s2.value.workers == s.workers[w := if ok then Synced(k) else Failed(k, Count(s.version, k))]
  {
  }

  lemma End(s: State, w: nat, k: Key)
    requires w < |s.workers| && s.workers[w] == Finishing(k)
    ensures FinishStep(s, w).Some? && FinishStep(s, w).value.q == Done(s.q, k)
    ensures FinishStep(s, w).value.workers == s.workers[w := Idle]
  {
  }

  lemma GoodItem(s: State, w: nat)
    requires w < |s.workers| && s.workers[w].Idle? && s.q.queue != []
    ensures var r := Run(s, [Take(w), Sync(w, true), Succeed(w), Finish(w)]);
            r.Some? && r.value.q == ProcessOne(s.q, true) && r.value.workers == s.workers
  {
    Begin(s, w, true);
    var s1 := TakeStep(s, w).value;
    var s2 := SyncStep(s1, w, true).value;
    hide TakeStep, SyncStep, FinishStep;
    var s3 := SucceedStep(s2, w).value;
    End(s3, w, s.q.queue[0]);
    RunFour(s, s1, s2, s3, FinishStep(s3, w).value, Take(w), Sync(w, true), Succeed(w), Finish(w));
    assert s3.workers[w := Idle] == s.workers;
  }

  lemma BadItem(s: State, w: nat)
    requires w < |s.workers| && s.workers[w].Idle? && s.q.queue != []
    ensures var act := if Count(s.q.failures, s.q.queue[0]) < MAX_RETRIES then Retry(w) else Drop(w);
            var r := Run(s, [Take(w)] + [Sync(w, false), Decide(w), act, Finish(w)]);
            r.Some? && r.value.q == ProcessOne(s.q, false) && r.value.workers == s.workers
  {
    Begin(s, w, false);
    var k := s.q.queue[0];
    var s1 := TakeStep(s, w).value;
    var s2 := SyncStep(s1, w, false).value;
    var retry := Count(s.q.failures, k) < MAX_RETRIES;
    hide TakeStep, SyncStep, FinishStep;
    var act := if retry then Retry(w) else Drop(w);
    var s3 := DecideStep(s2, w).value;
    Acted(s3, w, k, retry);
    var s4 := if retry then RetryStep(s3, w).value else DropStep(s3, w).value;
    End(s4, w, k);
    RunFour(s1, s2, s3, s4, FinishStep(s4, w).value, Sync(w, false), Decide(w), act, Finish(w));
    RunOne(s, s1, Take(w), [Sync(w, false), Decide(w), act, Finish(w)]);
    assert s4.workers[w := Idle] == s.workers;
  }

  lemma Acted(s: State, w: nat, k: Key, retry: bool)
    requires w < |s.workers| && if retry then s.workers[w].Retrying? else s.workers[w].Dropping?
    requires s.workers[w].key == k
    ensures var r := if retry then RetryStep(s, w) else DropStep(s, w);
            && r.Some? && r.value.workers == s.workers[w := Finishing(k)]
            && r.value.q == if retry then AddRateLimited(s.q, k) else Forget(s.q, k)
  {
  }

  /** One worker's code, run without interruption, is a run of the state machine. */
  lemma ItemIsARun(s: State, w: nat, ok: bool) returns (steps: seq<Step>)
    requires w < |s.workers| && s.workers[w].Idle? && s.q.queue != []
    ensures |steps| >= 4 && steps[0] == Take(w) && steps[1] == Sync(w, ok) && steps[|steps| - 1] == Finish(w)
    ensures Run(s, steps).Some? && Run(s, steps).value.q == ProcessOne(s.q, ok) && Run(s, steps).value.workers == s.workers
  {
    hide Run, ProcessOne;
    if ok {
      GoodItem(s, w);
      steps := [Take(w), Sync(w, true), Succeed(w), Finish(w)];
    } else {
      BadItem(s, w);
      var act := if Count(s.q.failures, s.q.queue[0]) < MAX_RETRIES then Retry(w) else Drop(w);
      steps := [Take(w)] + [Sync(w, false), Decide(w), act, Finish(w)];
    }
  }

  lemma RunOne(s: State, s': State, step: Step, steps: seq<Step>)
    requires Next(s, step) == Some(s')
    ensures Run(s, [step] + steps) == Run(s', steps)
  {
    assert ([step] + steps)[1..] == steps;
  }

  lemma RunFour(s0: State, s1: State, s2: State, s3: State, s4: State, a: Step, b: Step, c: Step, d: Step)
    requires Next(s0, a) == Some(s1) && Next(s1, b) == Some(s2) && Next(s2, c) == Some(s3) && Next(s3, d) == Some(s4)
    ensures Run(s0, [a, b, c, d]) == Some(s4)
  {
    hide Next;
    RunOne(s3, s4, d, []);
    RunOne(s2, s3, c, [d]);
    RunOne(s1, s2, b, [c, d]);
    RunOne(s0, s1, a, [b, c, d]);
    assert [d] + [] == [d] && [c] + [d] == [c, d] && [b] + [c, d] == [b, c, d] && [a] + [b, c, d] == [a, b, c, d];
  }
}
