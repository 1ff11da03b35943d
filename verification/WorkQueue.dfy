/** The rate-limited work queue the pod controller's workers share: a de-duplicating queue,
    a set of keys waiting for a retry, and a failure count per key. */
module WorkQueue {
  type Key = string

  datatype Queue = Queue(
    queue: seq<Key>,
    dirty: set<Key>,
    processing: set<Key>,
    waiting: set<Key>,
    failures: map<Key, nat>,
    shuttingDown: bool)

  const EMPTY_QUEUE := Queue([], {}, {}, {}, map[], false)

  function Count(m: map<Key, nat>, k: Key): nat {
    if k in m then m[k] else 0
  }

  // ----- The operations, on values -----

  function Add(q: Queue, k: Key): Queue {
    if q.shuttingDown || k in q.dirty then q
    else if k in q.processing then q.(dirty := q.dirty + {k})
    else q.(dirty := q.dirty + {k}, queue := q.queue + [k])
  }

  function Get(q: Queue): Queue
    requires q.queue != []
  {
    q.(queue := q.queue[1..], processing := q.processing + {q.queue[0]}, dirty := q.dirty - {q.queue[0]})
  }

  function Done(q: Queue, k: Key): Queue {
    q.(processing := q.processing - {k}, queue := if k in q.dirty then q.queue + [k] else q.queue)
  }

  /** Counts one more failure, then schedules the key unless the queue is shutting down. */
  function AddRateLimited(q: Queue, k: Key): Queue {
    var counted := q.(failures := q.failures[k := Count(q.failures, k) + 1]);
    if q.shuttingDown then counted else counted.(waiting := q.waiting + {k})
  }

  /** A waiting key's delay has passed. */
  function Fire(q: Queue, k: Key): Queue {
    Add(q.(waiting := q.waiting - {k}), k)
  }

  function Forget(q: Queue, k: Key): Queue {
    q.(failures := q.failures - {k})
  }

  /** Queued exactly when dirty and not being processed, and at most once. */
  ghost predicate QueueOk(q: Queue) {
    && (forall i, j :: 0 <= i < j < |q.queue| ==> q.queue[i] != q.queue[j])
    && (forall k :: k in q.queue <==> k in q.dirty && k !in q.processing)
  }

  lemma AddKeeps(q: Queue, k: Key)
    requires QueueOk(q)
    ensures QueueOk(Add(q, k))
  {
  }

  lemma GetKeeps(q: Queue)
    requires QueueOk(q) && q.queue != []
    ensures QueueOk(Get(q)) && q.queue[0] !in q.processing && q.queue[0] !in Get(q).dirty
  {
    var k := q.queue[0];
    assert k in q.queue;
    forall x
      ensures x in q.queue[1..] <==> x in q.queue && x != k
    {
      if x in q.queue && x != k {
        var i :| 0 <= i < |q.queue| && q.queue[i] == x;
        assert q.queue[1..][i - 1] == x;
      }
    }
  }

  lemma DoneKeeps(q: Queue, k: Key)
    requires QueueOk(q) && k in q.processing
    ensures QueueOk(Done(q, k))
  {
  }

  // ----- The queue object -----

  class RateLimitingQueue {
    var queue: seq<Key>
    var dirty: set<Key>
    var processing: set<Key>
    var waiting: set<Key>
    var failures: map<Key, nat>
    var shuttingDown: bool

    ghost function State(): Queue
      reads this
    {
      Queue(queue, dirty, processing, waiting, failures, shuttingDown)
    }

    constructor ()
      ensures State() == EMPTY_QUEUE
    {
      queue, dirty, processing, waiting, failures, shuttingDown := [], {}, {}, {}, map[], false;
    }

    method AddKey(k: Key)
      modifies this
      ensures State() == Add(old(State()), k)
      ensures old(shuttingDown) ==> State() == old(State())
      ensures !old(shuttingDown) ==>
                && dirty == old(dirty) + {k}
                && queue == old(queue) + if k in old(dirty) || k in processing then [] else [k]
    {
      if shuttingDown { return; }
      if k in dirty { return; }
      dirty := dirty + {k};
      if k in processing { return; }
      queue := queue + [k];
    }

    /** Blocks while the queue is empty and not shutting down, hence the precondition. */
    method GetKey() returns (k: Key, quit: bool)
      requires queue != [] || shuttingDown
      modifies this
      ensures quit == (old(queue) == [])
      ensures if quit then State() == old(State()) else k == old(queue[0]) && State() == Get(old(State()))
    {
      if |queue| == 0 { return "", true; }
      k := queue[0];
      queue := queue[1..];
      processing := processing + {k};
      dirty := dirty - {k};
      quit := false;
    }

    method DoneKey(k: Key)
      modifies this
      ensures State() == Done(old(State()), k)
    {
      processing := processing - {k};
      if k in dirty {
        queue := queue + [k];
      }
    }

    method AddKeyRateLimited(k: Key)
      modifies this
      ensures State() == AddRateLimited(old(State()), k)
    {
      failures := failures[k := Count(failures, k) + 1];
      if shuttingDown { return; }
      waiting := waiting + {k};
    }

    method ForgetKey(k: Key)
      modifies this
      ensures State() == Forget(old(State()), k)
    {
      failures := failures - {k};
    }

    method NumRequeues(k: Key) returns (n: nat)
      ensures n == Count(failures, k)
    {
      n := if k in failures then failures[k] else 0;
    }

    method ShutDown()
      modifies this
      ensures State() == old(State()).(shuttingDown := true)
    {
      shuttingDown := true;
    }
  }
}
