/** The pod controller: any number of workers on one queue, an informer that updates the
    index and then adds the key, and a retry budget. Every interleaving of their atomic
    steps is a run. */
module Controller {
  import opened Options
  import opened WorkQueue

  /** Where a worker is inside processNextItem. `seen` is the index version its sync read. */
  datatype Worker =
    | Idle
    | Holding(key: Key)
    | Synced(key: Key)
    | Failed(key: Key, seen: nat)
    | Retrying(key: Key, seen: nat)
    | Dropping(key: Key, seen: nat)
    | Finishing(key: Key)

  /** `version` counts the events applied to the index per key; the last five fields record
      the run: the newest version synced, the version at which a key was given up, failed
      syncs since the last Forget, and how often a key was taken and given back. */
  datatype State = State(
    q: Queue,
    version: map<Key, nat>,
    pending: Option<Key>,
    workers: seq<Worker>,
    synced: map<Key, nat>,
    dropped: map<Key, nat>,
    streak: map<Key, nat>,
    gets: map<Key, nat>,
    dones: map<Key, nat>)

  const MAX_RETRIES := 5

  datatype Step =
    | Update(k: Key)            // the informer applies an event to the index
    | Notify                    // and then calls the handler, which adds the key
    | Expire(k: Key)            // a retry delay passes
    | Take(w: nat)              // queue.Get
    | Sync(w: nat, ok: bool)    // syncToStdout reads the index
    | Succeed(w: nat)           // handleErr without an error: Forget
    | Decide(w: nat)            // handleErr with one: NumRequeues is compared with the budget
    | Retry(w: nat)             // AddRateLimited
    | Drop(w: nat)              // or Forget and report
    | Finish(w: nat)            // the deferred queue.Done
    | Stop                      // queue.ShutDown

  function Init(n: nat): State {
    State(EMPTY_QUEUE, map[], None, seq(n, _ => Idle), map[], map[], map[], map[], map[])
  }

  function Bump(m: map<Key, nat>, k: Key): map<Key, nat> {
    m[k := Count(m, k) + 1]
  }

  function At(s: State, w: nat): Worker {
    if w < |s.workers| then s.workers[w] else Idle
  }

  function Move(s: State, w: nat, x: Worker): State
    requires w < |s.workers|
  {
    s.(workers := s.workers[w := x])
  }

  function TakeStep(s: State, w: nat): Option<State> {
    if w >= |s.workers| || !s.workers[w].Idle? || s.q.queue == [] then None
    else
      var k := s.q.queue[0];
      Some(Move(s, w, Holding(k)).(q := Get(s.q), gets := Bump(s.gets, k)))
  }

  function SyncStep(s: State, w: nat, ok: bool): Option<State> {
    if !At(s, w).Holding? then None
    else
      var k := s.workers[w].key;
      var seen := Count(s.version, k);
      if ok then Some(Move(s, w, Synced(k)).(synced := s.synced[k := seen]))
      else Some(Move(s, w, Failed(k, seen)).(streak := Bump(s.streak, k)))
  }

  function SucceedStep(s: State, w: nat): Option<State> {
    if !At(s, w).Synced? then None
    else
      var k := s.workers[w].key;
      Some(Move(s, w, Finishing(k)).(q := Forget(s.q, k), streak := s.streak[k := 0]))
  }

  function DecideStep(s: State, w: nat): Option<State> {
    if !At(s, w).Failed? then None
    else
      var k, seen := s.workers[w].key, s.workers[w].seen;
      Some(Move(s, w, if Count(s.q.failures, k) < MAX_RETRIES then Retrying(k, seen) else Dropping(k, seen)))
  }

  function RetryStep(s: State, w: nat): Option<State> {
    if !At(s, w).Retrying? then None
    else
      var k := s.workers[w].key;
      Some(Move(s, w, Finishing(k)).(q := AddRateLimited(s.q, k)))
  }

  function DropStep(s: State, w: nat): Option<State> {
    if !At(s, w).Dropping? then None
    else
      var k, seen := s.workers[w].key, s.workers[w].seen;
      Some(Move(s, w, Finishing(k)).(q := Forget(s.q, k), dropped := s.dropped[k := seen], streak := s.streak[k := 0]))
  }

  function FinishStep(s: State, w: nat): Option<State> {
    if !At(s, w).Finishing? then None
    else
      var k := s.workers[w].key;
      Some(Move(s, w, Idle).(q := Done(s.q, k), dones := Bump(s.dones, k)))
  }

  /** One atomic step; None when it is not enabled. */
  function Next(s: State, step: Step): Option<State> {
    match step
    case Update(k) =>
      if s.pending.Some? then None else Some(s.(version := Bump(s.version, k), pending := Some(k)))
    case Notify =>
      if s.pending.None? then None else Some(s.(q := Add(s.q, s.pending.value), pending := None))
    case Expire(k) =>
      if k !in s.q.waiting then None else Some(s.(q := Fire(s.q, k)))
    case Take(w) => TakeStep(s, w)
    case Sync(w, ok) => SyncStep(s, w, ok)
    case Succeed(w) => SucceedStep(s, w)
    case Decide(w) => DecideStep(s, w)
    case Retry(w) => RetryStep(s, w)
    case Drop(w) => DropStep(s, w)
    case Finish(w) => FinishStep(s, w)
    case Stop => Some(s.(q := s.q.(shuttingDown := true)))
  }

  function Run(s: State, steps: seq<Step>): Option<State>
    decreases |steps|
  {
    if steps == [] then Some(s)
    else
      match Next(s, steps[0])
      case None => None
      case Some(s') => Run(s', steps[1..])
  }

  // ----- What every state of every run satisfies -----

  predicate Holds(w: Worker, k: Key) {
    !w.Idle? && w.key == k
  }

  /** The worker still has to read the index for k, or to retry or give up after failing to. */
  predicate Owes(w: Worker, k: Key) {
    Holds(w, k) && (w.Holding? || w.Failed? || w.Retrying? || w.Dropping?)
  }

  predicate Failing(w: Worker, k: Key) {
    Holds(w, k) && (w.Failed? || w.Retrying? || w.Dropping?)
  }

  /** Keys in processing are exactly those held, each by one worker only. */
  ghost predicate Exclusive(s: State) {
    && (forall w :: 0 <= w < |s.workers| && !s.workers[w].Idle? ==> s.workers[w].key in s.q.processing)
    && (forall k <- s.q.processing :: exists w :: 0 <= w < |s.workers| && Holds(s.workers[w], k))
    && (forall v, w :: 0 <= v < w < |s.workers| && !s.workers[v].Idle? ==> !Holds(s.workers[w], s.workers[v].key))
  }

  ghost predicate BalancedAt(s: State, k: Key) {
    Count(s.gets, k) == Count(s.dones, k) + if k in s.q.processing then 1 else 0
  }

  /** The failure count is the streak of failed syncs, less the one being handled. */
  ghost predicate BudgetAt(s: State, k: Key) {
    && Count(s.q.failures, k) <= MAX_RETRIES
    && (forall w :: 0 <= w < |s.workers| && Failing(s.workers[w], k) ==>
          && Count(s.streak, k) == Count(s.q.failures, k) + 1
          && (s.workers[w].Retrying? ==> Count(s.q.failures, k) < MAX_RETRIES)
          && (s.workers[w].Dropping? ==> Count(s.q.failures, k) == MAX_RETRIES))
    && ((forall w :: 0 <= w < |s.workers| ==> !Failing(s.workers[w], k)) ==> Count(s.streak, k) == Count(s.q.failures, k))
  }

  predicate Settled(s: State, k: Key) {
    Count(s.version, k) <= Count(s.synced, k) || Count(s.version, k) <= Count(s.dropped, k)
  }

  predicate Queued(s: State, k: Key) {
    k in s.q.dirty || s.pending == Some(k)
  }

  /** No update is lost: the key's newest version was synced or given up, or the key is
      dirty, about to be added, waiting for a retry, or owed by a worker. */
  ghost predicate CoveredAt(s: State, k: Key) {
    && (Settled(s, k) || Queued(s, k) || k in s.q.waiting || exists w :: 0 <= w < |s.workers| && Owes(s.workers[w], k))
    && (forall w :: 0 <= w < |s.workers| && Failing(s.workers[w], k) ==> Count(s.version, k) <= s.workers[w].seen || Queued(s, k))
  }

  ghost predicate Inv(s: State) {
    && QueueOk(s.q)
    && Exclusive(s)
    && (forall k :: BalancedAt(s, k))
    && (forall k :: BudgetAt(s, k))
    && (!s.q.shuttingDown ==> forall k :: CoveredAt(s, k))
  }

  // ----- Every step keeps it -----

  /** Worker w alone moves, from one place inside processNextItem to the next. */
  predicate Moves(step: Step, w: nat) {
    match step
    case Sync(v, _) => v == w
    case Succeed(v) => v == w
    case Decide(v) => v == w
    case Retry(v) => v == w
    case Drop(v) => v == w
    case _ => false
  }

  /** The worker that a step moves; 0 for the steps of nobody. */
  function Mover(step: Step): nat {
    match step
    case Take(w) => w
    case Sync(w, _) => w
    case Succeed(w) => w
    case Decide(w) => w
    case Retry(w) => w
    case Drop(w) => w
    case Finish(w) => w
    case _ => 0
  }

  lemma OnlyMover(s: State, step: Step, w: nat)
    requires Moves(step, w) && Next(s, step).Some?
    ensures var s' := Next(s, step).value;
            && w < |s.workers| && s'.workers == s.workers[w := s'.workers[w]]
            && !s.workers[w].Idle? && !s'.workers[w].Idle? && s'.workers[w].key == s.workers[w].key
            && s'.q.processing == s.q.processing
  {
    hide Count, Bump;
    match step
    case Sync(_, _) =>
    case Succeed(_) =>
    case Decide(_) =>
    case Retry(_) =>
    case Drop(_) =>
  }

  lemma SameQueue(q: Queue, q': Queue)
    requires QueueOk(q) && q'.queue == q.queue && q'.dirty == q.dirty && q'.processing == q.processing
    ensures QueueOk(q')
  {
  }

  lemma QueueStep(s: State, step: Step)
    requires QueueOk(s.q) && Exclusive(s) && Next(s, step).Some?
    ensures QueueOk(Next(s, step).value.q)
  {
    hide QueueOk, Exclusive;
    match step
    case Notify => AddKeeps(s.q, s.pending.value);
    case Expire(k) =>
      SameQueue(s.q, s.q.(waiting := s.q.waiting - {k}));
      AddKeeps(s.q.(waiting := s.q.waiting - {k}), k);
    case Take(_) => GetKeeps(s.q);
    case Finish(w) =>
      Held(s, w);
      DoneKeeps(s.q, s.workers[w].key);
    case _ => SameQueue(s.q, Next(s, step).value.q);
  }

  lemma Held(s: State, w: nat)
    requires Exclusive(s) && w < |s.workers| && !s.workers[w].Idle?
    ensures s.workers[w].key in s.q.processing
  {
  }

  lemma HoldersSame(s: State, s': State)
    requires Exclusive(s) && s'.workers == s.workers && s'.q.processing == s.q.processing
    ensures Exclusive(s')
  {
  }

  /** Only worker w moved: the others hold what they held. */
  lemma HoldersAfter(s: State, s': State, w: nat)
    requires Exclusive(s) && w < |s.workers| && |s'.workers| == |s.workers| && s'.workers == s.workers[w := s'.workers[w]]
    requires
      || (s.workers[w].Idle? && !s'.workers[w].Idle? && s'.workers[w].key !in s.q.processing
          && s'.q.processing == s.q.processing + {s'.workers[w].key})
      || (!s.workers[w].Idle? && s'.workers[w].Idle? && s'.q.processing == s.q.processing - {s.workers[w].key})
      || (!s.workers[w].Idle? && !s'.workers[w].Idle? && s'.workers[w].key == s.workers[w].key && s'.q.processing == s.q.processing)
    ensures Exclusive(s')
  {
    forall k | k in s'.q.processing
      ensures exists v :: 0 <= v < |s'.workers| && Holds(s'.workers[v], k)
    {
      if k in s.q.processing {
        var v :| 0 <= v < |s.workers| && Holds(s.workers[v], k);
        assert v != w ==> Holds(s'.workers[v], k);
        assert v == w ==> Holds(s'.workers[w], k);
      } else {
        assert Holds(s'.workers[w], k);
      }
    }
  }

  lemma ExclusiveTake(s: State, s': State, w: nat)
    requires QueueOk(s.q) && Exclusive(s) && TakeStep(s, w) == Some(s')
    ensures Exclusive(s')
  {
    hide Exclusive, QueueOk;
    GetKeeps(s.q);
    HoldersAfter(s, s', w);
  }

  lemma ExclusiveMove(s: State, step: Step, w: nat)
    requires Exclusive(s) && Moves(step, w) && Next(s, step).Some?
    ensures Exclusive(Next(s, step).value)
  {
    hide Exclusive, Next, Moves;
    OnlyMover(s, step, w);
    HoldersAfter(s, Next(s, step).value, w);
  }

  lemma ExclusiveFinish(s: State, s': State, w: nat)
    requires Exclusive(s) && FinishStep(s, w) == Some(s')
    ensures Exclusive(s')
  {
    hide Exclusive;
    Held(s, w);
    HoldersAfter(s, s', w);
  }

  lemma ExclusiveStep(s: State, step: Step)
    requires QueueOk(s.q) && Exclusive(s) && Next(s, step).Some?
    ensures Exclusive(Next(s, step).value)
  {
    hide Exclusive, QueueOk, TakeStep, SyncStep, SucceedStep, DecideStep, RetryStep, DropStep, FinishStep;
    var s' := Next(s, step).value;
    match step
    case Take(w) => ExclusiveTake(s, s', w);
    case Finish(w) => ExclusiveFinish(s, s', w);
    case _ =>
      if Moves(step, Mover(step)) {
        ExclusiveMove(s, step, Mover(step));
      } else {
        HoldersSame(s, s');
      }
  }

  lemma BalancedTake(s: State, s': State, w: nat, k: Key)
    requires QueueOk(s.q) && BalancedAt(s, k) && TakeStep(s, w) == Some(s')
    ensures BalancedAt(s', k)
  {
    hide QueueOk;
    GetKeeps(s.q);
  }

  lemma BalancedFinish(s: State, s': State, w: nat, k: Key)
    requires Exclusive(s) && BalancedAt(s, k) && FinishStep(s, w) == Some(s')
    ensures BalancedAt(s', k)
  {
    hide Exclusive;
    Held(s, w);
  }

  ghost predicate SameLedger(s: State, s': State) {
    s'.gets == s.gets && s'.dones == s.dones && s'.q.processing == s.q.processing
  }

  lemma LedgerKept(s: State, w: nat, ok: bool)
    ensures SyncStep(s, w, ok).Some? ==> SameLedger(s, SyncStep(s, w, ok).value)
    ensures SucceedStep(s, w).Some? ==> SameLedger(s, SucceedStep(s, w).value)
    ensures DecideStep(s, w).Some? ==> SameLedger(s, DecideStep(s, w).value)
    ensures RetryStep(s, w).Some? ==> SameLedger(s, RetryStep(s, w).value)
    ensures DropStep(s, w).Some? ==> SameLedger(s, DropStep(s, w).value)
  {
  }

  lemma BalancedStep(s: State, step: Step, k: Key)
    requires QueueOk(s.q) && Exclusive(s) && BalancedAt(s, k) && Next(s, step).Some?
    ensures BalancedAt(Next(s, step).value, k)
  {
    hide QueueOk, Exclusive, TakeStep, SyncStep, SucceedStep, DecideStep, RetryStep, DropStep, FinishStep;
    var s' := Next(s, step).value;
    match step
    case Take(w) => BalancedTake(s, s', w, k);
    case Sync(w, ok) => LedgerKept(s, w, ok);
    case Succeed(w) => LedgerKept(s, w, true);
    case Decide(w) => LedgerKept(s, w, true);
    case Retry(w) => LedgerKept(s, w, true);
    case Drop(w) => LedgerKept(s, w, true);
    case Finish(w) => BalancedFinish(s, s', w, k);
    case _ =>
  }

  /** Worker w alone moved; on k it is failing neither before nor after. */
  lemma FailingElsewhere(s: State, s': State, w: nat, k: Key)
    requires w < |s.workers| && |s'.workers| == |s.workers| && s'.workers == s.workers[w := s'.workers[w]]
    requires !Failing(s.workers[w], k) && !Failing(s'.workers[w], k)
    requires BudgetAt(s, k) && Count(s'.q.failures, k) == Count(s.q.failures, k) && Count(s'.streak, k) == Count(s.streak, k)
    ensures BudgetAt(s', k)
  {
    assert forall v :: 0 <= v < |s.workers| && v != w ==> s'.workers[v] == s.workers[v];
  }

  /** Worker w holds k, so no other worker fails on it. */
  lemma OnlyHolder(s: State, w: nat)
    requires Exclusive(s) && w < |s.workers| && !s.workers[w].Idle?
    ensures forall v :: 0 <= v < |s.workers| && v != w ==> !Holds(s.workers[v], s.workers[w].key)
  {
  }

  lemma BudgetByHolder(s: State, w: nat, k: Key)
    requires w < |s.workers| && forall v :: 0 <= v < |s.workers| && v != w ==> !Failing(s.workers[v], k)
    requires Count(s.q.failures, k) <= MAX_RETRIES
    requires Count(s.streak, k) == Count(s.q.failures, k) + if Failing(s.workers[w], k) then 1 else 0
    requires s.workers[w].Retrying? ==> Count(s.q.failures, k) < MAX_RETRIES
    requires s.workers[w].Dropping? ==> Count(s.q.failures, k) == MAX_RETRIES
    ensures BudgetAt(s, k)
  {
  }

  lemma BudgetNow(s: State, w: nat, k: Key)
    requires Exclusive(s) && BudgetAt(s, k) && w < |s.workers| && Holds(s.workers[w], k)
    ensures Count(s.q.failures, k) <= MAX_RETRIES
    ensures Count(s.streak, k) == Count(s.q.failures, k) + if Failing(s.workers[w], k) then 1 else 0
    ensures s.workers[w].Retrying? ==> Count(s.q.failures, k) < MAX_RETRIES
    ensures s.workers[w].Dropping? ==> Count(s.q.failures, k) == MAX_RETRIES
  {
    OnlyHolder(s, w);
  }

  /** A move changes nothing about other keys than the worker's own. */
  lemma MoveElsewhere(s: State, step: Step, w: nat, k: Key)
    requires Moves(step, w) && Next(s, step).Some? && w < |s.workers| && !Holds(s.workers[w], k)
    ensures var s' := Next(s, step).value;
            && Count(s'.q.failures, k) == Count(s.q.failures, k) && Count(s'.streak, k) == Count(s.streak, k)
            && s'.version == s.version && s'.pending == s.pending && s'.q.dirty == s.q.dirty
            && (k in s'.q.waiting <==> k in s.q.waiting) && s'.gets == s.gets && s'.q.shuttingDown == s.q.shuttingDown
            && Count(s'.synced, k) == Count(s.synced, k) && Count(s'.dropped, k) == Count(s.dropped, k)
  {
    match step
    case Sync(_, _) =>
    case Succeed(_) =>
    case Decide(_) =>
    case Retry(_) =>
    case Drop(_) =>
  }

  /** What a move does to its worker's own key. */
  lemma MoveHere(s: State, step: Step, w: nat)
    requires Moves(step, w) && Next(s, step).Some? && w < |s.workers|
    ensures !s.workers[w].Idle?
    ensures var s', x, k := Next(s, step).value, s.workers[w], s.workers[w].key;
            var y, failures, streak := s'.workers[w], Count(s'.q.failures, k), Count(s'.streak, k);
            && s'.version == s.version && s'.pending == s.pending && s'.q.dirty == s.q.dirty && s'.gets == s.gets
            && s'.q.shuttingDown == s.q.shuttingDown
            && match step
               case Sync(_, ok) =>
                 && x.Holding? && failures == Count(s.q.failures, k) && s'.q.waiting == s.q.waiting && s'.dropped == s.dropped
                 && if ok then y.Synced? && streak == Count(s.streak, k) && Count(s'.synced, k) == Count(s.version, k)
                    else y == Failed(k, Count(s.version, k)) && streak == Count(s.streak, k) + 1 && s'.synced == s.synced
               case Succeed(_) =>
                 && x.Synced? && y.Finishing? && failures == streak == 0
                 && s'.q.waiting == s.q.waiting && s'.synced == s.synced && s'.dropped == s.dropped
               case Decide(_) =>
                 && x.Failed? && y == (if failures < MAX_RETRIES then Retrying(k, x.seen) else Dropping(k, x.seen))
                 && s'.q == s.q && s'.streak == s.streak && s'.synced == s.synced && s'.dropped == s.dropped
               case Retry(_) =>
                 && x.Retrying? && y.Finishing? && failures == Count(s.q.failures, k) + 1 && streak == Count(s.streak, k)
                 && (s'.q.shuttingDown || k in s'.q.waiting) && s'.synced == s.synced && s'.dropped == s.dropped
               case Drop(_) =>
                 && x.Dropping? && y.Finishing? && failures == streak == 0 && Count(s'.dropped, k) == x.seen
                 && s'.q.waiting == s.q.waiting && s'.synced == s.synced
  {
    match step
    case Sync(_, _) =>
    case Succeed(_) =>
    case Decide(_) =>
    case Retry(_) =>
    case Drop(_) =>
  }

  lemma BudgetMoveHere(s: State, step: Step, w: nat)
    requires Exclusive(s) && Moves(step, w) && Next(s, step).Some? && w < |s.workers| && !s.workers[w].Idle?
    requires BudgetAt(s, s.workers[w].key)
    ensures BudgetAt(Next(s, step).value, s.workers[w].key)
  {
    hide Exclusive, BudgetAt, Next, Count;
    var s' := Next(s, step).value;
    OnlyMover(s, step, w);
    MoveHere(s, step, w);
    OnlyHolder(s, w);
    BudgetNow(s, w, s.workers[w].key);
    assert forall v :: 0 <= v < |s.workers| && v != w ==> s'.workers[v] == s.workers[v];
    BudgetByHolder(s', w, s.workers[w].key);
  }

  lemma BudgetMove(s: State, step: Step, w: nat, k: Key)
    requires Exclusive(s) && BudgetAt(s, k) && Moves(step, w) && Next(s, step).Some?
    ensures BudgetAt(Next(s, step).value, k)
  {
    hide Exclusive, BudgetAt, Next, Moves;
    OnlyMover(s, step, w);
    if s.workers[w].key != k {
      MoveElsewhere(s, step, w, k);
      FailingElsewhere(s, Next(s, step).value, w, k);
    } else {
      BudgetMoveHere(s, step, w);
    }
  }

  lemma BudgetOther(s: State, s': State, w: nat, k: Key)
    requires BudgetAt(s, k) && (TakeStep(s, w) == Some(s') || FinishStep(s, w) == Some(s'))
    ensures BudgetAt(s', k)
  {
    hide BudgetAt;
    FailingElsewhere(s, s', w, k);
  }

  lemma BudgetStep(s: State, step: Step, k: Key)
    requires Exclusive(s) && BudgetAt(s, k) && Next(s, step).Some?
    ensures BudgetAt(Next(s, step).value, k)
  {
    hide Exclusive, TakeStep, SyncStep, SucceedStep, DecideStep, RetryStep, DropStep, FinishStep;
    var s' := Next(s, step).value;
    match step
    case Take(w) => BudgetOther(s, s', w, k);
    case Finish(w) => BudgetOther(s, s', w, k);
    case _ =>
      if Moves(step, Mover(step)) {
        BudgetMove(s, step, Mover(step), k);
      }
  }

  lemma CoveredTake(s: State, s': State, w: nat, k: Key)
    requires QueueOk(s.q) && Exclusive(s) && CoveredAt(s, k) && TakeStep(s, w) == Some(s')
    ensures CoveredAt(s', k)
  {
    hide QueueOk;
    GetKeeps(s.q);
    assert forall v :: 0 <= v < |s.workers| && v != w ==> s'.workers[v] == s.workers[v];
    if k == s.q.queue[0] {
      assert Owes(s'.workers[w], k);
    } else if exists v :: 0 <= v < |s.workers| && Owes(s.workers[v], k) {
      var v :| 0 <= v < |s.workers| && Owes(s.workers[v], k);
      assert Owes(s'.workers[v], k);
    }
  }

  /** Worker w alone moved and does not hold k; nothing about k changed. */
  lemma CoveredElsewhere(s: State, s': State, w: nat, k: Key)
    requires w < |s.workers| && |s'.workers| == |s.workers| && s'.workers == s.workers[w := s'.workers[w]]
    requires !Holds(s.workers[w], k) && !Holds(s'.workers[w], k) && CoveredAt(s, k)
    requires Settled(s, k) ==> Settled(s', k)
    requires Queued(s, k) ==> Queued(s', k)
    requires k in s.q.waiting ==> k in s'.q.waiting
    requires Count(s'.version, k) == Count(s.version, k)
    ensures CoveredAt(s', k)
  {
    assert forall v :: 0 <= v < |s.workers| && v != w ==> s'.workers[v] == s.workers[v];
    if exists v :: 0 <= v < |s.workers| && Owes(s.workers[v], k) {
      var v :| 0 <= v < |s.workers| && Owes(s.workers[v], k);
      assert Owes(s'.workers[v], k);
    }
  }

  lemma CoveredByHolder(s: State, w: nat, k: Key)
    requires w < |s.workers| && forall v :: 0 <= v < |s.workers| && v != w ==> !Failing(s.workers[v], k)
    requires Settled(s, k) || Queued(s, k) || k in s.q.waiting || Owes(s.workers[w], k)
    requires Failing(s.workers[w], k) ==> Count(s.version, k) <= s.workers[w].seen || Queued(s, k)
    ensures CoveredAt(s, k)
  {
  }

  lemma CoveredNow(s: State, w: nat, k: Key)
    requires Exclusive(s) && CoveredAt(s, k) && w < |s.workers| && Holds(s.workers[w], k)
    ensures Settled(s, k) || Queued(s, k) || k in s.q.waiting || Owes(s.workers[w], k)
    ensures Failing(s.workers[w], k) ==> Count(s.version, k) <= s.workers[w].seen || Queued(s, k)
  {
    OnlyHolder(s, w);
  }

  lemma CoveredMoveHere(s: State, step: Step, w: nat)
    requires Exclusive(s) && Moves(step, w) && Next(s, step).Some? && w < |s.workers| && !s.workers[w].Idle?
    requires CoveredAt(s, s.workers[w].key) && !Next(s, step).value.q.shuttingDown
    ensures CoveredAt(Next(s, step).value, s.workers[w].key)
  {
    hide Exclusive, CoveredAt, Next, Count;
    var s' := Next(s, step).value;
    OnlyMover(s, step, w);
    MoveHere(s, step, w);
    OnlyHolder(s, w);
    CoveredNow(s, w, s.workers[w].key);
    assert forall v :: 0 <= v < |s.workers| && v != w ==> s'.workers[v] == s.workers[v];
    CoveredByHolder(s', w, s.workers[w].key);
  }

  lemma CoveredMove(s: State, step: Step, w: nat, k: Key)
    requires Exclusive(s) && CoveredAt(s, k) && Moves(step, w) && Next(s, step).Some?
    requires !Next(s, step).value.q.shuttingDown
    ensures CoveredAt(Next(s, step).value, k)
  {
    hide Exclusive, CoveredAt, Next, Moves;
    OnlyMover(s, step, w);
    if s.workers[w].key != k {
      MoveElsewhere(s, step, w, k);
      CoveredElsewhere(s, Next(s, step).value, w, k);
    } else {
      CoveredMoveHere(s, step, w);
    }
  }

  lemma CoveredFinish(s: State, s': State, w: nat, k: Key)
    requires Exclusive(s) && CoveredAt(s, k) && FinishStep(s, w) == Some(s')
    ensures CoveredAt(s', k)
  {
    hide Exclusive, CoveredAt;
    if s.workers[w].key != k {
      CoveredElsewhere(s, s', w, k);
    } else {
      OnlyHolder(s, w);
      CoveredNow(s, w, k);
      assert forall v :: 0 <= v < |s.workers| && v != w ==> s'.workers[v] == s.workers[v];
      CoveredByHolder(s', w, k);
    }
  }

  /** The informer's steps and the expiry of a delay leave the workers alone. */
  lemma CoveredOutside(s: State, s': State, k: Key)
    requires CoveredAt(s, k) && s'.workers == s.workers
    requires Settled(s, k) ==> Settled(s', k) || Queued(s', k)
    requires Queued(s, k) ==> Queued(s', k)
    requires k in s.q.waiting ==> k in s'.q.waiting || Queued(s', k)
    requires Count(s'.version, k) == Count(s.version, k) || Queued(s', k)
    ensures CoveredAt(s', k)
  {
  }

  lemma CoveredStep(s: State, step: Step, k: Key)
    requires QueueOk(s.q) && Exclusive(s) && CoveredAt(s, k) && Next(s, step).Some?
    requires !Next(s, step).value.q.shuttingDown
    ensures CoveredAt(Next(s, step).value, k)
  {
    hide QueueOk, Exclusive, CoveredAt, TakeStep, SyncStep, SucceedStep, DecideStep, RetryStep, DropStep, FinishStep;
    var s' := Next(s, step).value;
    match step
    case Take(w) => CoveredTake(s, s', w, k);
    case Finish(w) => CoveredFinish(s, s', w, k);
    case Update(_) => CoveredOutside(s, s', k);
    case Notify => CoveredOutside(s, s', k);
    case Expire(_) => CoveredOutside(s, s', k);
    case Stop =>
    case _ => CoveredMove(s, step, Mover(step), k);
  }

  lemma NeverRestarts(s: State, step: Step)
    requires Next(s, step).Some?
    ensures s.q.shuttingDown ==> Next(s, step).value.q.shuttingDown
  {
    hide Count, Bump;
    match step
    case Update(_) =>
    case Notify =>
    case Expire(_) =>
    case Take(_) =>
    case Sync(_, _) =>
    case Succeed(_) =>
    case Decide(_) =>
    case Retry(_) =>
    case Drop(_) =>
    case Finish(_) =>
    case Stop =>
  }

  lemma StepKeeps(s: State, step: Step)
    requires Inv(s) && Next(s, step).Some?
    ensures Inv(Next(s, step).value)
  {
    hide Next, QueueOk, Exclusive, BalancedAt, BudgetAt, CoveredAt;
    QueueStep(s, step);
    ExclusiveStep(s, step);
    NeverRestarts(s, step);
    var s' := Next(s, step).value;
    forall k
      ensures BalancedAt(s', k) && BudgetAt(s', k) && (!s'.q.shuttingDown ==> CoveredAt(s', k))
    {
      BalancedStep(s, step, k);
      BudgetStep(s, step, k);
      if !s'.q.shuttingDown {
        CoveredStep(s, step, k);
      }
    }
  }

  lemma {:induction false} RunKeeps(s: State, steps: seq<Step>)
    requires Inv(s) && Run(s, steps).Some?
    ensures Inv(Run(s, steps).value)
    decreases |steps|
  {
    hide Next, Inv;
    if steps != [] {
      StepKeeps(s, steps[0]);
      RunKeeps(Next(s, steps[0]).value, steps[1..]);
    }
  }
}
