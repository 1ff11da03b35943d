/** A key that keeps failing: it is processed six times and no more, and every step that any
    worker or timer takes on it is accounted for. */
module ControllerRetries {
  import opened Options
  import opened WorkQueue
  import opened Controller
  import opened ControllerRuns

  ghost predicate Active(s: State, k: Key) {
    exists w :: 0 <= w < |s.workers| && Owes(s.workers[w], k)
  }

  /** The step brings no new event for k, does not sync it, and does not stop the queue. */
  predicate Unhelpful(s: State, step: Step, k: Key) {
    match step
    case Update(x) => x != k
    case Sync(w, ok) => ok ==> !Holds(At(s, w), k)
    case Stop => false
    case _ => true
  }

  predicate UnhelpfulRun(s: State, steps: seq<Step>, k: Key)
    decreases |steps|
  {
    steps != [] ==>
      && Unhelpful(s, steps[0], k)
      && Next(s, steps[0]).Some?
      && UnhelpfulRun(Next(s, steps[0]).value, steps[1..], k)
  }

  /** The step is one that a worker or the key's own timer takes on k. */
  predicate OnKey(s: State, step: Step, k: Key) {
    match step
    case Update(_) => false
    case Notify => false
    case Stop => false
    case Expire(x) => x == k
    case Take(_) => s.q.queue != [] && s.q.queue[0] == k
    case _ => Holds(At(s, Mover(step)), k)
  }

  /** k was taken `g` times, always failed, and is in at most one place. */
  ghost predicate Tracked(s: State, k: Key, g: int) {
    && !s.q.shuttingDown && s.pending != Some(k)
    && (forall w :: 0 <= w < |s.workers| ==> s.workers[w] != Synced(k))
    && !(k in s.q.dirty && k in s.q.waiting)
    && (if Active(s, k) then k !in s.q.dirty && k !in s.q.waiting && Count(s.q.failures, k) + 1 == g <= MAX_RETRIES + 1
        else if k in s.q.dirty || k in s.q.waiting then 0 <= Count(s.q.failures, k) == g <= MAX_RETRIES
        else g == MAX_RETRIES + 1 && Count(s.q.failures, k) == 0)
  }

  // ----- How many steps are left -----

  /** Steps the worker itself still has to take on k, to the return of the key. */
  function Stage(x: Worker, k: Key): nat {
    if !Holds(x, k) then 0
    else
      match x
      case Holding(_) => 4
      case Failed(_, _) => 3
      case Retrying(_, _) => 2
      case Dropping(_, _) => 2
      case _ => 1
  }

  function Stages(ws: seq<Worker>, k: Key): nat {
    if ws == [] then 0 else Stages(ws[..|ws| - 1], k) + Stage(ws[|ws| - 1], k)
  }

  /** Steps from the queue on, for a key taken `g` times: six for each round, but the last
      round has no delay to wait for. */
  function Rounds(g: int): int {
    6 * (MAX_RETRIES + 1 - g) - 1
  }

  ghost function StepsLeft(s: State, k: Key, g: int): int {
    Stages(s.workers, k) +
    if Active(s, k) then (if g == MAX_RETRIES + 1 then 0 else 1 + Rounds(g))
    else if k in s.q.dirty then Rounds(g)
    else if k in s.q.waiting then 1 + Rounds(g)
    else 0
  }

  lemma {:induction false} StagesUpdate(ws: seq<Worker>, w: nat, x: Worker, k: Key)
    requires w < |ws|
    ensures Stages(ws[w := x], k) == Stages(ws, k) - Stage(ws[w], k) + Stage(x, k)
  {
    var us := ws[w := x];
    if w == |ws| - 1 {
      assert us[..|ws| - 1] == ws[..|ws| - 1];
    } else {
      assert us[..|ws| - 1] == ws[..|ws| - 1][w := x];
      StagesUpdate(ws[..|ws| - 1], w, x, k);
    }
  }

  lemma {:induction false} StageCounts(ws: seq<Worker>, w: nat, k: Key)
    requires w < |ws|
    ensures Stages(ws, k) >= Stage(ws[w], k)
  {
    if w < |ws| - 1 {
      StageCounts(ws[..|ws| - 1], w, k);
    }
  }

  lemma {:induction false} NoStages(ws: seq<Worker>, k: Key)
    requires forall w :: 0 <= w < |ws| ==> !Holds(ws[w], k)
    ensures Stages(ws, k) == 0
  {
    if ws != [] {
      NoStages(ws[..|ws| - 1], k);
    }
  }

  // ----- One step -----

  /** The key after the step is tracked, and the step was counted if it was on the key. */
  ghost predicate Counted(s: State, step: Step, k: Key, g: int)
    requires Next(s, step).Some?
  {
    var s' := Next(s, step).value;
    var g' := g + Count(s'.gets, k) - Count(s.gets, k);
    Tracked(s', k, g') && StepsLeft(s', k, g') == StepsLeft(s, k, g) - if OnKey(s, step, k) then 1 else 0
  }

  lemma ActiveElsewhere(s: State, s': State, w: nat, k: Key)
    requires w < |s.workers| && |s'.workers| == |s.workers| && s'.workers == s.workers[w := s'.workers[w]]
    requires !Holds(s.workers[w], k) && !Holds(s'.workers[w], k)
    ensures Active(s', k) <==> Active(s, k)
    ensures Stages(s'.workers, k) == Stages(s.workers, k)
    ensures (forall v :: 0 <= v < |s.workers| ==> s.workers[v] != Synced(k)) ==>
            forall v :: 0 <= v < |s'.workers| ==> s'.workers[v] != Synced(k)
  {
    assert forall v :: 0 <= v < |s.workers| && v != w ==> s'.workers[v] == s.workers[v];
    StagesUpdate(s.workers, w, s'.workers[w], k);
    if Active(s, k) {
      var v :| 0 <= v < |s.workers| && Owes(s.workers[v], k);
      assert Owes(s'.workers[v], k);
    }
  }

  lemma ActiveHolder(s: State, s': State, w: nat, k: Key)
    requires Exclusive(s) && w < |s.workers| && |s'.workers| == |s.workers| && s'.workers == s.workers[w := s'.workers[w]]
    requires Holds(s.workers[w], k)
    ensures Active(s, k) <==> Owes(s.workers[w], k)
    ensures Active(s', k) <==> Owes(s'.workers[w], k)
    ensures Stages(s'.workers, k) == Stages(s.workers, k) - Stage(s.workers[w], k) + Stage(s'.workers[w], k)
    ensures s'.workers[w] != Synced(k) ==> forall v :: 0 <= v < |s'.workers| ==> s'.workers[v] != Synced(k)
  {
    OnlyHolder(s, w);
    StagesUpdate(s.workers, w, s'.workers[w], k);
    assert forall v :: 0 <= v < |s.workers| && v != w ==> s'.workers[v] == s.workers[v];
    if Owes(s'.workers[w], k) {
      assert Active(s', k);
    }
  }

  lemma CountedTake(s: State, w: nat, k: Key, g: int)
    requires QueueOk(s.q) && Exclusive(s) && Tracked(s, k, g) && Next(s, Take(w)).Some?
    ensures Counted(s, Take(w), k, g)
  {
    hide QueueOk, Exclusive, Stages, Active;
    var s' := Next(s, Take(w)).value;
    GetKeeps(s.q);
    TakenCounts(s, w, k);
    if s.q.queue[0] != k {
      ActiveElsewhere(s, s', w, k);
    } else {
      QueuedIsDirty(s.q);
      TakenActive(s, s', w, k);
    }
  }

  lemma TakenActive(s: State, s': State, w: nat, k: Key)
    requires w < |s.workers| && s.workers[w].Idle? && s'.workers == s.workers[w := Holding(k)]
    ensures Active(s', k) && Stages(s'.workers, k) == Stages(s.workers, k) + 4
    ensures (forall v :: 0 <= v < |s.workers| ==> s.workers[v] != Synced(k)) ==>
            forall v :: 0 <= v < |s'.workers| ==> s'.workers[v] != Synced(k)
  {
    assert Owes(s'.workers[w], k);
    StagesUpdate(s.workers, w, Holding(k), k);
  }

  lemma TakenCounts(s: State, w: nat, k: Key)
    requires TakeStep(s, w).Some?
    ensures s.q.queue != [] && Count(TakeStep(s, w).value.gets, k) == Count(s.gets, k) + if s.q.queue[0] == k then 1 else 0
  {
  }

  lemma QueuedIsDirty(q: Queue)
    requires QueueOk(q) && q.queue != []
    ensures q.queue[0] in q.dirty
  {
    assert q.queue[0] in q.queue;
  }

  lemma CountedElsewhere(s: State, step: Step, w: nat, k: Key, g: int)
    requires Tracked(s, k, g) && Moves(step, w) && Mover(step) == w && Next(s, step).Some?
    requires w < |s.workers| && !Holds(s.workers[w], k)
    ensures Counted(s, step, k, g)
  {
    hide Active, Next, Stages, Count;
    OnlyMover(s, step, w);
    MoveElsewhere(s, step, w, k);
    ActiveElsewhere(s, Next(s, step).value, w, k);
  }

  lemma CountedMove(s: State, step: Step, w: nat, k: Key, g: int)
    requires Exclusive(s) && BudgetAt(s, k) && Tracked(s, k, g)
    requires Moves(step, w) && Mover(step) == w && Next(s, step).Some? && Unhelpful(s, step, k)
    ensures Counted(s, step, k, g)
  {
    hide Exclusive, Active, BudgetAt, Next, Stages, Count;
    OnlyMover(s, step, w);
    if s.workers[w].key != k {
      CountedElsewhere(s, step, w, k, g);
    } else {
      BudgetNow(s, w, k);
      MoveHere(s, step, w);
      ActiveHolder(s, Next(s, step).value, w, k);
    }
  }

  lemma CountedFinish(s: State, w: nat, k: Key, g: int)
    requires Exclusive(s) && Tracked(s, k, g) && Next(s, Finish(w)).Some?
    ensures Counted(s, Finish(w), k, g)
  {
    hide Exclusive, Active, Stages, Count;
    var s' := Next(s, Finish(w)).value;
    if s.workers[w].key != k {
      ActiveElsewhere(s, s', w, k);
    } else {
      ActiveHolder(s, s', w, k);
    }
  }

  lemma ActiveSame(s: State, s': State, k: Key)
    requires s'.workers == s.workers
    ensures Active(s', k) <==> Active(s, k)
  {
  }

  /** The informer and the timers: only the key's own timer moves it. */
  lemma OutsideEffect(s: State, step: Step, k: Key)
    requires (step.Update? || step.Notify? || step.Expire?) && Next(s, step).Some? && Unhelpful(s, step, k)
    requires !s.q.shuttingDown && s.pending != Some(k)
    ensures var s' := Next(s, step).value;
            && s'.workers == s.workers && s'.gets == s.gets && s'.q.failures == s.q.failures
            && !s'.q.shuttingDown && s'.pending != Some(k)
            && if step == Expire(k) then k in s.q.waiting && k !in s'.q.waiting && k in s'.q.dirty
               else (k in s'.q.dirty <==> k in s.q.dirty) && (k in s'.q.waiting <==> k in s.q.waiting)
  {
    hide Bump;
    match step
    case Update(_) =>
    case Notify =>
    case Expire(_) =>
  }

  lemma CountedOutside(s: State, step: Step, k: Key, g: int)
    requires Tracked(s, k, g) && Next(s, step).Some? && Unhelpful(s, step, k)
    requires step.Update? || step.Notify? || step.Expire?
    ensures Counted(s, step, k, g)
  {
    hide Active, Stages, Next, Unhelpful, Count;
    OutsideEffect(s, step, k);
    ActiveSame(s, Next(s, step).value, k);
  }

  lemma CountedStep(s: State, step: Step, k: Key, g: int)
    requires Inv(s) && Tracked(s, k, g) && Next(s, step).Some? && Unhelpful(s, step, k)
    ensures Counted(s, step, k, g)
  {
    hide QueueOk, Exclusive, BalancedAt, CoveredAt, BudgetAt, Tracked, Counted, Next;
    assert BudgetAt(s, k);
    match step
    case Take(w) => CountedTake(s, w, k, g);
    case Finish(w) => CountedFinish(s, w, k, g);
    case Update(_) => CountedOutside(s, step, k, g);
    case Notify => CountedOutside(s, step, k, g);
    case Expire(_) => CountedOutside(s, step, k, g);
    case Stop =>
    case _ => CountedMove(s, step, Mover(step), k, g);
  }

  // ----- Whole runs -----

  function StepsOn(s: State, steps: seq<Step>, k: Key): nat
    requires UnhelpfulRun(s, steps, k)
    decreases |steps|
  {
    if steps == [] then 0
    else (if OnKey(s, steps[0], k) then 1 else 0) + StepsOn(Next(s, steps[0]).value, steps[1..], k)
  }

  lemma {:induction false} CountedRun(s: State, steps: seq<Step>, k: Key, g: int)
    requires Inv(s) && Tracked(s, k, g) && UnhelpfulRun(s, steps, k)
    ensures Run(s, steps).Some? && Inv(Run(s, steps).value)
    ensures var s' := Run(s, steps).value;
            var g' := g + Count(s'.gets, k) - Count(s.gets, k);
            Tracked(s', k, g') && StepsLeft(s', k, g') == StepsLeft(s, k, g) - StepsOn(s, steps, k)
    decreases |steps|
  {
    hide Next, Inv, Tracked, Unhelpful, OnKey, StepsLeft;
    if steps != [] {
      var s' := Next(s, steps[0]).value;
      StepKeeps(s, steps[0]);
      CountedStep(s, steps[0], k, g);
      CountedRun(s', steps[1..], k, g + Count(s'.gets, k) - Count(s.gets, k));
    }
  }

  /** The key is nowhere any more: not queued, not waiting, with no worker. */
  ghost predicate Gone(s: State, k: Key) {
    k !in s.q.dirty && k !in s.q.waiting && k !in s.q.processing
  }

  lemma GoneIff(s: State, k: Key, g: int)
    requires Exclusive(s) && Tracked(s, k, g)
    ensures StepsLeft(s, k, g) >= 0
    ensures Gone(s, k) <==> StepsLeft(s, k, g) == 0
  {
    if k in s.q.processing {
      var w :| 0 <= w < |s.workers| && Holds(s.workers[w], k);
      StageCounts(s.workers, w, k);
    } else {
      assert forall w :: 0 <= w < |s.workers| ==> !Holds(s.workers[w], k);
      NoStages(s.workers, k);
    }
  }

  /** A key in the queue, with no failures so far and no event on its way. */
  predicate JustQueued(s: State, k: Key) {
    !s.q.shuttingDown && s.pending != Some(k) && k in s.q.queue && k !in s.q.waiting && k !in s.q.failures
  }

  lemma StartsTracked(s: State, k: Key)
    requires Inv(s) && JustQueued(s, k)
    ensures Tracked(s, k, 0) && StepsLeft(s, k, 0) == Rounds(0) == 35
  {
    assert forall w :: 0 <= w < |s.workers| ==> !Holds(s.workers[w], k);
    NoStages(s.workers, k);
  }

  /** A freshly queued key that always fails, with no new event for it, is taken at most six
      times, and at most 35 steps are taken on it, whatever else goes on. It is gone exactly
      when all 35 were; it was then taken six times and its failures are forgotten. */
  lemma SixAttempts(n: nat, before: seq<Step>, steps: seq<Step>, k: Key)
    requires Run(Init(n), before).Some?
    requires var s := Run(Init(n), before).value; JustQueued(s, k) && UnhelpfulRun(s, steps, k)
    ensures var s := Run(Init(n), before).value;
      && Run(s, steps).Some?
      && var s' := Run(s, steps).value;
         var times := Count(s'.gets, k) - Count(s.gets, k);
      && times <= MAX_RETRIES + 1 && StepsOn(s, steps, k) <= 35
      && (Gone(s', k) <==> StepsOn(s, steps, k) == 35)
      && (Gone(s', k) ==> times == MAX_RETRIES + 1 && Count(s'.q.failures, k) == 0)
  {
    hide Inv, Next, StepsLeft, UnhelpfulRun, StepsOn;
    EveryRun(n, before);
    var s := Run(Init(n), before).value;
    StartsTracked(s, k);
    CountedRun(s, steps, k, 0);
    var s' := Run(s, steps).value;
    var g := Count(s'.gets, k) - Count(s.gets, k);
    ExclusiveNow(s');
    GoneIff(s', k, g);
    GoneCounts(s', k, g);
  }

  lemma ExclusiveNow(s: State)
    requires Inv(s)
    ensures Exclusive(s)
  {
  }

  lemma GoneCounts(s: State, k: Key, g: int)
    requires Exclusive(s) && Tracked(s, k, g)
    ensures Gone(s, k) ==> g == MAX_RETRIES + 1 && Count(s.q.failures, k) == 0
    ensures g <= MAX_RETRIES + 1
  {
  }

  // ----- Progress -----

  /** The next step of a worker that is busy. */
  function OwnStep(x: Worker, w: nat): Step {
    match x
    case Idle => Take(w)
    case Holding(_) => Sync(w, false)
    case Synced(_) => Succeed(w)
    case Failed(_, _) => Decide(w)
    case Retrying(_, _) => Retry(w)
    case Dropping(_, _) => Drop(w)
    case Finishing(_) => Finish(w)
  }

  /** Until the key is gone some step on it can be taken, unless it stands in the queue; then
      the first worker can take its next step, with NearerToFront saying what that does. */
  lemma SomeStepEnabled(s: State, k: Key)
    requires Inv(s) && !Gone(s, k) && |s.workers| > 0
    ensures (exists step :: Next(s, step).Some? && OnKey(s, step, k) && Unhelpful(s, step, k))
         || (k in s.q.queue && Next(s, OwnStep(s.workers[0], 0)).Some? && Unhelpful(s, OwnStep(s.workers[0], 0), k))
  {
    if k in s.q.waiting {
      var step := Expire(k);
      assert Next(s, step).Some? && OnKey(s, step, k) && Unhelpful(s, step, k);
    } else if k in s.q.processing {
      var w :| 0 <= w < |s.workers| && Holds(s.workers[w], k);
      var step := OwnStep(s.workers[w], w);
      assert Next(s, step).Some? && OnKey(s, step, k) && Unhelpful(s, step, k);
    } else {
      assert k in s.q.queue;
    }
  }

  /** The controller rests exactly when all that can happen is a new event or the stop: no
      event, retry, queued key or worker ever waits for something that cannot come. */
  lemma RestIff(s: State)
    requires |s.workers| > 0
    ensures AtRest(s) <==> forall step :: Next(s, step).Some? ==> step.Update? || step.Stop?
  {
    hide Count, Bump, Add, Done, Get, Forget;
    if w :| 0 <= w < |s.workers| && !s.workers[w].Idle? {
      assert Next(s, OwnStep(s.workers[w], w)).Some?;
    } else if k :| k in s.q.waiting {
      assert Next(s, Expire(k)).Some?;
    } else if s.pending.Some? {
      assert Next(s, Notify).Some?;
    } else if s.q.queue != [] {
      assert Next(s, Take(0)).Some?;
    }
  }

  /** Nothing overtakes a queued key: only a Take moves it, one place towards the front, and at
      the front it is the one taken. */
  lemma NearerToFront(s: State, step: Step, k: Key, i: nat)
    requires i < |s.q.queue| && s.q.queue[i] == k && Next(s, step).Some?
    ensures var s' := Next(s, step).value;
            if !step.Take? then i < |s'.q.queue| && s'.q.queue[i] == k
            else if i > 0 then i - 1 < |s'.q.queue| && s'.q.queue[i - 1] == k
            else OnKey(s, step, k) && s'.workers[step.w] == Holding(k)
  {
    hide Count, Bump;
    match step
    case Take(_) =>
    case Finish(_) =>
    case Notify =>
    case Expire(_) =>
    case _ => SameLine(s, step);
  }

  lemma SameLine(s: State, step: Step)
    requires Next(s, step).Some? && !step.Take? && !step.Finish? && !step.Notify? && !step.Expire?
    ensures Next(s, step).value.q.queue == s.q.queue
  {
    hide Count, Bump;
  }
}
