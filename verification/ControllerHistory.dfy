/** What happened in a run, event by event, read off its steps alone; and the promises of the
    controller stated about those events. */
module ControllerHistory {
  import opened Options
  import opened WorkQueue
  import opened Controller
  import opened ControllerRuns

  datatype Event =
    | Updated(key: Key)
    | Took(key: Key)
    | Printed(key: Key)
    | Errored(key: Key)
    | Forgot(key: Key)
    | GaveUp(key: Key)
    | Returned(key: Key)
    | Other

  function Happening(s: State, step: Step): Event {
    match step
    case Update(k) => Updated(k)
    case Take(_) => if s.q.queue == [] then Other else Took(s.q.queue[0])
    case Sync(w, ok) => if At(s, w).Idle? then Other else if ok then Printed(At(s, w).key) else Errored(At(s, w).key)
    case Succeed(w) => if At(s, w).Idle? then Other else Forgot(At(s, w).key)
    case Drop(w) => if At(s, w).Idle? then Other else GaveUp(At(s, w).key)
    case Finish(w) => if At(s, w).Idle? then Other else Returned(At(s, w).key)
    case _ => Other
  }

  function Trace(s: State, steps: seq<Step>): seq<Event>
    decreases |steps|
  {
    if steps == [] then []
    else
      match Next(s, steps[0])
      case None => []
      case Some(s') => [Happening(s, steps[0])] + Trace(s', steps[1..])
  }

  /** How often an event occurs. */
  function Times(h: seq<Event>, e: Event): nat {
    if h == [] then 0 else Times(h[..|h| - 1], e) + if h[|h| - 1] == e then 1 else 0
  }

  /** The index of the last occurrence, or -1. */
  function Last(h: seq<Event>, e: Event): (i: int)
    ensures -1 <= i < |h| && (i >= 0 ==> h[i] == e)
  {
    if h == [] then -1 else if h[|h| - 1] == e then |h| - 1 else Last(h[..|h| - 1], e)
  }

  /** Failed syncs of the key since it was last forgotten or given up. */
  function Streak(h: seq<Event>, k: Key): nat {
    if h == [] then 0
    else
      var e := h[|h| - 1];
      if e == Forgot(k) || e == GaveUp(k) then 0 else Streak(h[..|h| - 1], k) + if e == Errored(k) then 1 else 0
  }

  /** How many updates of the key came before the i-th event; none if there is no such event. */
  function UpdatesBefore(h: seq<Event>, i: int, k: Key): nat
    requires -1 <= i <= |h|
  {
    if i < 0 then 0 else Times(h[..i], Updated(k))
  }

  function PrintedVersion(h: seq<Event>, k: Key): nat {
    UpdatesBefore(h, Last(h, Printed(k)), k)
  }

  function ErroredVersion(h: seq<Event>, k: Key): nat {
    UpdatesBefore(h, Last(h, Errored(k)), k)
  }

  /** The version that had failed when the key was last given up. */
  function GivenUpVersion(h: seq<Event>, k: Key): nat {
    var i := Last(h, GaveUp(k));
    if i < 0 then 0 else ErroredVersion(h[..i], k)
  }

  // ----- The state records what happened -----

  ghost predicate Recorded(s: State, h: seq<Event>, k: Key) {
    && Count(s.version, k) == Times(h, Updated(k))
    && Count(s.gets, k) == Times(h, Took(k))
    && Count(s.dones, k) == Times(h, Returned(k))
    && Count(s.streak, k) == Streak(h, k)
    && Count(s.synced, k) == PrintedVersion(h, k)
    && Count(s.dropped, k) == GivenUpVersion(h, k)
    && forall w :: 0 <= w < |s.workers| && Failing(s.workers[w], k) ==> s.workers[w].seen == ErroredVersion(h, k)
  }

  lemma Longer(h: seq<Event>, e: Event, k: Key)
    ensures var h' := h + [e];
            && (forall x :: Times(h', x) == Times(h, x) + if x == e then 1 else 0)
            && Streak(h', k) == (if e == Forgot(k) || e == GaveUp(k) then 0 else Streak(h, k) + if e == Errored(k) then 1 else 0)
            && PrintedVersion(h', k) == (if e == Printed(k) then Times(h, Updated(k)) else PrintedVersion(h, k))
            && ErroredVersion(h', k) == (if e == Errored(k) then Times(h, Updated(k)) else ErroredVersion(h, k))
            && GivenUpVersion(h', k) == (if e == GaveUp(k) then ErroredVersion(h, k) else GivenUpVersion(h, k))
  {
    var h' := h + [e];
    assert h'[..|h'| - 1] == h && h'[|h|] == e;
    assert forall i :: 0 <= i <= |h| ==> h'[..i] == h[..i];
  }

  lemma CountsStep(s: State, step: Step, h: seq<Event>, k: Key)
    requires Recorded(s, h, k) && Next(s, step).Some?
    ensures var s', h' := Next(s, step).value, h + [Happening(s, step)];
            && Count(s'.version, k) == Times(h', Updated(k))
            && Count(s'.gets, k) == Times(h', Took(k))
            && Count(s'.dones, k) == Times(h', Returned(k))
            && Count(s'.streak, k) == Streak(h', k)
            && Count(s'.synced, k) == PrintedVersion(h', k)
  {
    hide Times, Streak, PrintedVersion, ErroredVersion, GivenUpVersion;
    Longer(h, Happening(s, step), k);
  }

  lemma FailuresStep(s: State, step: Step, h: seq<Event>, k: Key)
    requires Exclusive(s) && Recorded(s, h, k) && Next(s, step).Some?
    ensures var s', h' := Next(s, step).value, h + [Happening(s, step)];
            && Count(s'.dropped, k) == GivenUpVersion(h', k)
            && forall w :: 0 <= w < |s'.workers| && Failing(s'.workers[w], k) ==> s'.workers[w].seen == ErroredVersion(h', k)
  {
    hide Times, Streak, PrintedVersion, ErroredVersion, GivenUpVersion;
    Longer(h, Happening(s, step), k);
  }

  lemma RecordedStep(s: State, step: Step, h: seq<Event>, k: Key)
    requires Inv(s) && Recorded(s, h, k) && Next(s, step).Some?
    ensures Recorded(Next(s, step).value, h + [Happening(s, step)], k)
  {
    hide Next, Happening, Times, Streak, PrintedVersion, ErroredVersion, GivenUpVersion;
    CountsStep(s, step, h, k);
    FailuresStep(s, step, h, k);
  }

  lemma {:induction false} RecordedRun(s: State, steps: seq<Step>, h: seq<Event>, k: Key)
    requires Inv(s) && Recorded(s, h, k) && Run(s, steps).Some?
    ensures Recorded(Run(s, steps).value, h + Trace(s, steps), k)
    decreases |steps|
  {
    hide Inv, Next, Recorded;
    if steps == [] {
      assert h + [] == h;
    } else {
      var e, s' := Happening(s, steps[0]), Next(s, steps[0]).value;
      StepKeeps(s, steps[0]);
      RecordedStep(s, steps[0], h, k);
      RecordedRun(s', steps[1..], h + [e], k);
      assert h + [e] + Trace(s', steps[1..]) == h + ([e] + Trace(s', steps[1..]));
    }
  }

  lemma RecordedFromInit(n: nat, steps: seq<Step>, k: Key)
    requires Run(Init(n), steps).Some?
    ensures Recorded(Run(Init(n), steps).value, Trace(Init(n), steps), k)
  {
    InitOk(n);
    RecordedRun(Init(n), steps, [], k);
    assert [] + Trace(Init(n), steps) == Trace(Init(n), steps);
  }

  // ----- The promises, about what happened -----

  lemma {:induction false} FewerBefore(h: seq<Event>, i: nat, u: nat, e: Event)
    requires i <= u < |h| && h[u] == e
    ensures Times(h[..i], e) < Times(h, e)
  {
    var front := h[..|h| - 1];
    if u < |h| - 1 {
      assert front[..i] == h[..i];
      FewerBefore(front, i, u, e);
    } else {
      NoMoreBefore(front, i, e);
      assert front[..i] == h[..i];
    }
  }

  lemma {:induction false} NoMoreBefore(h: seq<Event>, i: nat, e: Event)
    requires i <= |h|
    ensures Times(h[..i], e) <= Times(h, e)
  {
    if i == |h| {
      assert h[..i] == h;
    } else {
      assert h[..|h| - 1][..i] == h[..i];
      NoMoreBefore(h[..|h| - 1], i, e);
    }
  }

  /** With nothing left to do, every update of a key was followed by a sync that succeeded, or
      by one that failed and after which the key was given up. */
  lemma NoUpdateLost(n: nat, steps: seq<Step>, k: Key, u: nat)
    requires Run(Init(n), steps).Some?
    requires !Run(Init(n), steps).value.q.shuttingDown && AtRest(Run(Init(n), steps).value)
    requires var h := Trace(Init(n), steps); u < |h| && h[u] == Updated(k)
    ensures var h := Trace(Init(n), steps);
            exists i :: u < i < |h| && (h[i] == Printed(k) || (h[i] == Errored(k) && GaveUp(k) in h[i..]))
  {
    hide Trace, Times, Last;
    var h, s := Trace(Init(n), steps), Run(Init(n), steps).value;
    RecordedFromInit(n, steps, k);
    NothingLost(n, steps, k);
    FewerBefore(h, 0, u, Updated(k));
    if Count(s.version, k) <= Count(s.synced, k) {
      var i := Last(h, Printed(k));
      if 0 <= i <= u { FewerBefore(h, i, u, Updated(k)); }
    } else {
      var j := Last(h, GaveUp(k));
      var i := Last(h[..j], Errored(k));
      assert h[..j][..i] == h[..i] && h[j] == h[i..][j - i];
      if i <= u { FewerBefore(h, i, u, Updated(k)); }
    }
  }

  /** Every key taken is given back before it is taken again. */
  lemma TakenThenReturned(n: nat, steps: seq<Step>, k: Key)
    requires Run(Init(n), steps).Some?
    ensures var h := Trace(Init(n), steps);
            Times(h, Took(k)) == Times(h, Returned(k)) + if k in Run(Init(n), steps).value.q.processing then 1 else 0
  {
    RecordedFromInit(n, steps, k);
    TakesMatchReturns(n, steps, k);
  }

  lemma SixthHere(s: State, step: Step, h: seq<Event>, k: Key)
    requires Inv(s) && Recorded(s, h, k) && Next(s, step).Some? && Happening(s, step) == GaveUp(k)
    ensures Streak(h, k) == 6
  {
    hide Streak;
    assert BudgetAt(s, k) && Failing(s.workers[step.w], k);
  }

  lemma {:induction false} SixthInRun(s: State, steps: seq<Step>, h: seq<Event>, k: Key, j: nat)
    requires Inv(s) && Recorded(s, h, k) && Run(s, steps).Some?
    requires j < |Trace(s, steps)| && Trace(s, steps)[j] == GaveUp(k)
    ensures Streak(h + Trace(s, steps)[..j], k) == 6
    decreases |steps|
  {
    hide Inv, Next, Recorded, Streak, Happening;
    var e, s' := Happening(s, steps[0]), Next(s, steps[0]).value;
    if j == 0 {
      SixthHere(s, steps[0], h, k);
      assert h + Trace(s, steps)[..0] == h;
    } else {
      StepKeeps(s, steps[0]);
      RecordedStep(s, steps[0], h, k);
      SixthInRun(s', steps[1..], h + [e], k, j - 1);
      assert h + [e] + Trace(s', steps[1..])[..j - 1] == h + Trace(s, steps)[..j];
    }
  }

  /** Whenever a key is given up, its sync had just failed for the sixth time since the key was
      last forgotten or given up. */
  lemma GivenUpAtSixth(n: nat, steps: seq<Step>, k: Key, j: nat)
    requires Run(Init(n), steps).Some?
    requires j < |Trace(Init(n), steps)| && Trace(Init(n), steps)[j] == GaveUp(k)
    ensures Streak(Trace(Init(n), steps)[..j], k) == 6
  {
    hide Trace, Run;
    InitOk(n);
    SixthInRun(Init(n), steps, [], k, j);
    assert [] + Trace(Init(n), steps)[..j] == Trace(Init(n), steps)[..j];
  }
}
