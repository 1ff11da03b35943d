/** The shared informer factory: a registry that creates each informer once, starts each
    started informer once, and shuts down by waiting for all of them. The object's methods
    are proved against functions on its state; the functions are the atomic steps of a state
    machine with any number of callers. */
module InformerFactory {
  import opened Options

  type TypeName = string

  /** `id` tells informers apart; the rest is what newFunc and SetTransform were given. */
  datatype Informer = Informer(id: nat, kind: TypeName, resync: int, transform: nat)

  /** `launches` records every goroutine ever started, `running` those not yet finished. */
  datatype Factory = Factory(
    informers: map<TypeName, Informer>,
    started: set<TypeName>,
    wg: int,
    shuttingDown: bool,
    defaultResync: int,
    customResync: map<TypeName, int>,
    transform: nat,
    made: nat,
    launches: multiset<TypeName>,
    running: set<TypeName>)

  // ----- The operations, on values -----

  function ResyncFor(f: Factory, t: TypeName): int {
    if t in f.customResync then f.customResync[t] else f.defaultResync
  }

  function InformerForType(f: Factory, t: TypeName): (Factory, Informer) {
    if t in f.informers then (f, f.informers[t])
    else
      var informer := Informer(f.made, t, ResyncFor(f, t), f.transform);
      (f.(informers := f.informers[t := informer], made := f.made + 1), informer)
  }

  /** The goroutines of these types are launched, and counted before they run. */
  function Launched(f: Factory, ts: set<TypeName>): Factory {
    f.(started := f.started + ts, wg := f.wg + |ts|, launches := f.launches + multiset(ts), running := f.running + ts)
  }

  /** What Start does: nothing once shutdown began, else launch all that is registered and
      was never started. */
  function StartAll(f: Factory): Factory {
    if f.shuttingDown then f else Launched(f, f.informers.Keys - f.started)
  }

  function TypesOf(order: seq<TypeName>): set<TypeName> {
    set t <- order
  }

  lemma NoTypes()
    ensures TypesOf([]) == {}
  {
  }

  lemma SetOfMore(order: seq<TypeName>, t: TypeName)
    ensures TypesOf(order + [t]) == TypesOf(order) + {t} && (order + [t])[..|order|] == order
  {
    assert (order + [t])[..|order|] == order;
    assert forall u :: u in order + [t] <==> u in order || u == t;
  }

  lemma StartLaunches(f: Factory)
    ensures !f.shuttingDown ==>
      && StartAll(f).started == f.started + f.informers.Keys
      && forall t :: StartAll(f).launches[t] == f.launches[t] + if t in f.informers && t !in f.started then 1 else 0
  {
  }

  /** One turn of the loop in Start. */
  function StartOne(f: Factory, t: TypeName): Factory {
    if t in f.started then f else Launched(f, {t})
  }

  /** The loop in Start, over the types in the order the map happens to give them. */
  function StartEach(f: Factory, order: seq<TypeName>): Factory {
    if order == [] then f else StartOne(StartEach(f, order[..|order| - 1]), order[|order| - 1])
  }

  lemma LaunchedNothing(f: Factory)
    ensures Launched(f, {}) == f
  {
    assert f.launches + multiset{} == f.launches;
  }

  lemma LaunchedMore(f: Factory, ts: set<TypeName>, t: TypeName)
    requires t !in ts
    ensures Launched(Launched(f, ts), {t}) == Launched(f, ts + {t})
  {
    assert multiset(ts + {t}) == multiset(ts) + multiset{t};
    assert f.launches + multiset(ts + {t}) == f.launches + multiset(ts) + multiset{t};
    assert f.running + (ts + {t}) == f.running + ts + {t};
    assert f.started + (ts + {t}) == f.started + ts + {t};
  }

  lemma StartNone(f: Factory)
    ensures StartEach(f, []) == f
  {
  }

  lemma StartMore(f: Factory, order: seq<TypeName>, t: TypeName)
    ensures StartEach(f, order + [t]) == StartOne(StartEach(f, order), t)
  {
    SetOfMore(order, t);
  }

  /** The order of the map does not matter, and neither does visiting a type again. */
  lemma {:induction false} OrderIrrelevant(f: Factory, order: seq<TypeName>)
    ensures StartEach(f, order) == Launched(f, TypesOf(order) - f.started)
  {
    hide TypesOf, Launched;
    if order == [] {
      NoTypes();
      assert TypesOf(order) - f.started == {};
      LaunchedNothing(f);
    } else {
      var front, t := order[..|order| - 1], order[|order| - 1];
      OrderIrrelevant(f, front);
      assert order == front + [t];
      SetOfMore(front, t);
      LaunchedStarted(f, TypesOf(front) - f.started);
      if t in f.started + TypesOf(front) {
        assert TypesOf(order) - f.started == TypesOf(front) - f.started;
      } else {
        LaunchedMore(f, TypesOf(front) - f.started, t);
        assert TypesOf(order) - f.started == TypesOf(front) - f.started + {t};
      }
    }
  }

  lemma LaunchedStarted(f: Factory, ts: set<TypeName>)
    ensures Launched(f, ts).started == f.started + ts
  {
  }

  /** A goroutine's informer returns and its deferred wg.Done runs. */
  function FinishOne(f: Factory, t: TypeName): Factory {
    f.(running := f.running - {t}, wg := f.wg - 1)
  }

  // ----- The factory object -----

  datatype Setting =
    | WithCustomResync(periods: map<TypeName, int>)
    | WithTransform(transform: nat)
    | WithNamespace(namespace: string)
    | WithTweak(tweak: nat)

  /** What an option says about a setting; None where it says nothing. */
  function ResyncSaid(t: TypeName): Setting -> Option<int> {
    (o: Setting) => if o.WithCustomResync? && t in o.periods then Some(o.periods[t]) else None
  }

  function TransformSaid(o: Setting): Option<nat> {
    if o.WithTransform? then Some(o.transform) else None
  }

  function NamespaceSaid(o: Setting): Option<string> {
    if o.WithNamespace? then Some(o.namespace) else None
  }

  function TweakSaid(o: Setting): Option<nat> {
    if o.WithTweak? then Some(o.tweak) else None
  }

  function Override<T>(said: Option<T>, value: T): T {
    if said.Some? then said.value else value
  }

  /** `value` is what the last option that speaks of the setting says, or else the default. */
  ghost predicate LastSaid<T(!new)>(said: Setting -> Option<T>, options: seq<Setting>, default_: T, value: T) {
    || (value == default_ && forall o <- options :: said(o) == None)
    || (exists i :: 0 <= i < |options| && said(options[i]) == Some(value) && SilentFrom(said, options, i + 1))
  }

  ghost predicate SilentFrom<T(!new)>(said: Setting -> Option<T>, options: seq<Setting>, i: nat) {
    forall j :: i <= j < |options| ==> said(options[j]) == None
  }

  lemma LastSaidMore<T(!new)>(said: Setting -> Option<T>, options: seq<Setting>, o: Setting, default_: T, value: T)
    requires LastSaid(said, options, default_, value)
    ensures LastSaid(said, options + [o], default_, Override(said(o), value))
  {
    var more := options + [o];
    assert more[|options|] == o && forall i :: 0 <= i < |options| ==> more[i] == options[i];
    if said(o).Some? {
      assert said(more[|options|]) == Some(said(o).value) && SilentFrom(said, more, |options| + 1);
    } else if i :| 0 <= i < |options| && said(options[i]) == Some(value) && SilentFrom(said, options, i + 1) {
      assert said(more[i]) == Some(value) && SilentFrom(said, more, i + 1);
    }
  }

  function StartedTypes(m: map<TypeName, bool>): set<TypeName> {
    set t <- m | m[t]
  }

  lemma StartedAfter(m: map<TypeName, bool>, t: TypeName)
    ensures t in StartedTypes(m) <==> t in m && m[t]
    ensures StartedTypes(m[t := true]) == StartedTypes(m) + {t}
  {
  }

  class SharedInformerFactory {
    var namespace: string
    var tweakListOptions: nat
    var defaultResync: int
    var customResync: map<TypeName, int>
    var transform: nat
    var informers: map<TypeName, Informer>
    var startedInformers: map<TypeName, bool>
    var wg: int
    var shuttingDown: bool
    var made: nat
    ghost var launches: multiset<TypeName>
    ghost var running: set<TypeName>

    ghost function State(): Factory
      reads this
    {
      Factory(informers, StartedTypes(startedInformers), wg, shuttingDown, defaultResync,
              customResync, transform, made, launches, running)
    }

    /** Every setting is the one given by the last of these options that names it, or else the
        default; the resync period so for each type on its own. */
    ghost predicate Reflects(options: seq<Setting>)
      reads this
    {
      && (forall t :: LastSaid(ResyncSaid(t), options, defaultResync, ResyncFor(State(), t)))
      && LastSaid(TransformSaid, options, 0, transform)
      && LastSaid(NamespaceSaid, options, "", namespace)
      && LastSaid(TweakSaid, options, 0, tweakListOptions)
    }

    constructor (defaultResync: int, options: seq<Setting>)
      ensures State() == Factory(map[], {}, 0, false, defaultResync, customResync, transform, 0, multiset{}, {})
      ensures Reflects(options)
    {
      this.defaultResync := defaultResync;
      namespace, tweakListOptions, customResync, transform := "", 0, map[], 0;
      informers, startedInformers, wg, shuttingDown, made := map[], map[], 0, false, 0;
      launches, running := multiset{}, {};
      new;
      assert Reflects([]);
      hide Reflects;
      for i := 0 to |options|
        invariant State() == Factory(map[], {}, 0, false, defaultResync, customResync, transform, 0, multiset{}, {})
        invariant Reflects(options[..i])
      {
        assert options[..i + 1] == options[..i] + [options[i]];
        Apply(options[i], options[..i]);
      }
      assert options[..|options|] == options;
    }

    /** One option changes the setting it names, or the resync periods of the types it names. */
    method Apply(o: Setting, ghost before: seq<Setting>)
      requires Reflects(before)
      modifies `customResync, `transform, `namespace, `tweakListOptions
      ensures Reflects(before + [o])
    {
      hide LastSaid;
      LastSaidMore(TransformSaid, before, o, 0, transform);
      LastSaidMore(NamespaceSaid, before, o, "", namespace);
      LastSaidMore(TweakSaid, before, o, 0, tweakListOptions);
      forall t { LastSaidMore(ResyncSaid(t), before, o, defaultResync, ResyncFor(State(), t)); }
      match o {
        case WithCustomResync(p) => customResync := customResync + p;
        case WithTransform(x) => transform := x;
        case WithNamespace(n) => namespace := n;
        case WithTweak(x) => tweakListOptions := x;
      }
    }

    method InformerFor(t: TypeName) returns (informer: Informer)
      modifies this
      ensures (State(), informer) == InformerForType(old(State()), t)
      ensures informers == old(informers)[t := informer] && (t in old(informers) ==> informer == old(informers)[t])
      ensures t !in old(informers) ==>
                && informer.kind == t && informer.transform == transform && informer.id == old(made) < made
                && informer.resync == (if t in customResync then customResync[t] else defaultResync)
    {
      if t in informers { return informers[t]; }
      var resyncPeriod := if t in customResync then customResync[t] else defaultResync;
      informer := Informer(made, t, resyncPeriod, transform);
      made := made + 1;
      informers := informers[t := informer];
    }

    /** One turn of the loop in Start. */
    method StartInformer(t: TypeName)
      modifies `wg, `startedInformers, `launches, `running
      ensures State() == StartOne(old(State()), t)
    {
      hide StartedTypes;
      StartedAfter(startedInformers, t);
      if !(t in startedInformers && startedInformers[t]) {
        wg := wg + 1;
        launches, running := launches + multiset{t}, running + {t};
        startedInformers := startedInformers[t := true];
        assert multiset({t}) == multiset{t} && |{t}| == 1;
      }
    }

    /** Under the lock, in whatever order the map gives its keys. */
    method Start()
      modifies this
      ensures State() == StartAll(old(State()))
      ensures old(shuttingDown) ==> State() == old(State())
      ensures !old(shuttingDown) ==>
                && informers == old(informers) && State().started == old(State().started) + informers.Keys
                && forall t :: launches[t] ==
                     old(launches[t]) + if t in informers && t !in old(State().started) then 1 else 0
    {
      StartLaunches(State());
      hide StartOne, StartEach, StartedTypes, Launched, TypesOf;
      if shuttingDown { return; }
      ghost var before := State();
      ghost var order: seq<TypeName> := [];
      NoTypes();
      StartNone(before);
      var todo := informers.Keys;
      while todo != {}
        invariant informers == before.informers && todo <= informers.Keys
        invariant TypesOf(order) == informers.Keys - todo
        invariant State() == StartEach(before, order)
        decreases todo
      {
        var t :| t in todo;
        todo := todo - {t};
        StartInformer(t);
        SetOfMore(order, t);
        StartMore(before, order, t);
        order := order + [t];
      }
      assert TypesOf(order) == before.informers.Keys;
      OrderIrrelevant(before, order);
    }

    /** The first half of Shutdown, under the lock; the second half waits for wg to be 0. */
    method BeginShutdown()
      modifies this
      ensures State() == old(State()).(shuttingDown := true)
    {
      shuttingDown := true;
    }

    /** A snapshot of the started informers under the lock, then one wait for each. */
    method WaitForCacheSync(hasSynced: map<Informer, bool>) returns (res: map<TypeName, bool>)
      ensures res.Keys == informers.Keys * State().started
      ensures forall t <- res :: res[t] == (informers[t] in hasSynced && hasSynced[informers[t]])
    {
      var snapshot: map<TypeName, Informer> := map[];
      var todo := informers.Keys;
      while todo != {}
        invariant todo <= informers.Keys && snapshot.Keys == (informers.Keys - todo) * State().started
        invariant forall t <- snapshot :: snapshot[t] == informers[t]
        decreases todo
      {
        var t :| t in todo;
        todo := todo - {t};
        if t in startedInformers && startedInformers[t] {
          snapshot := snapshot[t := informers[t]];
        }
      }
      res := map[];
      todo := snapshot.Keys;
      while todo != {}
        invariant todo <= snapshot.Keys && res.Keys == snapshot.Keys - todo
        invariant forall t <- res :: res[t] == (snapshot[t] in hasSynced && hasSynced[snapshot[t]])
        decreases todo
      {
        var t :| t in todo;
        todo := todo - {t};
        res := res[t := snapshot[t] in hasSynced && hasSynced[snapshot[t]]];
      }
    }
  }

  // ----- Any number of callers -----

  /** Where a caller of Shutdown is: it sets the flag, waits, and returns. */
  datatype Caller = Outside | Waiting | Returned

  /** `lock` is Some while a call of Start holds the lock: the types its loop has still to
      visit. The other operations hold the lock for one step only. */
  datatype State = State(f: Factory, lock: Option<set<TypeName>>, callers: seq<Caller>)

  datatype Step =
    | Register(t: TypeName)
    | BeginStart
    | StartNext(t: TypeName)
    | EndStart
    | Finish(t: TypeName)
    | Enter(c: nat)
    | Leave(c: nat)

  function Next(s: State, step: Step): Option<State> {
    match step
    case Register(t) => if s.lock.None? then Some(s.(f := InformerForType(s.f, t).0)) else None
    case BeginStart =>
      if s.lock.None? then Some(if s.f.shuttingDown then s else s.(lock := Some(s.f.informers.Keys))) else None
    case StartNext(t) =>
      if s.lock.Some? && t in s.lock.value then
        Some(s.(f := StartOne(s.f, t), lock := Some(s.lock.value - {t})))
      else None
    case EndStart => if s.lock == Some({}) then Some(s.(lock := None)) else None
    case Finish(t) => if t in s.f.running then Some(s.(f := FinishOne(s.f, t))) else None
    case Enter(c) =>
      if s.lock.None? && c < |s.callers| && s.callers[c].Outside? then
        Some(s.(f := s.f.(shuttingDown := true), callers := s.callers[c := Waiting]))
      else None
    case Leave(c) =>
      if c < |s.callers| && s.callers[c].Waiting? && s.f.wg == 0 then Some(s.(callers := s.callers[c := Returned]))
      else None
  }

  function Run(s: State, steps: seq<Step>): Option<State>
    decreases |steps|
  {
    if steps == [] then Some(s)
    else
      match Next(s, steps[0])
      case None => None
      case Some(s') => Run(s', steps[1..])
  }

  predicate Fresh(s: State) {
    && s.f.informers == map[] && s.f.started == {} && s.f.wg == 0 && !s.f.shuttingDown
    && s.f.made == 0 && s.f.launches == multiset{} && s.f.running == {} && s.lock.None?
    && forall c :: 0 <= c < |s.callers| ==> s.callers[c].Outside?
  }

  /** Started types are registered; each was launched once; the WaitGroup counts those started
      and not finished; nobody waits unless shutdown began, and once somebody has returned
      nothing runs. */
  ghost predicate Inv(s: State) {
    && s.f.running <= s.f.started <= s.f.informers.Keys
    && s.f.wg == |s.f.running|
    && s.f.launches == multiset(s.f.started)
    && (forall t <- s.f.informers :: s.f.informers[t].kind == t && s.f.informers[t].id < s.f.made)
    && (forall t, u :: t in s.f.informers && u in s.f.informers && s.f.informers[t].id == s.f.informers[u].id ==> t == u)
    && (s.lock.Some? ==> !s.f.shuttingDown && s.lock.value <= s.f.informers.Keys)
    && (forall c :: 0 <= c < |s.callers| && !s.callers[c].Outside? ==> s.f.shuttingDown)
    && (forall c :: 0 <= c < |s.callers| && s.callers[c].Returned? ==> s.f.running == {})
  }

  lemma DisjointSize<T>(a: set<T>, b: set<T>)
    requires a !! b
    ensures |a + b| == |a| + |b|
  {
  }

  lemma DisjointMultiset<T>(a: set<T>, b: set<T>)
    requires a !! b
    ensures multiset(a + b) == multiset(a) + multiset(b)
  {
  }

  lemma StartKeeps(s: State, step: Step)
    requires Inv(s) && (step.BeginStart? || step.StartNext? || step.EndStart?) && Next(s, step).Some?
    ensures Inv(Next(s, step).value)
  {
    if step.StartNext? && step.t !in s.f.started {
      DisjointSize(s.f.running, {step.t});
      DisjointMultiset(s.f.started, {step.t});
    }
  }

  lemma FinishKeeps(s: State, t: TypeName)
    requires Inv(s) && t in s.f.running
    ensures Inv(Next(s, Finish(t)).value)
  {
    assert s.f.running == (s.f.running - {t}) + {t};
  }

  lemma RegisterKeeps(s: State, t: TypeName)
    requires Inv(s) && s.lock.None?
    ensures Inv(Next(s, Register(t)).value)
  {
  }

  lemma CallerKeeps(s: State, step: Step)
    requires Inv(s) && (step.Enter? || step.Leave?) && Next(s, step).Some?
    ensures Inv(Next(s, step).value)
  {
  }

  lemma StepKeeps(s: State, step: Step)
    requires Inv(s) && Next(s, step).Some?
    ensures Inv(Next(s, step).value)
  {
    match step
    case Register(t) => RegisterKeeps(s, t);
    case Enter(_) => CallerKeeps(s, step);
    case Leave(_) => CallerKeeps(s, step);
    case Finish(t) => FinishKeeps(s, t);
    case _ => StartKeeps(s, step);
  }

  lemma {:induction false} RunKeeps(s: State, steps: seq<Step>)
    requires Inv(s) && Run(s, steps).Some?
    ensures Inv(Run(s, steps).value)
    decreases |steps|
  {
    hide Next, Inv;
    if steps != [] {
      StepKeeps(s, steps[0]);
      RunKeeps(Next(s, steps[0]).value, steps[1..]);
    }
  }

  lemma EveryRun(s: State, steps: seq<Step>)
    requires Fresh(s) && Run(s, steps).Some?
    ensures Inv(Run(s, steps).value)
  {
    RunKeeps(s, steps);
  }

  /** Each type gets one informer for ever. */
  lemma {:induction false} SameInformerForever(s: State, steps: seq<Step>, t: TypeName)
    requires t in s.f.informers && Run(s, steps).Some?
    ensures t in Run(s, steps).value.f.informers && Run(s, steps).value.f.informers[t] == s.f.informers[t]
    ensures InformerForType(Run(s, steps).value.f, t) == (Run(s, steps).value.f, s.f.informers[t])
    decreases |steps|
  {
    if steps != [] {
      SameInformerForever(Next(s, steps[0]).value, steps[1..], t);
    }
  }

  /** However often Start is called, no informer is launched twice. */
  lemma LaunchedOnce(s: State, steps: seq<Step>, t: TypeName)
    requires Fresh(s) && Run(s, steps).Some?
    ensures var f := Run(s, steps).value.f;
            f.launches[t] == (if t in f.started then 1 else 0) && (t in f.started ==> t in f.informers)
  {
    EveryRun(s, steps);
  }

  /** The WaitGroup counts the started informers less the finished ones. */
  lemma WaitGroupCounts(s: State, steps: seq<Step>)
    requires Fresh(s) && Run(s, steps).Some?
    ensures var f := Run(s, steps).value.f; f.wg == |f.started| - |f.started - f.running| >= 0
  {
    EveryRun(s, steps);
    var f := Run(s, steps).value.f;
    DisjointSize(f.running, f.started - f.running);
    assert f.running + (f.started - f.running) == f.started;
  }

  lemma ShutdownStep(s: State, step: Step)
    requires Inv(s) && s.f.shuttingDown && Next(s, step).Some?
    ensures StillDown(s.f, Next(s, step).value.f)
  {
  }

  ghost predicate StillDown(f: Factory, g: Factory) {
    g.shuttingDown && g.launches == f.launches && g.started == f.started && g.running <= f.running && g.wg <= f.wg
  }

  /** Once the flag is set nothing is ever launched again and the WaitGroup only falls: no Add
      happens after a Wait has begun. */
  lemma {:induction false} NoStartAfterShutdown(s: State, steps: seq<Step>)
    requires Inv(s) && s.f.shuttingDown && Run(s, steps).Some?
    ensures StillDown(s.f, Run(s, steps).value.f)
    decreases |steps|
  {
    hide Next, Inv;
    if steps != [] {
      StepKeeps(s, steps[0]);
      ShutdownStep(s, steps[0]);
      NoStartAfterShutdown(Next(s, steps[0]).value, steps[1..]);
    }
  }

  lemma {:induction false} StaysReturned(s: State, steps: seq<Step>, c: nat)
    requires Run(s, steps).Some? && c < |s.callers| && s.callers[c].Returned?
    ensures var r := Run(s, steps).value; c < |r.callers| && r.callers[c].Returned?
    decreases |steps|
  {
    if steps != [] {
      StaysReturned(Next(s, steps[0]).value, steps[1..], c);
    }
  }

  /** Shutdown waits exactly for the started informers: a waiting call can return exactly when
      none is running. Once any call has returned, every informer ever started has finished,
      then and for ever after, and none is started any more. */
  lemma ShutdownWaits(s: State, steps: seq<Step>, more: seq<Step>, c: nat)
    requires Fresh(s) && Run(s, steps).Some? && Run(Run(s, steps).value, more).Some?
    requires var r := Run(s, steps).value; c < |r.callers| && !r.callers[c].Outside?
    ensures var r := Run(s, steps).value;
            r.f.shuttingDown && (r.callers[c].Waiting? ==> (Next(r, Leave(c)).Some? <==> r.f.running == {}))
    ensures var r := Run(s, steps).value; var later := Run(r, more).value;
            r.callers[c].Returned? ==>
              later.f.running == {} && later.f.wg == 0 && later.f.started == r.f.started && later.f.launches == r.f.launches
  {
    EveryRun(s, steps);
    var r := Run(s, steps).value;
    RunKeeps(r, more);
    NoStartAfterShutdown(r, more);
    if r.callers[c].Returned? {
      StaysReturned(r, more, c);
    }
  }

  lemma CanLeave(s: State, c: nat)
    requires Inv(s) && c < |s.callers| && s.callers[c].Waiting? && s.f.running == {}
    ensures Next(s, Leave(c)) == Some(s.(callers := s.callers[c := Returned]))
  {
  }

  lemma CanFinish(s: State, t: TypeName)
    requires t in s.f.running
    ensures Next(s, Finish(t)).Some?
    ensures var s' := Next(s, Finish(t)).value;
            s'.callers == s.callers && s.f.running == s'.f.running + {t} && t !in s'.f.running
  {
  }

  /** A waiting Shutdown is never stuck: once each running informer has finished, it returns. */
  lemma {:induction false} ShutdownCanReturn(s: State, c: nat) returns (steps: seq<Step>)
    requires Inv(s) && c < |s.callers| && s.callers[c].Waiting?
    ensures Run(s, steps).Some? && Run(s, steps).value.callers == s.callers[c := Returned]
    ensures |steps| == |s.f.running| + 1 && forall i :: 0 <= i < |steps| - 1 ==> steps[i].Finish?
    decreases |s.f.running|
  {
    hide Next;
    if s.f.running == {} {
      CanLeave(s, c);
      steps := [Leave(c)];
      assert [Leave(c)][1..] == [];
    } else {
      var t :| t in s.f.running;
      CanFinish(s, t);
      FinishKeeps(s, t);
      var s' := Next(s, Finish(t)).value;
      var rest := ShutdownCanReturn(s', c);
      steps := [Finish(t)] + rest;
      assert steps[1..] == rest;
    }
  }

  // ----- The object's Start is a run -----

  function StartNexts(order: seq<TypeName>): seq<Step> {
    if order == [] then [] else StartNexts(order[..|order| - 1]) + [StartNext(order[|order| - 1])]
  }

  lemma {:induction false} RunMore(s: State, steps: seq<Step>, step: Step)
    requires Run(s, steps).Some?
    ensures Run(s, steps + [step]) == Next(Run(s, steps).value, step)
    decreases |steps|
  {
    hide Next;
    var more := steps + [step];
    if steps == [] {
      assert more == [step] && more[1..] == [];
    } else {
      assert more[0] == steps[0] && more[1..] == steps[1..] + [step];
      RunMore(Next(s, steps[0]).value, steps[1..], step);
    }
  }

  /** The loop visits each type that the lock still holds, once. */
  lemma {:induction false} RunLoop(s: State, order: seq<TypeName>, rest: set<TypeName>)
    requires forall i, j :: 0 <= i < j < |order| ==> order[i] != order[j]
    requires TypesOf(order) !! rest && s.lock == Some(TypesOf(order) + rest)
    ensures Run(s, StartNexts(order)) == Some(s.(f := StartEach(s.f, order), lock := Some(rest)))
  {
    hide StartOne;
    if order == [] {
      assert TypesOf(order) + rest == rest;
    } else {
      var front, t := order[..|order| - 1], order[|order| - 1];
      assert order == front + [t];
      SetOfMore(front, t);
      assert forall i :: 0 <= i < |front| ==> front[i] == order[i];
      assert TypesOf(order) + rest == TypesOf(front) + (rest + {t});
      RunLoop(s, front, rest + {t});
      RunMore(s, StartNexts(front), StartNext(t));
      assert rest + {t} - {t} == rest;
    }
  }

  /** What one call of Start does when it finds the lock free: BeginStart alone once shutting
      down, else BeginStart, one step for each registered type in any order, EndStart. So what
      holds of every run holds of the object. */
  lemma StartIsARun(s: State, order: seq<TypeName>) returns (steps: seq<Step>)
    requires s.lock.None? && TypesOf(order) == s.f.informers.Keys
    requires forall i, j :: 0 <= i < j < |order| ==> order[i] != order[j]
    ensures steps == if s.f.shuttingDown then [BeginStart] else [BeginStart] + StartNexts(order) + [EndStart]
    ensures Run(s, steps) == Some(s.(f := StartAll(s.f)))
  {
    hide StartOne, Launched;
    if s.f.shuttingDown {
      steps := [BeginStart];
      assert [BeginStart][1..] == [];
    } else {
      var locked := s.(lock := Some(s.f.informers.Keys));
      assert TypesOf(order) + {} == TypesOf(order);
      RunLoop(locked, order, {});
      OrderIrrelevant(s.f, order);
      steps := [BeginStart] + StartNexts(order) + [EndStart];
      var loop := [BeginStart] + StartNexts(order);
      assert loop[0] == BeginStart && loop[1..] == StartNexts(order);
      RunMore(s, loop, EndStart);
    }
  }
}
