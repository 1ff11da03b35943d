/** What holds over whole runs of the transfer: under WATCH and EXEC always, and as a plain
    pipeline when the calls are backed from the start. */
module RedisRuns {
  import opened Options
  import opened Sequences
  import opened RedisStore
  import opened RedisTransfer

  /** The run ended as the committed transactions would, done one at a time in the order of
      their commits, each of them finding what its check demands. */
  ghost predicate Serial(init: Store, r: State) {
    Replay(init, r.log) == r.store && Admitted(init, r.log)
  }

  /** What a caller of the plain pipeline can see to beforehand: there is no call, no balance,
      nothing anyone could spend, or always enough for all the calls. */
  predicate PlainSafe(s: State)
    requires Fresh(s)
  {
    var first, n := s.store.balance, |s.spenders|;
    || n == 0
    || first.Absent?
    || (!Spendable(first) && forall x <- s.writers :: !Spendable(x.value))
    || ((forall x <- s.writers :: Covers(x.value, n)) && (Spendable(first) ==> Covers(first, n)))
  }

  /** The guard of a mode: WATCH guards every run, the plain pipeline none but the safe ones. */
  predicate Safe(mode: Mode, s: State)
    requires Fresh(s)
  {
    mode.Transactional? || PlainSafe(s)
  }

  lemma {:induction false} AllAlive(ps: seq<Client1>)
    requires forall p <- ps :: !p.Done?
    ensures Alive(ps) == |ps|
  {
    if ps != [] {
      AllAlive(ps[..|ps| - 1]);
    }
  }

  lemma FreshInv(mode: Mode, s: State)
    requires Fresh(s) && Safe(mode, s)
    ensures Inv(mode, s.store, s)
  {
    FreshLedger(s);
    if mode.Plain? {
      AllAlive(s.spenders);
      assert forall w :: 0 <= w < |s.writers| ==> s.writers[w] in s.writers;
    }
  }

  lemma SafeRun(mode: Mode, s: State, steps: seq<Step>)
    requires Fresh(s) && Safe(mode, s) && Run(mode, s, steps).Some?
    ensures Inv(mode, s.store, Run(mode, s, steps).value)
  {
    FreshInv(mode, s);
    RunKeeps(mode, s.store, s, steps);
  }

  /** Every interleaving of a safe start is serial. */
  lemma Serializable(mode: Mode, s: State, steps: seq<Step>)
    requires Fresh(s) && Safe(mode, s) && Run(mode, s, steps).Some?
    ensures Serial(s.store, Run(mode, s, steps).value)
  {
    SafeRun(mode, s, steps);
    AdmittedIsSerial(s.store, Run(mode, s, steps).value.log);
  }

  /** In either mode and from any start, a call commits one transfer or none, and reports
      success exactly when it committed one and neither of its commands failed. */
  lemma OneTransferPerCall(mode: Mode, s: State, steps: seq<Step>, c: nat)
    requires Fresh(s) && Run(mode, s, steps).Some? && c < |Run(mode, s, steps).value.spenders|
    ensures var r := Run(mode, s, steps).value;
            && (forall j, k :: 0 <= j < |r.log| && 0 <= k < |r.log| && r.log[j] == r.log[k] == Transfer(c) ==> j == k)
            && (r.spenders[c] == Done(Success) <==>
                exists k :: 0 <= k < |r.log| && r.log[k] == Transfer(c) && Whole(Executed(s.store, r.log[..k])))
            && (r.spenders[c].Done? && !Committed(r.spenders[c].outcome) ==> Transfer(c) !in r.log)
  {
    FreshLedger(s);
    LedgerRun(mode, s.store, s, steps);
    var r := Run(mode, s, steps).value;
    assert SpenderAt(r, c);
    forall j, k | 0 <= j < |r.log| && 0 <= k < |r.log| && r.log[j] == r.log[k] == Transfer(c)
      ensures j == k
    {
      assert EventAt(s.store, r, j) && EventAt(s.store, r, k);
    }
    assert forall k :: 0 <= k < |r.log| && r.log[k] == Transfer(c) ==> EventAt(s.store, r, k);
  }

  /** A step touches the keys only by committing, and then does what the whole transaction
      would do alone at that moment: a conflicted attempt leaves both keys as they are. */
  lemma StepIsOneTransaction(mode: Mode, init: Store, s: State, step: Step)
    requires Inv(mode, init, s) && Next(mode, s, step).Some?
    ensures var t := Next(mode, s, step).value;
            || (t.log == s.log && t.store == s.store)
            || (exists e :: t.log == s.log + [e] && Enabled(s.store, e) && t.store == Apply(s.store, e))
    ensures step.Commit? ==>
              var t, held := Next(mode, s, step).value, mode.Transactional? && s.spenders[step.c].version != s.store.version;
              if held then t.store == s.store && t.log == s.log else t.log == s.log + [Transfer(step.c)]
  {
    var t := Next(mode, s, step).value;
    CommitsEnabled(mode, init, s, step);
    match step
    case Watch(_) =>
    case Read(_) =>
    case Look(_) =>
    case Commit(c) =>
      if t.log != s.log {
        assert t.log == s.log + [Transfer(c)];
      }
    case Write(w) =>
      assert t.log == s.log + [Overwrite(s.writers[w].value)];
  }

  /** What a call makes of the balance it reads. */
  lemma ReadDecides(mode: Mode, s: State, c: nat)
    requires c < |s.spenders| && s.spenders[c].Watching?
    ensures Next(mode, s, Read(c)).Some?
    ensures var p, v := Next(mode, s, Read(c)).value.spenders[c], s.store.balance;
            && (p == Done(ParseError) <==> v.Text?)
            && (p == Done(Insufficient) <==> v.Absent? || (!v.Text? && v.n < 20))
            && (p.Ready? <==> (v.Number? || v.Loose?) && v.n >= 20)
  {
  }

  /** No call is ever stuck: nothing can happen exactly when every call has ended. */
  lemma EndedIff(mode: Mode, s: State)
    ensures (forall step :: Next(mode, s, step).None?) <==>
            (forall c :: 0 <= c < |s.spenders| ==> s.spenders[c].Done?)
            && forall w :: 0 <= w < |s.writers| ==> s.writers[w].Finished?
  {
    hide AfterCommit, AfterRead;
    if c :| 0 <= c < |s.spenders| && !s.spenders[c].Done? {
      var p := s.spenders[c];
      assert Next(mode, s, if p.Starting? then Watch(c) else if p.Watching? then Read(c) else Commit(c)).Some?;
    } else if w :| 0 <= w < |s.writers| && !s.writers[w].Finished? {
      assert Next(mode, s, if s.writers[w].Looking? then Look(w) else Write(w)).Some?;
    }
  }

  // ----- Attempts -----

  function Watches(steps: seq<Step>, c: nat): nat
    decreases |steps|
  {
    if steps == [] then 0 else (if steps[0] == Watch(c) then 1 else 0) + Watches(steps[1..], c)
  }

  function AttemptsLeft(p: Client1): int {
    match p
    case Starting(r) => MAX_RETRIES - r
    case Watching(r, _) => MAX_RETRIES - r - 1
    case Ready(r, _) => MAX_RETRIES - r - 1
    case Done(_) => 0
  }

  lemma {:induction false} AttemptsBounded(mode: Mode, init: Store, s: State, steps: seq<Step>, c: nat)
    requires Ledger(init, s) && Run(mode, s, steps).Some? && c < |s.spenders|
    ensures var r := Run(mode, s, steps).value;
            |r.spenders| == |s.spenders| && AttemptsLeft(r.spenders[c]) >= 0
            && Watches(steps, c) + AttemptsLeft(r.spenders[c]) <= AttemptsLeft(s.spenders[c])
            && (r.spenders[c] == Done(GaveUp) ==> Watches(steps, c) == AttemptsLeft(s.spenders[c]))
            && (s.spenders[c].Done? ==> r.spenders[c] == s.spenders[c])
    decreases |steps|
  {
    hide Executed, Exec, Whole, Spendable;
    assert SpenderAt(s, c);
    if steps != [] {
      LedgerStep(mode, init, s, steps[0]);
      AttemptsBounded(mode, init, Next(mode, s, steps[0]).value, steps[1..], c);
    }
  }

  /** The retries of a call so far, as far as the version it last saw can tell. */
  predicate Contended(base: nat, s: State, c: nat)
    requires c < |s.spenders|
  {
    match s.spenders[c]
    case Starting(r) => s.store.version >= base + r
    case Watching(r, v) => v >= base + r
    case Ready(r, v) => v >= base + r
    case Done(o) => o.GaveUp? ==> s.store.version >= base + MAX_RETRIES
  }

  lemma {:induction false} StillContended(init: Store, base: nat, s: State, steps: seq<Step>, c: nat)
    requires Ledger(init, s) && Run(Transactional, s, steps).Some? && c < |s.spenders| && Contended(base, s, c)
    ensures var r := Run(Transactional, s, steps).value;
            |r.spenders| == |s.spenders| && Contended(base, r, c)
    decreases |steps|
  {
    hide Executed, Whole, Spendable;
    assert SpenderAt(s, c);
    if steps != [] {
      LedgerStep(Transactional, init, s, steps[0]);
      var t := Next(Transactional, s, steps[0]).value;
      assert SpenderAt(t, c);
      StillContended(init, base, t, steps[1..], c);
    }
  }

  /** No call watches the balance more than three times. One that gives up did so exactly
      three times, and meanwhile the balance was written at least three times by others. */
  lemma ThreeAttempts(s: State, steps: seq<Step>, c: nat)
    requires Fresh(s) && Run(Transactional, s, steps).Some? && c < |s.spenders|
    ensures Watches(steps, c) <= 3
    ensures var r := Run(Transactional, s, steps).value;
            |r.spenders| == |s.spenders| && (r.spenders[c] == Done(GaveUp) ==>
              && Watches(steps, c) == 3
              && r.store.version >= s.store.version + 3
              && Transfer(c) !in r.log)
  {
    FreshLedger(s);
    AttemptsBounded(Transactional, s.store, s, steps, c);
    StillContended(s.store, s.store.version, s, steps, c);
    OneTransferPerCall(Transactional, s, steps, c);
  }

  predicate FirstAttempt(p: Client1) {
    match p
    case Starting(r) => r == 0
    case Watching(r, _) => r == 0
    case Ready(r, _) => r == 0
    case Done(o) => !o.GaveUp?
  }

  function MayWatch(p: Client1): nat {
    if p.Starting? then 1 else 0
  }

  lemma {:induction false} StillFirst(s: State, steps: seq<Step>, c: nat)
    requires Run(Plain, s, steps).Some? && c < |s.spenders| && FirstAttempt(s.spenders[c])
    ensures var r := Run(Plain, s, steps).value;
            |r.spenders| == |s.spenders| && FirstAttempt(r.spenders[c])
            && Watches(steps, c) + MayWatch(r.spenders[c]) == MayWatch(s.spenders[c])
    decreases |steps|
  {
    hide Exec, Whole, Amount;
    if steps != [] {
      StillFirst(Next(Plain, s, steps[0]).value, steps[1..], c);
    }
  }

  /** The plain pipeline is never turned back: the retry loop runs once, and no call gives up. */
  lemma PlainNeverRetries(s: State, steps: seq<Step>, c: nat)
    requires Fresh(s) && Run(Plain, s, steps).Some? && c < |s.spenders|
    ensures Watches(steps, c) <= 1
    ensures var r := Run(Plain, s, steps).value; |r.spenders| == |s.spenders| && r.spenders[c] != Done(GaveUp)
  {
    StillFirst(s, steps, c);
  }

  // ----- The totals -----

  /** A value no writer should put in, for the totals' sake: one that only Go can read. */
  predicate Tidy(v: Value) {
    InRange(v) && !v.Loose?
  }

  predicate TidyWrites(s: State) {
    && (forall w :: 0 <= w < |s.writers| && !s.writers[w].Finished? ==> Tidy(s.writers[w].value))
    && forall k :: 0 <= k < |s.log| && s.log[k].Overwrite? ==> Tidy(s.log[k].value)
  }

  lemma {:induction false} StillTidy(mode: Mode, s: State, steps: seq<Step>)
    requires TidyWrites(s) && Run(mode, s, steps).Some?
    ensures TidyWrites(Run(mode, s, steps).value)
    ensures |Run(mode, s, steps).value.spenders| == |s.spenders|
    decreases |steps|
  {
    hide Exec, Whole, Amount;
    if steps != [] {
      StillTidy(mode, Next(mode, s, steps[0]).value, steps[1..]);
    }
  }

  function Clients(log: seq<Event>): set<nat> {
    set k | 0 <= k < |log| && log[k].Transfer? :: log[k].client
  }

  lemma ClientsMore(log: seq<Event>, e: Event)
    ensures Clients(log + [e]) == Clients(log) + if e.Transfer? then {e.client} else {}
    ensures e.Transfer? && e !in log ==> e.client !in Clients(log)
  {
    var more := log + [e];
    assert forall k :: 0 <= k < |log| ==> more[k] == log[k];
    assert more[|log|] == e;
    forall c | c in Clients(log)
      ensures c in Clients(more)
    {
      var k :| 0 <= k < |log| && log[k].Transfer? && log[k].client == c;
      assert more[k] == log[k];
    }
  }

  lemma {:induction false} TransfersAreClients(init: Store, s: State, k: nat)
    requires Ledger(init, s) && k <= |s.log|
    ensures Transfers(s.log[..k]) == |Clients(s.log[..k])|
    ensures forall c <- Clients(s.log[..k]) :: c < |s.spenders|
  {
    hide Clients, Ledger, Whole, Executed;
    if k == 0 {
      NoClients();
      assert s.log[..0] == [];
    } else {
      var front, e := s.log[..k - 1], s.log[k - 1];
      TransfersAreClients(init, s, k - 1);
      LogAt(init, s, k - 1);
      assert s.log[..k] == front + [e];
      Appended(front, e);
      ClientsMore(front, e);
    }
  }

  lemma NoClients()
    ensures Clients([]) == {}
  {
  }

  lemma LogAt(init: Store, s: State, k: nat)
    requires Ledger(init, s) && k < |s.log|
    ensures EventAt(init, s, k)
  {
  }

  lemma {:induction false} BelowSize(xs: set<nat>, n: nat)
    requires forall x <- xs :: x < n
    ensures |xs| <= n
  {
    if n == 0 {
      assert xs == {};
    } else {
      BelowSize(xs - {n - 1}, n - 1);
      assert |xs| <= |xs - {n - 1}| + 1;
    }
  }

  /** If beforehand the balances are in Redis's own form and the debt has room for every call,
      then at every moment of every safe run debt is up by 20 for each transfer, balance is
      down by 20 for each one since it was last set, and no call ends with a half-done
      transfer. */
  lemma TotalsHold(mode: Mode, s: State, steps: seq<Step>)
    requires Fresh(s) && Safe(mode, s) && Run(mode, s, steps).Some? && TidyWrites(s) && Tidy(s.store.balance)
    requires InRange(s.store.debt) && (s.store.debt.Absent? || s.store.debt.Number?)
    requires Amount(s.store.debt).value + |s.spenders| * AMOUNT <= I64_MAX
    ensures var r := Run(mode, s, steps).value; r.store == Replay(s.store, r.log) && AlwaysTotals(s.store, r.log)
    ensures var r := Run(mode, s, steps).value;
            forall c :: 0 <= c < |r.spenders| ==> r.spenders[c] != Done(ExecError)
  {
    hide AlwaysTotals;
    var init, r := s.store, Run(mode, s, steps).value;
    SafeRun(mode, s, steps);
    AdmittedIsSerial(init, r.log);
    StillTidy(mode, s, steps);
    assert r.log[..|r.log|] == r.log;
    TransfersAreClients(init, r, |r.log|);
    BelowSize(Clients(r.log), |r.spenders|);
    assert forall v :: Overwrite(v) in r.log ==> Tidy(v);
    RoomSuffices(init, r.log, |s.spenders|);
    TotalsIff(init, r.log);
    forall c | 0 <= c < |r.spenders|
      ensures r.spenders[c] != Done(ExecError)
    {
      NoHalfDone(init, r, c);
    }
  }

  lemma NoHalfDone(init: Store, r: State, c: nat)
    requires Ledger(init, r) && Admitted(init, r.log) && AlwaysWhole(init, r.log) && c < |r.spenders|
    ensures r.spenders[c] != Done(ExecError)
  {
    assert SpenderAt(r, c);
    forall k | 0 <= k < |r.log| && r.log[k] == Transfer(c)
      ensures r.spenders[c] == Done(Success)
    {
      assert EventAt(init, r, k);
      AdmittedPrefix(init, r.log, k);
      AdmittedIsSerial(init, r.log[..k]);
    }
  }

  lemma AdmittedPrefix(init: Store, log: seq<Event>, k: nat)
    requires Admitted(init, log) && k <= |log|
    ensures Admitted(init, log[..k])
  {
    forall j | 0 <= j < k
      ensures Enabled(Replay(init, log[..k][..j]), log[..k][j])
    {
      assert log[..k][..j] == log[..j];
      assert Enabled(Replay(init, log[..j]), log[j]);
    }
  }
}
