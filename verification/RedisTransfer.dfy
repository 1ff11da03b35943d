/** Any number of client1 transfers and client2 overwrites, interleaved command by command:
    every run is equal to the committed transactions done one after the other. */
module RedisTransfer {
  import opened Options
  import opened Sequences
  import opened RedisStore

  const MAX_RETRIES := 3

  datatype Outcome = Success | ParseError | Insufficient | ExecError | GaveUp

  /** Where a call of client1 is in its loop; `retry` is the loop counter. */
  datatype Client1 =
    | Starting(retry: nat)
    | Watching(retry: nat, version: nat)
    | Ready(retry: nat, version: nat)
    | Done(outcome: Outcome)

  /** A call of client2 looks whether there is a balance, and overwrites it. */
  datatype Client2 = Looking(value: Value) | Writing(value: Value) | Finished

  /** `log` lists what has been committed, in order. */
  datatype State = State(store: Store, spenders: seq<Client1>, writers: seq<Client2>, log: seq<Event>)

  datatype Step = Watch(c: nat) | Read(c: nat) | Commit(c: nat) | Look(w: nat) | Write(w: nat)

  /** How EXEC behaves: as a transaction guarded by WATCH, which is what the program means, or
      as the plain pipeline that `Pipelined` sends, which no WATCH holds back. */
  datatype Mode = Transactional | Plain

  /** The next turn of the loop, or its end. */
  function Retry(retry: nat): Client1 {
    if retry + 1 < MAX_RETRIES then Starting(retry + 1) else Done(GaveUp)
  }

  function AfterRead(s: Store, retry: nat, version: nat): Client1 {
    match Amount(s.balance)
    case None => Done(ParseError)
    case Some(n) => if n < AMOUNT then Done(Insufficient) else Ready(retry, version)
  }

  function Next(mode: Mode, s: State, step: Step): Option<State> {
    match step
    case Watch(c) =>
      if c < |s.spenders| && s.spenders[c].Starting? then
        Some(s.(spenders := s.spenders[c := Watching(s.spenders[c].retry, s.store.version)]))
      else None
    case Read(c) =>
      if c < |s.spenders| && s.spenders[c].Watching? then
        Some(s.(spenders := s.spenders[c := AfterRead(s.store, s.spenders[c].retry, s.spenders[c].version)]))
      else None
    case Commit(c) =>
      if c < |s.spenders| && s.spenders[c].Ready? then Some(AfterCommit(mode, s, c)) else None
    case Look(w) =>
      if w < |s.writers| && s.writers[w].Looking? then
        Some(s.(writers := s.writers[w := if s.store.balance.Absent? then Finished else Writing(s.writers[w].value)]))
      else None
    case Write(w) =>
      if w < |s.writers| && s.writers[w].Writing? then
        var v := s.writers[w].value;
        Some(s.(store := s.store.(balance := v, version := s.store.version + 1),
                writers := s.writers[w := Finished], log := s.log + [Overwrite(v)]))
      else None
  }

  function AfterCommit(mode: Mode, s: State, c: nat): State
    requires c < |s.spenders| && s.spenders[c].Ready?
  {
    if mode.Transactional? && s.spenders[c].version != s.store.version then
      s.(spenders := s.spenders[c := Retry(s.spenders[c].retry)])
    else
      s.(store := Exec(s.store), spenders := s.spenders[c := Done(if Whole(s.store) then Success else ExecError)],
         log := s.log + [Transfer(c)])
  }

  function Run(mode: Mode, s: State, steps: seq<Step>): Option<State>
    decreases |steps|
  {
    if steps == [] then Some(s)
    else
      match Next(mode, s, steps[0])
      case None => None
      case Some(s') => Run(mode, s', steps[1..])
  }

  predicate Fresh(s: State) {
    && s.log == []
    && (forall c :: 0 <= c < |s.spenders| ==> s.spenders[c] == Starting(0))
    && forall w :: 0 <= w < |s.writers| ==> s.writers[w].Looking? && !s.writers[w].value.Absent?
  }

  // ----- What every step keeps in either mode -----

  predicate Committed(o: Outcome) {
    o.Success? || o.ExecError?
  }

  predicate SpenderAt(s: State, c: nat)
    requires c < |s.spenders|
  {
    match s.spenders[c]
    case Starting(r) => r < MAX_RETRIES && Transfer(c) !in s.log
    case Watching(r, v) => r < MAX_RETRIES && Transfer(c) !in s.log && v <= s.store.version
    case Ready(r, v) => r < MAX_RETRIES && Transfer(c) !in s.log && v <= s.store.version
    case Done(o) => Transfer(c) in s.log <==> Committed(o)
  }

  predicate WriterAt(s: State, w: nat)
    requires w < |s.writers|
  {
    match s.writers[w]
    case Looking(v) => !v.Absent?
    case Writing(v) => !v.Absent? && !s.store.balance.Absent?
    case Finished => true
  }

  /** A transfer in the log is the only one of its call, and the call reported how it went. */
  predicate EventAt(init: Store, s: State, k: nat)
    requires k < |s.log|
  {
    match s.log[k]
    case Transfer(c) =>
      && c < |s.spenders|
      && s.spenders[c] == Done(if Whole(Executed(init, s.log[..k])) then Success else ExecError)
      && s.log[k] !in s.log[..k]
    case Overwrite(v) => !v.Absent?
  }

  ghost predicate Ledger(init: Store, s: State) {
    && Executed(init, s.log) == s.store
    && (forall c :: 0 <= c < |s.spenders| ==> SpenderAt(s, c))
    && (forall w :: 0 <= w < |s.writers| ==> WriterAt(s, w))
    && (forall k :: 0 <= k < |s.log| ==> EventAt(init, s, k))
  }

  lemma EventsStay(init: Store, s: State, t: State, e: Event)
    requires forall k :: 0 <= k < |s.log| ==> EventAt(init, s, k)
    requires t.log == s.log + [e] && |t.spenders| == |s.spenders|
    requires forall c :: 0 <= c < |s.spenders| && s.spenders[c].Done? ==> t.spenders[c] == s.spenders[c]
    ensures forall k :: 0 <= k < |s.log| ==> EventAt(init, t, k)
  {
    hide Executed, Whole;
    forall k | 0 <= k < |s.log|
      ensures EventAt(init, t, k)
    {
      assert t.log[..k] == s.log[..k] && t.log[k] == s.log[k];
      assert EventAt(init, s, k);
    }
  }

  /** Moving one spender or writer without a commit. */
  lemma QuietLedger(mode: Mode, init: Store, s: State, step: Step)
    requires Ledger(init, s) && Next(mode, s, step).Some? && Next(mode, s, step).value.log == s.log
    ensures Ledger(init, Next(mode, s, step).value)
  {
    hide Whole, Executed, Exec, Amount;
    var t := Next(mode, s, step).value;
    forall k | 0 <= k < |s.log|
      ensures EventAt(init, t, k)
    {
      assert EventAt(init, s, k);
    }
    forall c | 0 <= c < |s.spenders|
      ensures SpenderAt(t, c)
    {
      assert SpenderAt(s, c);
    }
    forall w | 0 <= w < |s.writers|
      ensures WriterAt(t, w)
    {
      assert WriterAt(s, w);
    }
  }

  lemma WriteLedger(mode: Mode, init: Store, s: State, w: nat)
    requires Ledger(init, s) && Next(mode, s, Write(w)).Some?
    ensures Ledger(init, Next(mode, s, Write(w)).value)
  {
    hide Executed, Whole, Exec;
    var t := Next(mode, s, Write(w)).value;
    var e := Overwrite(s.writers[w].value);
    assert WriterAt(s, w);
    ExecutedMore(init, s.log, e);
    EventsStay(init, s, t, e);
    forall u | 0 <= u < |s.writers|
      ensures WriterAt(t, u)
    {
      assert WriterAt(s, u);
    }
    forall c | 0 <= c < |s.spenders|
      ensures SpenderAt(t, c)
    {
      assert SpenderAt(s, c);
    }
  }

  lemma CommitLedger(mode: Mode, init: Store, s: State, c: nat)
    requires Ledger(init, s) && c < |s.spenders| && s.spenders[c].Ready?
    requires mode.Plain? || s.spenders[c].version == s.store.version
    ensures Ledger(init, AfterCommit(mode, s, c))
  {
    hide Executed, Whole;
    var t := AfterCommit(mode, s, c);
    assert SpenderAt(s, c);
    ExecutedMore(init, s.log, Transfer(c));
    EventsStay(init, s, t, Transfer(c));
    assert t.log[..|s.log|] == s.log;
    forall d | 0 <= d < |s.spenders|
      ensures SpenderAt(t, d)
    {
      assert SpenderAt(s, d);
    }
    forall w | 0 <= w < |s.writers|
      ensures WriterAt(t, w)
    {
      assert WriterAt(s, w);
    }
  }

  lemma LedgerStep(mode: Mode, init: Store, s: State, step: Step)
    requires Ledger(init, s) && Next(mode, s, step).Some?
    ensures Ledger(init, Next(mode, s, step).value)
  {
    hide Ledger, Exec, Whole, AfterRead;
    match step
    case Watch(_) => QuietLedger(mode, init, s, step);
    case Read(_) => QuietLedger(mode, init, s, step);
    case Look(_) => QuietLedger(mode, init, s, step);
    case Write(w) => WriteLedger(mode, init, s, w);
    case Commit(c) =>
      if mode.Plain? || s.spenders[c].version == s.store.version {
        CommitLedger(mode, init, s, c);
      } else {
        QuietLedger(mode, init, s, step);
      }
  }

  lemma {:induction false} LedgerRun(mode: Mode, init: Store, s: State, steps: seq<Step>)
    requires Ledger(init, s) && Run(mode, s, steps).Some?
    ensures Ledger(init, Run(mode, s, steps).value)
    decreases |steps|
  {
    hide Ledger, Next;
    if steps != [] {
      LedgerStep(mode, init, s, steps[0]);
      LedgerRun(mode, init, Next(mode, s, steps[0]).value, steps[1..]);
    }
  }

  lemma FreshLedger(s: State)
    requires Fresh(s)
    ensures Ledger(s.store, s)
  {
  }

  // ----- What makes every transfer find the money it read -----

  /** Under WATCH: whose watched version still stands faces the balance it read. */
  predicate Watched(s: State) {
    forall c :: 0 <= c < |s.spenders| && s.spenders[c].Ready? && s.spenders[c].version == s.store.version ==>
      Spendable(s.store.balance)
  }

  /** The calls that may still commit. */
  function Alive(ps: seq<Client1>): (n: nat)
    ensures n <= |ps|
  {
    if ps == [] then 0 else Alive(ps[..|ps| - 1]) + if ps[|ps| - 1].Done? then 0 else 1
  }

  /** Enough for n transfers. Redis does not read a loose number, so nothing is taken from it. */
  predicate Covers(v: Value, n: nat) {
    (v.Loose? && v.n >= AMOUNT) || (v.Number? && v.n >= AMOUNT * n)
  }

  predicate NobodyReady(s: State) {
    forall c :: 0 <= c < |s.spenders| ==> !s.spenders[c].Ready?
  }

  predicate NobodyWriting(s: State) {
    forall w :: 0 <= w < |s.writers| ==> !s.writers[w].Writing?
  }

  predicate WritesUnspendable(s: State) {
    forall w :: 0 <= w < |s.writers| && !s.writers[w].Finished? ==> !Spendable(s.writers[w].value)
  }

  predicate WritesCover(s: State, n: nat) {
    forall w :: 0 <= w < |s.writers| && !s.writers[w].Finished? ==> Covers(s.writers[w].value, n)
  }

  /** Without WATCH: there is nobody to spend, nothing to spend, or enough for all who may. */
  predicate Backed(s: State) {
    || |s.spenders| == 0
    || (s.store.balance.Absent? && NobodyReady(s) && NobodyWriting(s))
    || (!Spendable(s.store.balance) && NobodyReady(s) && WritesUnspendable(s))
    || (WritesCover(s, Alive(s.spenders)) &&
        (Covers(s.store.balance, Alive(s.spenders)) || (!Spendable(s.store.balance) && NobodyReady(s))))
  }

  predicate Guarded(mode: Mode, s: State) {
    if mode.Transactional? then Watched(s) else Backed(s)
  }

  lemma {:induction false} AliveUpdate(ps: seq<Client1>, c: nat, p: Client1)
    requires c < |ps|
    ensures Alive(ps[c := p]) == Alive(ps) - (if ps[c].Done? then 0 else 1) + if p.Done? then 0 else 1
  {
    var qs := ps[c := p];
    if c == |ps| - 1 {
      assert qs[..|ps| - 1] == ps[..|ps| - 1];
    } else {
      assert qs[..|ps| - 1] == ps[..|ps| - 1][c := p];
      AliveUpdate(ps[..|ps| - 1], c, p);
    }
  }

  lemma CoversFewer(s: State, v: Value, n: nat, m: nat)
    requires m <= n
    ensures Covers(v, n) ==> Covers(v, m)
    ensures WritesCover(s, n) ==> WritesCover(s, m)
  {
    assert AMOUNT * m <= AMOUNT * n;
  }

  lemma WatchedStep(init: Store, s: State, step: Step)
    requires Ledger(init, s) && Watched(s) && Next(Transactional, s, step).Some?
    ensures Watched(Next(Transactional, s, step).value)
  {
    hide Executed, Whole;
    var t := Next(Transactional, s, step).value;
    forall c | 0 <= c < |t.spenders| && t.spenders[c].Ready? && t.spenders[c].version == t.store.version
      ensures Spendable(t.store.balance)
    {
      assert SpenderAt(s, c);
    }
  }

  lemma BackedQuiet(s: State, step: Step)
    requires Backed(s) && (step.Watch? || step.Read? || step.Look?) && Next(Plain, s, step).Some?
    ensures Backed(Next(Plain, s, step).value)
  {
    var t := Next(Plain, s, step).value;
    if !step.Look? {
      var c := step.c;
      AliveUpdate(s.spenders, c, t.spenders[c]);
      CoversFewer(s, s.store.balance, Alive(s.spenders), Alive(t.spenders));
      CoversFewer(t, s.store.balance, Alive(s.spenders), Alive(t.spenders));
    }
  }

  lemma BackedWrite(init: Store, s: State, w: nat)
    requires Ledger(init, s) && Backed(s) && Next(Plain, s, Write(w)).Some?
    ensures Backed(Next(Plain, s, Write(w)).value)
  {
    assert WriterAt(s, w);
  }

  lemma BackedCommit(s: State, c: nat)
    requires Backed(s) && c < |s.spenders| && s.spenders[c].Ready?
    ensures Spendable(s.store.balance) && Backed(AfterCommit(Plain, s, c))
  {
    var t := AfterCommit(Plain, s, c);
    var n := Alive(s.spenders);
    AliveUpdate(s.spenders, c, t.spenders[c]);
    assert n >= 1 && Covers(s.store.balance, n) && AMOUNT * n == AMOUNT * (n - 1) + AMOUNT;
    CoversFewer(t, s.store.balance, n, n - 1);
  }

  lemma BackedStep(init: Store, s: State, step: Step)
    requires Ledger(init, s) && Backed(s) && Next(Plain, s, step).Some?
    ensures Backed(Next(Plain, s, step).value)
  {
    hide Backed, Ledger, AfterCommit;
    match step
    case Watch(_) => BackedQuiet(s, step);
    case Read(_) => BackedQuiet(s, step);
    case Look(_) => BackedQuiet(s, step);
    case Write(w) => BackedWrite(init, s, w);
    case Commit(c) => BackedCommit(s, c);
  }

  ghost predicate Inv(mode: Mode, init: Store, s: State) {
    Ledger(init, s) && Admitted(init, s.log) && Guarded(mode, s)
  }

  /** What an event finds when it is committed. */
  lemma CommitsEnabled(mode: Mode, init: Store, s: State, step: Step)
    requires Inv(mode, init, s) && Next(mode, s, step).Some?
    ensures var t := Next(mode, s, step).value;
            || (t.log == s.log && t.store == s.store)
            || (step.Commit? && t.log == s.log + [Transfer(step.c)] && Spendable(s.store.balance))
            || (step.Write? && t.log == s.log + [Overwrite(s.writers[step.w].value)] && !s.store.balance.Absent?)
  {
    hide Executed, Whole, Exec, Spendable;
    match step
    case Watch(_) =>
    case Read(_) =>
    case Look(_) =>
    case Commit(c) =>
      assert SpenderAt(s, c);
      if mode.Plain? { BackedCommit(s, c); }
    case Write(w) => assert WriterAt(s, w);
  }

  lemma StepKeeps(mode: Mode, init: Store, s: State, step: Step)
    requires Inv(mode, init, s) && Next(mode, s, step).Some?
    ensures Inv(mode, init, Next(mode, s, step).value)
  {
    hide Ledger, Admitted, Watched, Backed, Next, Exec, Spendable;
    var t := Next(mode, s, step).value;
    LedgerStep(mode, init, s, step);
    CommitsEnabled(mode, init, s, step);
    AdmittedIsSerial(init, s.log);
    LedgerStore(init, s);
    if t.log != s.log {
      AdmittedMore(init, s.log, t.log[|s.log|]);
    }
    if mode.Plain? {
      BackedStep(init, s, step);
    } else {
      WatchedStep(init, s, step);
    }
  }

  lemma LedgerStore(init: Store, s: State)
    requires Ledger(init, s)
    ensures Executed(init, s.log) == s.store
  {
  }

  lemma {:induction false} RunKeeps(mode: Mode, init: Store, s: State, steps: seq<Step>)
    requires Inv(mode, init, s) && Run(mode, s, steps).Some?
    ensures Inv(mode, init, Run(mode, s, steps).value)
    decreases |steps|
  {
    hide Inv, Next;
    if steps != [] {
      StepKeeps(mode, init, s, steps[0]);
      RunKeeps(mode, init, Next(mode, s, steps[0]).value, steps[1..]);
    }
  }
}
