/** The two keys of the transfer example as Redis keeps them, the transactions that clients
    commit on them, and what committing a list of transactions one after the other yields. */
module RedisStore {
  import opened Options
  import opened Sequences

  const I64_MIN := -0x8000_0000_0000_0000
  const I64_MAX := 0x7FFF_FFFF_FFFF_FFFF
  const AMOUNT := 20

  /** What a key holds. `Number` is an integer in the canonical form that Redis itself writes;
      `Loose` is one that client1 reads and Redis does not: what only Go's ParseInt accepts,
      such as "+50" or "007", and the empty string, which client1 takes for 0. `Text` is
      refused by both, as is a number outside 64 bits. */
  datatype Value = Absent | Number(n: int) | Loose(n: int) | Text

  predicate InRange(v: Value) {
    v.Number? || v.Loose? ==> I64_MIN <= v.n <= I64_MAX
  }

  /** `version` counts the writes to balance: what WATCH looks at. */
  datatype Store = Store(balance: Value, debt: Value, version: nat)

  datatype Event = Transfer(client: nat) | Overwrite(value: Value)

  // ----- Commands -----

  /** INCRBY and DECRBY: a missing key counts as 0, anything but a canonical number is an
      error, and so is leaving 64 bits. */
  function Add(v: Value, delta: int): Option<Value> {
    match v
    case Absent => Some(Number(delta))
    case Number(n) => if I64_MIN <= n + delta <= I64_MAX then Some(Number(n + delta)) else None
    case Loose(_) => None
    case Text => None
  }

  /** GET and ParseInt as client1 does them; None is the parse error. */
  function Amount(v: Value): Option<int> {
    match v
    case Absent => Some(0)
    case Number(n) => Some(n)
    case Loose(n) => Some(n)
    case Text => None
  }

  predicate Spendable(v: Value) {
    Amount(v).Some? && Amount(v).value >= AMOUNT
  }

  /** EXEC of the two queued commands. Redis runs both, and does not undo one when the other
      fails. */
  function Exec(s: Store): Store {
    var balance, debt := Add(s.balance, -AMOUNT), Add(s.debt, AMOUNT);
    Store(
      if balance.Some? then balance.value else s.balance,
      if debt.Some? then debt.value else s.debt,
      if balance.Some? then s.version + 1 else s.version)
  }

  /** Neither queued command fails. */
  predicate Whole(s: Store) {
    Add(s.balance, -AMOUNT).Some? && Add(s.debt, AMOUNT).Some?
  }

  // ----- One transaction at a time -----

  /** A client's whole program, run with nobody else about: client1 checks and transfers,
      client2 overwrites a balance that exists. */
  function Apply(s: Store, e: Event): Store {
    match e
    case Transfer(_) => if Spendable(s.balance) then Exec(s) else s
    case Overwrite(v) => if s.balance.Absent? then s else s.(balance := v, version := s.version + 1)
  }

  function Replay(init: Store, log: seq<Event>): Store {
    if log == [] then init else Apply(Replay(init, log[..|log| - 1]), log[|log| - 1])
  }

  lemma ReplayMore(init: Store, log: seq<Event>, e: Event)
    ensures Replay(init, log + [e]) == Apply(Replay(init, log), e)
  {
    Appended(log, e);
  }

  lemma {:induction false} ReplayConcat(init: Store, a: seq<Event>, b: seq<Event>)
    ensures Replay(init, a + b) == Replay(Replay(init, a), b)
  {
    if b == [] {
      Empty(a);
    } else {
      var front, e := b[..|b| - 1], b[|b| - 1];
      Appended(front, e);
      assert b == front + [e];
      Assoc(a, front, [e]);
      ReplayMore(init, a + front, e);
      ReplayConcat(init, a, front);
    }
  }

  // ----- What the commands do, whatever they find -----

  function Perform(s: Store, e: Event): Store {
    match e
    case Transfer(_) => Exec(s)
    case Overwrite(v) => s.(balance := v, version := s.version + 1)
  }

  function Executed(init: Store, log: seq<Event>): Store {
    if log == [] then init else Perform(Executed(init, log[..|log| - 1]), log[|log| - 1])
  }

  lemma ExecutedMore(init: Store, log: seq<Event>, e: Event)
    ensures Executed(init, log + [e]) == Perform(Executed(init, log), e)
  {
    Appended(log, e);
  }

  // ----- What the totals should be -----

  function Transfers(log: seq<Event>): nat {
    if log == [] then 0
    else Transfers(log[..|log| - 1]) + if log[|log| - 1].Transfer? then 1 else 0
  }

  /** The balance last overwritten, or the first one. */
  function LastSet(init: Value, log: seq<Event>): Value {
    if log == [] then init
    else if log[|log| - 1].Overwrite? then log[|log| - 1].value
    else LastSet(init, log[..|log| - 1])
  }

  /** How many transfers came after it. */
  function SinceSet(log: seq<Event>): nat {
    if log == [] || log[|log| - 1].Overwrite? then 0 else SinceSet(log[..|log| - 1]) + 1
  }

  /** `v` moved by `times` whole transfers; a missing key counts as 0. */
  predicate Moved(v: Value, times: nat, delta: int, now: Value) {
    if times == 0 then now == v
    else (v.Absent? || v.Number?) && now == Number(Amount(v).value + times * delta)
  }

  /** Debt rose by 20 with every transfer and balance fell by 20 with every one since it was
      last set. */
  predicate Totals(init: Store, log: seq<Event>) {
    var now := Replay(init, log);
    && Moved(init.debt, Transfers(log), AMOUNT, now.debt)
    && Moved(LastSet(init.balance, log), SinceSet(log), -AMOUNT, now.balance)
  }

  /** The event changes something: the transfer finds enough money, the overwrite a balance. */
  predicate Enabled(s: Store, e: Event) {
    match e
    case Transfer(_) => Spendable(s.balance)
    case Overwrite(_) => !s.balance.Absent?
  }

  ghost predicate Admitted(init: Store, log: seq<Event>) {
    forall k :: 0 <= k < |log| ==> Enabled(Replay(init, log[..k]), log[k])
  }

  lemma AdmittedMore(init: Store, log: seq<Event>, e: Event)
    ensures Admitted(init, log + [e]) <==> Admitted(init, log) && Enabled(Replay(init, log), e)
  {
    var more := log + [e];
    assert more[..|log|] == log && more[|log|] == e;
    assert forall k :: 0 <= k < |log| ==> more[..k] == log[..k] && more[k] == log[k];
    if Admitted(init, more) {
      forall k | 0 <= k < |log|
        ensures Enabled(Replay(init, log[..k]), log[k])
      {
        assert Enabled(Replay(init, more[..k]), more[k]);
      }
    }
  }

  /** Where every check would have passed, the checks make no difference. */
  lemma {:induction false} AdmittedIsSerial(init: Store, log: seq<Event>)
    requires Admitted(init, log)
    ensures Replay(init, log) == Executed(init, log)
  {
    hide Exec, Spendable, Admitted;
    if log != [] {
      var front, e := log[..|log| - 1], log[|log| - 1];
      assert log == front + [e];
      AdmittedMore(init, front, e);
      AdmittedIsSerial(init, front);
    }
  }

  /** Neither command of a transfer fails exactly when Redis reads the balance as a number and
      the debt as one with room for 20 more. */
  lemma WholeIff(s: Store)
    requires Spendable(s.balance) && InRange(s.balance) && InRange(s.debt)
    ensures Whole(s) <==> s.balance.Number? && (s.debt.Absent? || (s.debt.Number? && s.debt.n <= I64_MAX - 20))
    ensures Whole(s) ==> Exec(s).balance == Number(s.balance.n - 20) && Exec(s).balance.n >= 0
    ensures Whole(s) ==> Exec(s).debt == Number(if s.debt.Absent? then 20 else s.debt.n + 20)
  {
  }

  /** One event: the totals stay right exactly when the event is no half-done transfer. */
  lemma TotalsStep(init: Store, log: seq<Event>, e: Event)
    requires Totals(init, log) && Enabled(Replay(init, log), e)
    ensures Totals(init, log + [e]) <==> (e.Transfer? ==> Whole(Replay(init, log)))
  {
    ReplayMore(init, log, e);
    Appended(log, e);
    var s := Replay(init, log);
    match e
    case Overwrite(v) =>
    case Transfer(_) =>
      assert Replay(init, log + [e]) == Exec(s);
      assert SinceSet(log + [e]) == SinceSet(log) + 1 && Transfers(log + [e]) == Transfers(log) + 1;
      assert LastSet(init.balance, log + [e]) == LastSet(init.balance, log);
      MovedOnce(init.debt, Transfers(log), AMOUNT, s.debt);
      MovedOnce(LastSet(init.balance, log), SinceSet(log), -AMOUNT, s.balance);
  }

  ghost predicate AlwaysTotals(init: Store, log: seq<Event>) {
    forall k :: 0 <= k <= |log| ==> Totals(init, log[..k])
  }

  ghost predicate AlwaysWhole(init: Store, log: seq<Event>) {
    forall k :: 0 <= k < |log| && log[k].Transfer? ==> Whole(Replay(init, log[..k]))
  }

  lemma AlwaysMore(init: Store, log: seq<Event>, e: Event)
    ensures AlwaysTotals(init, log + [e]) <==> AlwaysTotals(init, log) && Totals(init, log + [e])
    ensures AlwaysWhole(init, log + [e]) <==> AlwaysWhole(init, log) && (e.Transfer? ==> Whole(Replay(init, log)))
  {
    hide Totals, Whole, Replay;
    var more := log + [e];
    assert more[..|log|] == log && more[|log|] == e && more[..|more|] == more;
    assert forall k :: 0 <= k <= |log| ==> more[..k] == log[..k];
    assert forall k :: 0 <= k < |log| ==> more[k] == log[k];
    assert AlwaysTotals(init, more) ==> AlwaysTotals(init, log) by {
      if AlwaysTotals(init, more) {
        forall k | 0 <= k <= |log|
          ensures Totals(init, log[..k])
        {
          assert Totals(init, more[..k]);
        }
      }
    }
    assert AlwaysWhole(init, more) ==> AlwaysWhole(init, log) by {
      if AlwaysWhole(init, more) {
        forall k | 0 <= k < |log| && log[k].Transfer?
          ensures Whole(Replay(init, log[..k]))
        {
          assert Whole(Replay(init, more[..k]));
        }
      }
    }
  }

  /** The totals are right at every moment exactly when no transfer was half done. */
  lemma {:induction false} TotalsIff(init: Store, log: seq<Event>)
    requires Admitted(init, log)
    ensures AlwaysTotals(init, log) <==> AlwaysWhole(init, log)
  {
    hide Totals, Whole, Enabled, Admitted, AlwaysTotals, AlwaysWhole;
    if log == [] {
      NothingYet(init);
    } else {
      var front, e := log[..|log| - 1], log[|log| - 1];
      assert log == front + [e];
      AdmittedMore(init, front, e);
      AlwaysMore(init, front, e);
      TotalsIff(init, front);
      if AlwaysTotals(init, front) {
        AlwaysNow(init, front);
        TotalsStep(init, front, e);
      }
    }
  }

  lemma NothingYet(init: Store)
    ensures AlwaysTotals(init, []) && AlwaysWhole(init, []) && Admitted(init, [])
  {
  }

  lemma AlwaysNow(init: Store, log: seq<Event>)
    requires AlwaysTotals(init, log)
    ensures Totals(init, log)
  {
    assert log[..|log|] == log;
  }

  /** What a caller can see to beforehand: no balance in loose form is ever put in, and the
      debt is missing or a number with room for `times` transfers. */
  ghost predicate Room(init: Store, log: seq<Event>, times: nat) {
    && InRange(init.balance) && InRange(init.debt)
    && !init.balance.Loose? && (init.debt.Absent? || init.debt.Number?)
    && Amount(init.debt).value + times * AMOUNT <= I64_MAX
    && forall v :: Overwrite(v) in log ==> InRange(v) && !v.Loose?
  }

  /** Then no transfer is half done, and the totals are right throughout. */
  lemma {:induction false} RoomSuffices(init: Store, log: seq<Event>, times: nat)
    requires Admitted(init, log) && Room(init, log, times) && Transfers(log) <= times
    ensures AlwaysTotals(init, log)
    ensures var s := Replay(init, log); InRange(s.balance) && !s.balance.Loose?
  {
    hide Admitted, AlwaysTotals, AlwaysWhole;
    if log == [] {
      NothingYet(init);
    } else {
      var front, e := log[..|log| - 1], log[|log| - 1];
      assert log == front + [e];
      assert e in log;
      AdmittedMore(init, front, e);
      AlwaysMore(init, front, e);
      RoomSuffices(init, front, times);
      AlwaysNow(init, front);
      TotalsStep(init, front, e);
      if e.Transfer? {
        assert Transfers(log) == Transfers(front) + 1;
      }
    }
  }

  lemma MovedOnce(v: Value, times: nat, delta: int, now: Value)
    requires Moved(v, times, delta, now) && delta != 0
    ensures Moved(v, times + 1, delta, Add(now, delta).value) <== Add(now, delta).Some?
    ensures Moved(v, times + 1, delta, now) ==> Add(now, delta).Some?
  {
    assert (times + 1) * delta == times * delta + delta;
  }

  /** Without that room the totals do break: a balance written as "+50" buys debt for nothing,
      and a full debt loses the 20 taken from the balance. */
  lemma HalfDone(balance: Value, debt: Value)
    requires (balance == Loose(50) && debt == Number(0)) || (balance == Number(50) && debt == Number(I64_MAX))
    ensures var init := Store(balance, debt, 0);
            Admitted(init, [Transfer(0)]) && !AlwaysTotals(init, [Transfer(0)])
    ensures balance.Loose? ==> Exec(Store(balance, debt, 0)) == Store(balance, Number(20), 0)
    ensures balance.Number? ==> Exec(Store(balance, debt, 0)) == Store(Number(30), debt, 1)
  {
    var init, log := Store(balance, debt, 0), [Transfer(0)];
    NothingYet(init);
    AdmittedMore(init, [], Transfer(0));
    AlwaysMore(init, [], Transfer(0));
    assert [] + log == log;
    TotalsIff(init, log);
  }
}
