/** client1 and client2 as programs against a server that other clients use meanwhile. */
module RedisClient {
  import opened Options
  import opened Sequences
  import opened RedisStore
  import opened RedisTransfer

  class Server {
    var store: Store
    ghost const start: Store
    ghost var log: seq<Event>

    /** The store is what the logged commands made of the first one. */
    ghost predicate Valid()
      reads this
    {
      store == Executed(start, log)
    }

    /** Every logged transaction found what its check demands, so the log is a serial one. */
    ghost predicate Serial()
      reads this
    {
      Admitted(start, log)
    }

    constructor (store: Store)
      ensures Valid() && Serial() && this.store == store && log == []
    {
      this.store, start, log := store, store, [];
    }

    /** Other clients commit: under WATCH only what the server finds in order, in a plain
        pipeline everything. */
    method Serve(mode: Mode, events: seq<Event>)
      requires Valid()
      modifies this
      ensures Valid() && old(log) <= log && store.version >= old(store).version
      ensures mode.Transactional? && old(Serial()) ==> Serial()
      ensures forall k :: |old(log)| <= k < |log| ==> log[k] in events
      ensures store.version == old(store).version ==> store.balance == old(store).balance
      ensures events == [] ==> store == old(store)
      ensures !old(store).balance.Absent? && (forall v :: Overwrite(v) in events ==> !v.Absent?) ==> !store.balance.Absent?
    {
      hide Executed, Admitted;
      for i := 0 to |events|
        invariant Valid() && old(log) <= log && store.version >= old(store).version
        invariant mode.Transactional? && old(Serial()) ==> Serial()
        invariant forall k :: |old(log)| <= k < |log| ==> log[k] in events
        invariant store.version == old(store).version ==> store.balance == old(store).balance
        invariant i == 0 ==> store == old(store)
        invariant !old(store).balance.Absent? && (forall v :: Overwrite(v) in events ==> !v.Absent?) ==> !store.balance.Absent?
      {
        if mode.Plain? || Enabled(store, events[i]) {
          assert events[i] in events;
          Commit(events[i]);
        }
      }
    }

    method Commit(e: Event)
      requires Valid()
      modifies this
      ensures Valid() && log == old(log) + [e] && store == Perform(old(store), e)
      ensures old(Serial()) && Enabled(old(store), e) ==> Serial()
    {
      hide Executed, Admitted;
      ExecutedMore(start, log, e);
      AdmittedMore(start, log, e);
      if Serial() { AdmittedIsSerial(start, log); }
      store := Perform(store, e);
      log := log + [e];
    }

    /** client1's two commands: under WATCH None when the watch was broken, else whether both
        commands succeeded. The plain pipeline looks at no watch. */
    method Execute(mode: Mode, watched: nat, me: nat) returns (reply: Option<bool>)
      requires Valid()
      modifies this
      ensures Valid()
      ensures if mode.Transactional? && watched != old(store).version then
                reply == None && log == old(log) && store == old(store)
              else
                reply == Some(Whole(old(store))) && log == old(log) + [Transfer(me)] && store == Exec(old(store))
      ensures old(Serial()) && Spendable(old(store).balance) ==> Serial()
    {
      if mode.Transactional? && watched != store.version { return None; }
      reply := Some(Whole(store));
      Commit(Transfer(me));
    }
  }

  /** One call of client1. `others(k)` is what other clients try to commit just before this
      one's k-th command, `seen` the balance its last attempt read. The call is turned down
      exactly when that is no number or one below 20; otherwise it commits one transfer, or
      gives up after three conflicts. Under WATCH a serial log stays serial. With nobody else
      about, money enough in Redis's own form and room for the debt, 20 moves. */
  method Client1(mode: Mode, server: Server, me: nat, others: nat -> seq<Event>)
    returns (outcome: Outcome, attempts: nat, seen: Value)
    requires server.Valid() && Transfer(me) !in server.log
    requires forall k :: Transfer(me) !in others(k)
    modifies server
    ensures server.Valid() && old(server.log) <= server.log && 1 <= attempts <= 3
    ensures mode.Transactional? && old(server.Serial()) ==> server.Serial()
    ensures outcome.ParseError? <==> seen.Text?
    ensures outcome.Insufficient? <==> seen.Absent? || (!seen.Text? && seen.n < 20)
    ensures outcome.ParseError? || outcome.Insufficient? ==> server.store.balance == seen
    ensures Transfer(me) in server.log <==> Committed(outcome)
    ensures Committed(outcome) ==>
              exists k :: |old(server.log)| <= k < |server.log| && server.log[k] == Transfer(me)
                && Transfer(me) !in server.log[..k] && Transfer(me) !in server.log[k + 1..]
                && (outcome.Success? <==> Whole(Executed(server.start, server.log[..k])))
                && (mode.Transactional? ==> Executed(server.start, server.log[..k]).balance == seen)
    ensures outcome.GaveUp? ==> attempts == 3 && server.store.version >= old(server.store.version) + 3
    ensures mode.Plain? ==> attempts == 1 && !outcome.GaveUp?
    ensures (forall k :: others(k) == []) ==>
              && attempts == 1 && seen == old(server.store).balance && !outcome.GaveUp?
              && server.store == if Committed(outcome) then Exec(old(server.store)) else old(server.store)
    ensures (forall k :: others(k) == []) && Plenty(old(server.store)) ==>
              && outcome == Success
              && server.store.balance == Number(old(server.store).balance.n - 20)
              && server.store.debt == Number(old(server.store).debt.n + 20)
  {
    hide Admitted, Executed, Whole, Exec;
    PlentyIsWhole(server.store);
    attempts, seen := 0, server.store.balance;
    while attempts < MAX_RETRIES
      invariant server.Valid() && old(server.log) <= server.log && attempts <= MAX_RETRIES
      invariant mode.Transactional? && old(server.Serial()) ==> server.Serial()
      invariant Transfer(me) !in server.log && (mode.Plain? ==> attempts == 0)
      invariant server.store.version >= old(server.store.version) + attempts
      invariant attempts > 0 ==> Spendable(seen)
      invariant (forall k :: others(k) == []) ==> attempts == 0 && server.store == old(server.store)
    {
      server.Serve(mode, others(3 * attempts));
      var watched := server.store.version;
      server.Serve(mode, others(3 * attempts + 1));
      seen := server.store.balance;
      var amount := Amount(seen);
      attempts := attempts + 1;
      if amount.None? { return ParseError, attempts, seen; }
      if amount.value < AMOUNT { return Insufficient, attempts, seen; }
      server.Serve(mode, others(3 * attempts - 1));
      ghost var before := server.log;
      var reply := server.Execute(mode, watched, me);
      if reply.Some? {
        assert server.log[..|before|] == before && server.log[|before| + 1..] == [];
        return if reply.value then Success else ExecError, attempts, seen;
      }
    }
    return GaveUp, attempts, seen;
  }

  /** At least 20 to take, and room for 20 more debt. */
  predicate Plenty(s: Store) {
    && s.balance.Number? && 20 <= s.balance.n < 0x8000_0000_0000_0000
    && s.debt.Number? && -0x8000_0000_0000_0000 <= s.debt.n && s.debt.n + 20 < 0x8000_0000_0000_0000
  }

  lemma PlentyIsWhole(s: Store)
    ensures Plenty(s) ==>
      && Whole(s) && Exec(s).balance == Number(s.balance.n - 20) && Exec(s).debt == Number(s.debt.n + 20)
  {
  }

  /** One call of client2; `value` is 800 in the program. False when there is no balance. */
  method Client2(mode: Mode, server: Server, value: Value, others: seq<Event>) returns (ok: bool)
    requires server.Valid() && !value.Absent?
    requires forall v :: Overwrite(v) in others ==> !v.Absent?
    modifies server
    ensures server.Valid() && old(server.log) <= server.log
    ensures mode.Transactional? && old(server.Serial()) ==> server.Serial()
    ensures ok == !old(server.store).balance.Absent?
    ensures ok ==> server.store.balance == value && server.log != [] && server.log[|server.log| - 1] == Overwrite(value)
  {
    hide Executed, Admitted;
    if server.store.balance.Absent? { return false; }
    server.Serve(mode, others);
    server.Commit(Overwrite(value));
    ok := true;
  }
}
