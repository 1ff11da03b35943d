/** The transfer as a plain pipeline, which no WATCH holds back: exactly when its runs are
    serial all the same, and a run that is not. */
module RedisPlain {
  import opened Options
  import opened Sequences
  import opened RedisStore
  import opened RedisTransfer
  import opened RedisRuns

  /** The numbers that go in are 64-bit numbers. */
  predicate Fits(s: State) {
    InRange(s.store.balance) && forall x <- s.writers :: x.Finished? || InRange(x.value)
  }

  /** These steps lead to a transfer that did not find what its check demands. */
  ghost predicate Breaks(init: Store, s: State, steps: seq<Step>) {
    Run(Plain, s, steps).Some? && !Admitted(init, Run(Plain, s, steps).value.log)
  }

  lemma RunAfter(mode: Mode, s: State, step: Step, steps: seq<Step>)
    requires Next(mode, s, step).Some?
    ensures Run(mode, s, [step] + steps) == Run(mode, Next(mode, s, step).value, steps)
  {
    assert ([step] + steps)[1..] == steps;
  }

  lemma RunTwo(mode: Mode, s: State, a: Step, b: Step, steps: seq<Step>)
    requires Next(mode, s, a).Some? && Next(mode, Next(mode, s, a).value, b).Some?
    ensures Run(mode, s, [a, b] + steps) == Run(mode, Next(mode, Next(mode, s, a).value, b).value, steps)
  {
    hide Next;
    RunAfter(mode, s, a, [b] + steps);
    RunAfter(mode, Next(mode, s, a).value, b, steps);
    assert [a] + ([b] + steps) == [a, b] + steps;
  }

  /** One call commits on a balance below 20. */
  lemma BadCommit(init: Store, s: State, c: nat)
    requires c < |s.spenders| && s.spenders[c].Ready? && Replay(init, s.log) == s.store && !Spendable(s.store.balance)
    ensures Breaks(init, s, [Commit(c)])
  {
    hide Spendable, Exec;
    AdmittedMore(init, s.log, Transfer(c));
    RunAfter(Plain, s, Commit(c), []);
    assert [Commit(c)] + [] == [Commit(c)];
  }

  /** Everyone from call c on has read a balance that does not last for all of them. */
  lemma {:induction false} Drain(init: Store, s: State, c: nat) returns (steps: seq<Step>)
    requires c < |s.spenders| && (forall d :: c <= d < |s.spenders| ==> s.spenders[d].Ready?)
    requires Replay(init, s.log) == s.store
    requires s.store.balance.Number? && InRange(s.store.balance)
    requires s.store.balance.n < AMOUNT * (|s.spenders| - c)
    ensures Breaks(init, s, steps)
    decreases |s.spenders| - c
  {
    hide Whole;
    if s.store.balance.n < AMOUNT {
      BadCommit(init, s, c);
      steps := [Commit(c)];
    } else {
      var t := AfterCommit(Plain, s, c);
      ReplayMore(init, s.log, Transfer(c));
      assert t.store.balance == Number(s.store.balance.n - AMOUNT);
      var rest := Drain(init, t, c + 1);
      RunAfter(Plain, s, Commit(c), rest);
      steps := [Commit(c)] + rest;
    }
  }

  /** First everyone watches and reads a spendable balance, from call c on. */
  lemma {:induction false} ReadAndDrain(init: Store, s: State, c: nat) returns (steps: seq<Step>)
    requires c <= |s.spenders| && 0 < |s.spenders|
    requires forall d :: 0 <= d < |s.spenders| ==> if d < c then s.spenders[d].Ready? else s.spenders[d].Starting?
    requires Replay(init, s.log) == s.store
    requires s.store.balance.Number? && InRange(s.store.balance)
    requires AMOUNT <= s.store.balance.n < AMOUNT * |s.spenders|
    ensures Breaks(init, s, steps)
    decreases |s.spenders| - c
  {
    if c == |s.spenders| {
      steps := Drain(init, s, 0);
    } else {
      var t := Next(Plain, Next(Plain, s, Watch(c)).value, Read(c)).value;
      var rest := ReadAndDrain(init, t, c + 1);
      RunTwo(Plain, s, Watch(c), Read(c), rest);
      steps := [Watch(c), Read(c)] + rest;
    }
  }

  /** Writer w has overwritten. */
  function Overwritten(s: State, w: nat): State
    requires w < |s.writers| && s.writers[w].Looking?
  {
    var v := s.writers[w].value;
    s.(store := s.store.(balance := v, version := s.store.version + 1),
       writers := s.writers[w := Writing(v)][w := Finished], log := s.log + [Overwrite(v)])
  }

  lemma OverwriteRun(init: Store, s: State, w: nat, steps: seq<Step>)
    requires w < |s.writers| && s.writers[w].Looking? && !s.store.balance.Absent?
    requires Replay(init, s.log) == s.store
    ensures Run(Plain, s, [Look(w), Write(w)] + steps) == Run(Plain, Overwritten(s, w), steps)
    ensures Replay(init, Overwritten(s, w).log) == Overwritten(s, w).store
  {
    RunTwo(Plain, s, Look(w), Write(w), steps);
    ReplayMore(init, s.log, Overwrite(s.writers[w].value));
  }

  /** A call reads a spendable balance, writer w puts in one that is not, the call commits. */
  lemma BreakBetween(init: Store, s: State, w: nat) returns (steps: seq<Step>)
    requires 0 < |s.spenders| && s.spenders[0].Starting? && Spendable(s.store.balance)
    requires Replay(init, s.log) == s.store
    requires w < |s.writers| && s.writers[w].Looking? && !Spendable(s.writers[w].value)
    ensures Breaks(init, s, steps)
  {
    hide Exec, Whole, Replay, Admitted;
    var t := Next(Plain, Next(Plain, s, Watch(0)).value, Read(0)).value;
    var u := Overwritten(t, w);
    OverwriteRun(init, t, w, [Commit(0)]);
    BadCommit(init, u, 0);
    RunTwo(Plain, s, Watch(0), Read(0), [Look(w), Write(w)] + [Commit(0)]);
    steps := [Watch(0), Read(0)] + ([Look(w), Write(w)] + [Commit(0)]);
  }

  /** From a spendable balance that does not cover everyone. */
  lemma BreakUncovered(init: Store, s: State) returns (steps: seq<Step>)
    requires 0 < |s.spenders| && (forall d :: 0 <= d < |s.spenders| ==> s.spenders[d].Starting?)
    requires Replay(init, s.log) == s.store && InRange(s.store.balance)
    requires Spendable(s.store.balance) && !Covers(s.store.balance, |s.spenders|)
    ensures Breaks(init, s, steps)
  {
    steps := ReadAndDrain(init, s, 0);
  }

  /** Writer w puts in such a balance first. */
  lemma BreakAfterWrite(init: Store, s: State, w: nat) returns (steps: seq<Step>)
    requires 0 < |s.spenders| && (forall d :: 0 <= d < |s.spenders| ==> s.spenders[d].Starting?)
    requires Replay(init, s.log) == s.store && !s.store.balance.Absent?
    requires w < |s.writers| && s.writers[w].Looking? && InRange(s.writers[w].value)
    requires Spendable(s.writers[w].value) && !Covers(s.writers[w].value, |s.spenders|)
    ensures Breaks(init, s, steps)
  {
    OverwriteRun(init, s, w, []);
    var rest := BreakUncovered(init, Overwritten(s, w));
    OverwriteRun(init, s, w, rest);
    steps := [Look(w), Write(w)] + rest;
  }

  /** An unsafe start has a run that is not serial. */
  lemma UnsafeBreaks(s: State) returns (steps: seq<Step>)
    requires Fresh(s) && Fits(s) && !PlainSafe(s)
    ensures Breaks(s.store, s, steps)
  {
    hide Breaks, Run, Next, Replay;
    var init, first, n := s.store, s.store.balance, |s.spenders|;
    assert Replay(init, s.log) == s.store by { Nothing(init); }
    if Spendable(first) && !Covers(first, n) {
      steps := BreakUncovered(init, s);
    } else {
      var x :| x in s.writers && !Covers(x.value, n);
      var w :| 0 <= w < |s.writers| && s.writers[w] == x;
      if Spendable(x.value) {
        steps := BreakAfterWrite(init, s, w);
      } else if Spendable(first) {
        steps := BreakBetween(init, s, w);
      } else {
        var y :| y in s.writers && Spendable(y.value);
        var u :| 0 <= u < |s.writers| && s.writers[u] == y;
        OverwriteRun(init, s, u, []);
        var rest := BreakBetween(init, Overwritten(s, u), w);
        OverwriteRun(init, s, u, rest);
        Composed(init, s, u, rest);
        steps := [Look(u), Write(u)] + rest;
      }
    }
  }

  lemma Nothing(init: Store)
    ensures Replay(init, []) == init
  {
  }

  lemma Composed(init: Store, s: State, u: nat, rest: seq<Step>)
    requires u < |s.writers| && s.writers[u].Looking?
    requires Run(Plain, s, [Look(u), Write(u)] + rest) == Run(Plain, Overwritten(s, u), rest)
    requires Breaks(init, Overwritten(s, u), rest)
    ensures Breaks(init, s, [Look(u), Write(u)] + rest)
  {
  }

  /** The plain pipeline is serial in all its runs exactly from the safe starts. */
  lemma PlainSerialIff(s: State)
    requires Fresh(s) && Fits(s)
    ensures PlainSafe(s) <==>
            forall steps :: Run(Plain, s, steps).Some? ==> Serial(s.store, Run(Plain, s, steps).value)
  {
    hide PlainSafe, Serial, Run;
    if PlainSafe(s) {
      forall steps | Run(Plain, s, steps).Some?
        ensures Serial(s.store, Run(Plain, s, steps).value)
      {
        Serializable(Plain, s, steps);
      }
    } else {
      var steps := UnsafeBreaks(s);
      NotSerial(s.store, s, steps);
    }
  }

  lemma NotSerial(init: Store, s: State, steps: seq<Step>)
    requires Breaks(init, s, steps)
    ensures Run(Plain, s, steps).Some? && !Serial(init, Run(Plain, s, steps).value)
  {
  }

  // ----- Two calls on 20 -----

  lemma {:induction false} RunThrough(mode: Mode, states: seq<State>, steps: seq<Step>)
    requires |states| == |steps| + 1
    requires forall k :: 0 <= k < |steps| ==> Next(mode, states[k], steps[k]) == Some(states[k + 1])
    ensures Run(mode, states[0], steps) == Some(states[|steps|])
    decreases |steps|
  {
    hide Next;
    if steps != [] {
      assert Next(mode, states[0], steps[0]) == Some(states[1]);
      RunThrough(mode, states[1..], steps[1..]);
    }
  }

  function TwoCalls(): seq<Step> {
    [Watch(0), Watch(1), Read(0), Read(1), Commit(0), Commit(1)]
  }

  function Moves(s: State, c: nat, p: Client1): State
    requires c < |s.spenders|
  {
    s.(spenders := s.spenders[c := p])
  }

  /** Two calls that both watch and read before either commits. */
  function BothReady(): (states: seq<State>)
    ensures |states| == 5 && forall k :: 0 <= k < 5 ==> |states[k].spenders| == 2
  {
    var s0 := State(Store(Number(20), Number(0), 0), [Starting(0), Starting(0)], [], []);
    var s1 := Moves(s0, 0, Watching(0, 0));
    var s2 := Moves(s1, 1, Watching(0, 0));
    var s3 := Moves(s2, 0, Ready(0, 0));
    [s0, s1, s2, s3, Moves(s3, 1, Ready(0, 0))]
  }

  /** With the plain pipeline both calls spend the same 20: both report success, the balance
      goes below zero, and the second transfer found too little. */
  lemma PlainPipelineOverdraws()
    ensures Run(Plain, BothReady()[0], TwoCalls()) ==
            Some(State(Store(Number(-20), Number(40), 2), [Done(Success), Done(Success)], [], [Transfer(0), Transfer(1)]))
    ensures !Admitted(BothReady()[0].store, [Transfer(0), Transfer(1)])
  {
    var s := BothReady()[4];
    var a := AfterCommit(Plain, s, 0);
    var b := AfterCommit(Plain, a, 1);
    RunThrough(Plain, BothReady() + [a, b], TwoCalls());
    assert b.spenders == [Done(Success), Done(Success)] && b.log == [Transfer(0), Transfer(1)];
    ReplayMore(s.store, [], Transfer(0));
    AdmittedMore(s.store, [Transfer(0)], Transfer(1));
    assert [] + [Transfer(0)] == [Transfer(0)] && [Transfer(0)] + [Transfer(1)] == [Transfer(0), Transfer(1)];
  }

  /** The same steps under WATCH: the second call is turned back. */
  lemma TransactionTurnsBack()
    ensures Run(Transactional, BothReady()[0], TwoCalls()) ==
            Some(State(Store(Number(0), Number(20), 1), [Done(Success), Starting(1)], [], [Transfer(0)]))
  {
    var s := BothReady()[4];
    var a := AfterCommit(Transactional, s, 0);
    var b := AfterCommit(Transactional, a, 1);
    RunThrough(Transactional, BothReady() + [a, b], TwoCalls());
    assert b.spenders == [Done(Success), Starting(1)] && b.log == [Transfer(0)];
  }
}
