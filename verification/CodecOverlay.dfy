/** Joining two accepted Person inputs: what each field becomes, and exactly when that is
    merging what the two parse to. */
module CodecOverlay {
  import opened Options
  import opened Sequences
  import opened Wire
  import opened Scalars
  import opened Messages
  import opened Codec
  import opened CodecLaws
  import opened CodecAcceptance

  // ----- Timestamps -----

  /** Some record of the stream sets field `n`. */
  predicate TimeSets(rs: seq<Record>, n: FieldNumber) {
    exists r :: r in rs && TimeKnows(r) && r.number == n
  }

  lemma TimeSetsSplit(rs: seq<Record>, n: FieldNumber)
    requires rs != []
    ensures TimeSets(rs, n) <==> (TimeKnows(rs[0]) && rs[0].number == n) || TimeSets(rs[1..], n)
  {
    HeadTail(rs);
    assert forall r :: r in rs <==> r == rs[0] || r in rs[1..];
  }

  /** Two folds of one stream agree on what it sets and keep their own on what it does not. */
  lemma {:induction false} TimeFolds(p: Timestamp, q: Timestamp, rs: seq<Record>)
    ensures Fold(ApplyTime, p, rs).Some? && Fold(ApplyTime, q, rs).Some?
    ensures var p', q' := Fold(ApplyTime, p, rs).value, Fold(ApplyTime, q, rs).value;
            && (if TimeSets(rs, 1) then p'.seconds == q'.seconds else p'.seconds == p.seconds && q'.seconds == q.seconds)
            && (if TimeSets(rs, 2) then p'.nanos == q'.nanos else p'.nanos == p.nanos && q'.nanos == q.nanos)
    decreases |rs|
  {
    hide TimeSets;
    if rs == [] {
      NoTimeSets();
    } else {
      TimeSetsSplit(rs, 1);
      TimeSetsSplit(rs, 2);
      TimeFolds(ApplyTime(p, rs[0]).value, ApplyTime(q, rs[0]).value, rs[1..]);
    }
  }

  lemma NoTimeSets()
    ensures !TimeSets([], 1) && !TimeSets([], 2)
  {
  }

  /** The records of a last_updated payload, if this is one. */
  function TimeIn(r: Record): seq<Record> {
    if r.number == 5 && r.payload.Len? && ReadRecords(r.payload.data).Some?
    then ReadRecords(r.payload.data).value else []
  }

  /** The records of all last_updated payloads, one after the other. */
  function TimeStream(rs: seq<Record>): seq<Record> {
    if rs == [] then [] else TimeIn(rs[0]) + TimeStream(rs[1..])
  }

  // ----- People -----

  predicate PersonSets(rs: seq<Record>, n: FieldNumber) {
    exists r :: r in rs && PersonKnows(r) && r.number == n
  }

  lemma PersonSetsSplit(rs: seq<Record>, n: FieldNumber)
    requires rs != []
    ensures PersonSets(rs, n) <==> (PersonKnows(rs[0]) && rs[0].number == n) || PersonSets(rs[1..], n)
  {
    HeadTail(rs);
    assert forall r :: r in rs <==> r == rs[0] || r in rs[1..];
  }

  lemma NoPersonSets(n: FieldNumber)
    ensures !PersonSets([], n)
  {
  }

  /** `p'` and `q'` are `p` and `q` after a stream that sets, or does not set, each scalar. */
  predicate Alike(p: Person, q: Person, p': Person, q': Person, rs: seq<Record>) {
    && (if PersonSets(rs, 1) then p'.name == q'.name else p'.name == p.name && q'.name == q.name)
    && (if PersonSets(rs, 2) then p'.id == q'.id else p'.id == p.id && q'.id == q.id)
    && (if PersonSets(rs, 3) then p'.email == q'.email else p'.email == p.email && q'.email == q.email)
    && (if PersonSets(rs, 6) then p'.height == q'.height else p'.height == p.height && q'.height == q.height)
    && (if PersonSets(rs, 7) then p'.weight == q'.weight else p'.weight == p.weight && q'.weight == q.weight)
  }

  lemma AlikeSplit(p: Person, q: Person, p1: Person, q1: Person, p': Person, q': Person, rs: seq<Record>)
    requires rs != [] && ApplyPerson(p, rs[0]) == Some(p1) && ApplyPerson(q, rs[0]) == Some(q1)
    requires Alike(p1, q1, p', q', rs[1..])
    ensures Alike(p, q, p', q', rs)
  {
    hide ParseInto, PersonSets;
    PersonSetsSplit(rs, 1);
    PersonSetsSplit(rs, 2);
    PersonSetsSplit(rs, 3);
    PersonSetsSplit(rs, 6);
    PersonSetsSplit(rs, 7);
  }

  lemma {:induction false} PersonFolds(p: Person, q: Person, rs: seq<Record>)
    requires Fold(ApplyPerson, p, rs).Some?
    ensures Fold(ApplyPerson, q, rs).Some?
    ensures Alike(p, q, Fold(ApplyPerson, p, rs).value, Fold(ApplyPerson, q, rs).value, rs)
    decreases |rs|
  {
    hide ApplyPerson, Alike, PersonAccepts;
    if rs == [] {
      AlikeNow(p, q);
    } else {
      PersonStepIff(p, rs[0]);
      PersonStepIff(q, rs[0]);
      var p1, q1 := ApplyPerson(p, rs[0]).value, ApplyPerson(q, rs[0]).value;
      PersonFolds(p1, q1, rs[1..]);
      AlikeSplit(p, q, p1, q1, Fold(ApplyPerson, p, rs).value, Fold(ApplyPerson, q, rs).value, rs);
    }
  }

  lemma AlikeNow(p: Person, q: Person)
    ensures Alike(p, q, p, q, [])
  {
  }

  /** The phone that a record brings, if any. */
  function PhoneIn(r: Record): seq<PhoneNumber> {
    if r.number == 4 && r.payload.Len? && ParseInto(ApplyPhone, NO_PHONE, r.payload.data).Some?
    then [ParseInto(ApplyPhone, NO_PHONE, r.payload.data).value] else []
  }

  function PhonesIn(rs: seq<Record>): seq<PhoneNumber> {
    if rs == [] then [] else PhoneIn(rs[0]) + PhonesIn(rs[1..])
  }

  lemma PhoneAdded(p: Person, r: Record)
    requires ApplyPerson(p, r).Some?
    ensures ApplyPerson(p, r).value.phones == p.phones + PhoneIn(r)
  {
    hide ParseInto;
    Empty(p.phones);
  }

  lemma {:induction false} PhonesAre(p: Person, rs: seq<Record>)
    requires Fold(ApplyPerson, p, rs).Some?
    ensures Fold(ApplyPerson, p, rs).value.phones == p.phones + PhonesIn(rs)
    decreases |rs|
  {
    hide ApplyPerson, PhoneIn;
    if rs == [] {
      Empty(p.phones);
    } else {
      PhoneAdded(p, rs[0]);
      PhonesAre(ApplyPerson(p, rs[0]).value, rs[1..]);
      Assoc(p.phones, PhoneIn(rs[0]), PhonesIn(rs[1..]));
    }
  }

  lemma {:induction false} NoTimeStream(rs: seq<Record>)
    requires !PersonSets(rs, 5)
    ensures TimeStream(rs) == []
  {
    if rs != [] {
      PersonSetsSplit(rs, 5);
      NoTimeStream(rs[1..]);
    }
  }

  /** However many last_updated records there are, C++ reads them as one stream. */
  lemma {:induction false} LastUpdatedIs(p: Person, rs: seq<Record>)
    requires Fold(ApplyPerson, p, rs).Some?
    ensures Fold(ApplyPerson, p, rs).value.lastUpdated ==
            if PersonSets(rs, 5) then Fold(ApplyTime, MutableTime(p), TimeStream(rs)) else p.lastUpdated
    decreases |rs|
  {
    hide PersonSets;
    if rs == [] {
      NoPersonSets(5);
    } else {
      var r, rest := rs[0], rs[1..];
      var p1 := ApplyPerson(p, r).value;
      PersonSetsSplit(rs, 5);
      LastUpdatedIs(p1, rest);
      if r.number == 5 && r.payload.Len? {
        var ds := ReadRecords(r.payload.data).value;
        FoldThen(ApplyTime, MutableTime(p), p1.lastUpdated.value, ds, TimeStream(rest));
        if !PersonSets(rest, 5) {
          NoTimeStream(rest);
        }
      } else {
        KeepsTime(p, r);
        Empty(TimeStream(rest));
      }
    }
  }

  lemma KeepsTime(p: Person, r: Record)
    requires ApplyPerson(p, r).Some? && !(r.number == 5 && r.payload.Len?)
    ensures ApplyPerson(p, r).value.lastUpdated == p.lastUpdated
  {
    hide ParseInto;
  }

  // ----- Joining is merging unless a written zero overrides -----

  predicate NoZeroTime(t: Timestamp, u: Timestamp, rs: seq<Record>) {
    && (TimeSets(rs, 1) && u.seconds == 0 ==> t.seconds == 0)
    && (TimeSets(rs, 2) && u.nanos == 0 ==> t.nanos == 0)
  }

  /** Where the stream `rs`, which parses to `b`, sets a scalar and leaves it empty or zero,
      `a` has it empty or zero already. */
  predicate NoZeroOverride(a: Person, b: Person, rs: seq<Record>) {
    && (PersonSets(rs, 1) && b.name == [] ==> a.name == [])
    && (PersonSets(rs, 2) && b.id == 0 ==> a.id == 0)
    && (PersonSets(rs, 3) && b.email == [] ==> a.email == [])
    && (PersonSets(rs, 6) && !Present32(b.height) ==> !Present32(a.height))
    && (PersonSets(rs, 7) && !Present64(b.weight) ==> !Present64(a.weight))
    && NoZeroTime(MutableTime(a), MutableTime(b), TimeStream(rs))
  }

  lemma TimeJoined(t: Timestamp, rs: seq<Record>)
    ensures Fold(ApplyTime, t, rs).Some? && Fold(ApplyTime, NO_TIME, rs).Some?
    ensures var u := Fold(ApplyTime, NO_TIME, rs).value;
            Fold(ApplyTime, t, rs).value == MergeTime(t, u) <==> NoZeroTime(t, u, rs)
  {
    hide TimeSets, Unrecognized;
    TimeFolds(NO_TIME, t, rs);
    TimeKeepsUnknown(NO_TIME, rs);
    TimeKeepsUnknown(t, rs);
    Empty(Unrecognized(TimeKnows, rs));
  }

  lemma LastUpdatedJoined(a: Person, rs: seq<Record>)
    requires Fold(ApplyPerson, a, rs).Some? && Fold(ApplyPerson, NO_PERSON, rs).Some?
    ensures var b := Fold(ApplyPerson, NO_PERSON, rs).value;
            Fold(ApplyPerson, a, rs).value.lastUpdated == MergePerson(a, b).lastUpdated <==>
            NoZeroTime(MutableTime(a), MutableTime(b), TimeStream(rs))
  {
    hide ApplyPerson, ApplyTime, TimeStream, PersonSets;
    LastUpdatedIs(a, rs);
    LastUpdatedIs(NO_PERSON, rs);
    if PersonSets(rs, 5) {
      TimeJoined(MutableTime(a), TimeStream(rs));
    } else {
      NoTimeStream(rs);
      NoTimeSets();
    }
  }

  lemma RepeatedJoined(a: Person, rs: seq<Record>)
    requires Fold(ApplyPerson, a, rs).Some? && Fold(ApplyPerson, NO_PERSON, rs).Some?
    ensures var r, m := Fold(ApplyPerson, a, rs).value, MergePerson(a, Fold(ApplyPerson, NO_PERSON, rs).value);
            r.phones == m.phones && r.unknown == m.unknown
  {
    hide ApplyPerson, PhonesIn, Unrecognized;
    PhonesAre(a, rs);
    PhonesAre(NO_PERSON, rs);
    CopyPhonesIsIdentity(PhonesIn(rs));
    Empty(PhonesIn(rs));
    PersonKeepsUnknown(a, rs);
    PersonKeepsUnknown(NO_PERSON, rs);
    Empty(Unrecognized(PersonKnows, rs));
  }

  lemma StreamJoined(a: Person, rs: seq<Record>)
    requires Fold(ApplyPerson, a, rs).Some? && Fold(ApplyPerson, NO_PERSON, rs).Some?
    ensures var b := Fold(ApplyPerson, NO_PERSON, rs).value;
            DropSign(Fold(ApplyPerson, a, rs).value) == DropSign(MergePerson(a, b)) <==> NoZeroOverride(a, b, rs)
  {
    hide ApplyPerson, PersonSets, TimeStream, NoZeroTime, CopyPhones, MergeTime;
    PersonFolds(NO_PERSON, a, rs);
    LastUpdatedJoined(a, rs);
    RepeatedJoined(a, rs);
  }

  /** For any two accepted Person inputs, printed or not: parsing them joined is merging what
      each parses to, up to signed zero, exactly when no zero or empty value written in the
      second overrides something in the first. */
  lemma PersonJoinIff(x: bytes, y: bytes)
    requires ParseInto(ApplyPerson, NO_PERSON, x).Some? && ParseInto(ApplyPerson, NO_PERSON, y).Some?
    ensures var a, b := ParseInto(ApplyPerson, NO_PERSON, x).value, ParseInto(ApplyPerson, NO_PERSON, y).value;
            var joined := ParseInto(ApplyPerson, NO_PERSON, x + y);
            && joined.Some?
            && (DropSign(joined.value) == DropSign(MergePerson(a, b)) <==> NoZeroOverride(a, b, ReadRecords(y).value))
  {
    hide ApplyPerson, NoZeroOverride, DropSign, MergePerson, Alike;
    var a, rs := ParseInto(ApplyPerson, NO_PERSON, x).value, ReadRecords(y).value;
    ParseConcat(ApplyPerson, NO_PERSON, x, y);
    PersonFolds(NO_PERSON, a, rs);
    StreamJoined(a, rs);
  }
}
