/** Exactly when the two readers recover the same known fields from one input: they part only
    over a second last_updated, which C++ merges into the first and JavaScript puts in its
    place. */
module JsAgreement {
  import opened Options
  import opened Sequences
  import opened Wire
  import opened Scalars
  import opened Messages
  import opened Codec
  import opened CodecLaws
  import opened CodecOverlay
  import opened JsReading
  import opened JsMessages

  // ----- Timestamps -----

  /** How many last_updated records there are. */
  function TimeCount(rs: seq<Record>): nat {
    if rs == [] then 0 else (if rs[0].number == 5 && rs[0].payload.Len? then 1 else 0) + TimeCount(rs[1..])
  }

  /** The records of the last last_updated alone. */
  function LastStream(rs: seq<Record>): seq<Record> {
    if rs == [] then []
    else if TimeCount(rs[1..]) > 0 then LastStream(rs[1..])
    else TimeIn(rs[0])
  }

  function TimeOf(rs: seq<Record>): Timestamp {
    match Fold(ApplyTime, NO_TIME, rs)
    case None => NO_TIME
    case Some(t) => t
  }

  /** With two or more last_updated records, the last of them sets what is not zero in the
      merge of all. */
  predicate TimesAgree(rs: seq<Record>) {
    TimeCount(rs) >= 2 ==>
      && (TimeSets(LastStream(rs), 1) || TimeOf(TimeStream(rs)).seconds == 0)
      && (TimeSets(LastStream(rs), 2) || TimeOf(TimeStream(rs)).nanos == 0)
  }

  lemma {:induction false} CountIff(rs: seq<Record>)
    ensures TimeCount(rs) > 0 <==> PersonSets(rs, 5)
  {
    if rs == [] {
      NoPersonSets(5);
    } else {
      PersonSetsSplit(rs, 5);
      CountIff(rs[1..]);
    }
  }

  /** The whole stream is that of the earlier records and that of the last one. */
  lemma {:induction false} LastIsSuffix(rs: seq<Record>) returns (earlier: seq<Record>)
    ensures TimeStream(rs) == earlier + LastStream(rs)
    ensures TimeCount(rs) <= 1 ==> earlier == []
  {
    hide ReadRecords;
    earlier := [];
    if rs != [] {
      var first := TimeIn(rs[0]);
      CountIff(rs[1..]);
      if TimeCount(rs[1..]) > 0 {
        var rest := LastIsSuffix(rs[1..]);
        Assoc(first, rest, LastStream(rs[1..]));
        earlier := first + rest;
      } else {
        NoTimeStream(rs[1..]);
        Empty(first);
      }
    }
  }

  /** The last record alone and the merge of all give the same known fields exactly then. */
  lemma LastAloneIff(rs: seq<Record>)
    ensures TimeView(TimeOf(LastStream(rs))) == TimeView(TimeOf(TimeStream(rs))) <==> TimesAgree(rs)
  {
    hide TimeSets, ApplyTime, TimeStream, LastStream;
    var last := LastStream(rs);
    var earlier := LastIsSuffix(rs);
    TimeFoldTotal(NO_TIME, earlier);
    var t := Fold(ApplyTime, NO_TIME, earlier).value;
    FoldThen(ApplyTime, NO_TIME, t, earlier, last);
    TimeFolds(NO_TIME, t, last);
    if TimeCount(rs) <= 1 {
      Empty(last);
    }
  }

  // ----- What JavaScript makes of last_updated -----

  lemma JsTimeIs(d: bytes)
    requires ReadRecords(d).Some? && BytesTyped(TimeTyped, d)
    ensures JsInto(JsTime, NO_TIME, d) == Some(TimeView(TimeOf(ReadRecords(d).value)))
  {
    TimeBytesTyped(d);
  }

  lemma JsTimeStep(j: Person, q: Person, r: Record)
    requires ApplyPerson(q, r).Some? && PersonTyped(r) && JsPerson(j, r).Some?
    ensures JsPerson(j, r).value.lastUpdated ==
            if r.number == 5 && r.payload.Len? then Some(TimeView(TimeOf(ReadRecords(r.payload.data).value)))
            else j.lastUpdated
  {
    hide JsInto, ParseInto, TimeOf;
    if r.number == 5 && r.payload.Len? {
      Readable(q, r.payload.data);
      JsTimeIs(r.payload.data);
    }
  }

  lemma Readable(q: Person, d: bytes)
    requires ApplyPerson(q, Record(5, Len(d))).Some?
    ensures ReadRecords(d).Some?
  {
  }

  lemma {:induction false} JsLastUpdatedIs(j: Person, q: Person, rs: seq<Record>)
    requires Fold(ApplyPerson, q, rs).Some? && Fold(JsPerson, j, rs).Some? && forall r <- rs :: PersonTyped(r)
    ensures Fold(JsPerson, j, rs).value.lastUpdated ==
            if TimeCount(rs) > 0 then Some(TimeView(TimeOf(LastStream(rs)))) else j.lastUpdated
    decreases |rs|
  {
    hide ApplyPerson, JsPerson, PersonTyped, TimeOf, TimeView;
    if rs != [] {
      var r := rs[0];
      assert r in rs;
      JsTimeStep(j, q, r);
      JsLastUpdatedIs(JsPerson(j, r).value, ApplyPerson(q, r).value, rs[1..]);
      if r.number == 5 && r.payload.Len? {
        PayloadRead(q, r);
      }
    }
  }

  lemma PayloadRead(q: Person, r: Record)
    requires r.number == 5 && r.payload.Len? && ApplyPerson(q, r).Some?
    ensures ReadRecords(r.payload.data).Some?
  {
  }

  // ----- People -----

  predicate SameButTime(j: Person, p: Person) {
    j.(lastUpdated := None) == PersonView(p).(lastUpdated := None)
  }

  lemma SameButTimeStep(j: Person, q: Person, r: Record)
    requires ApplyPerson(q, r).Some? && PersonTyped(r) && SameButTime(j, q)
    ensures JsPerson(j, r).Some? && SameButTime(JsPerson(j, r).value, ApplyPerson(q, r).value)
  {
    hide BytesTyped, PhonesView, ParseInto, JsInto;
    match r
    case Record(4, Len(d)) =>
      PhoneBytesTyped(d);
      PhonesViewAppend(q.phones, ParseInto(ApplyPhone, NO_PHONE, d).value);
    case Record(5, Len(d)) =>
      Readable(q, d);
      TimeBytesTyped(d);
    case _ =>
  }

  lemma {:induction false} SameButTimeFold(j: Person, q: Person, rs: seq<Record>)
    requires Fold(ApplyPerson, q, rs).Some? && (forall r <- rs :: PersonTyped(r)) && SameButTime(j, q)
    ensures Fold(JsPerson, j, rs).Some? && SameButTime(Fold(JsPerson, j, rs).value, Fold(ApplyPerson, q, rs).value)
    decreases |rs|
  {
    hide ApplyPerson, JsPerson, PersonTyped, SameButTime;
    if rs != [] {
      assert rs[0] in rs;
      SameButTimeStep(j, q, rs[0]);
      SameButTimeFold(JsPerson(j, rs[0]).value, ApplyPerson(q, rs[0]).value, rs[1..]);
    }
  }

  lemma PersonReadersIff(rs: seq<Record>)
    requires Fold(ApplyPerson, NO_PERSON, rs).Some? && forall r <- rs :: PersonTyped(r)
    ensures Fold(JsPerson, NO_PERSON, rs).Some?
    ensures SameButTime(Fold(JsPerson, NO_PERSON, rs).value, Fold(ApplyPerson, NO_PERSON, rs).value)
    ensures Fold(JsPerson, NO_PERSON, rs).value == PersonView(Fold(ApplyPerson, NO_PERSON, rs).value) <==> TimesAgree(rs)
  {
    hide ApplyPerson, JsPerson, PersonTyped, TimesAgree, TimeStream, LastStream, PhonesView;
    EmptyView();
    SameButTimeFold(NO_PERSON, NO_PERSON, rs);
    JsLastUpdatedIs(NO_PERSON, NO_PERSON, rs);
    LastUpdatedIs(NO_PERSON, rs);
    CountIff(rs);
    TimeFoldTotal(NO_TIME, TimeStream(rs));
    LastAloneIff(rs);
    if TimeCount(rs) == 0 {
      NoTimeStream(rs);
      var earlier := LastIsSuffix(rs);
    }
  }

  // ----- Books -----

  /** The person in this record, if it is one, reads the same in both. */
  predicate RecordAgrees(r: Record) {
    BookKnows(r) && ReadRecords(r.payload.data).Some? ==> TimesAgree(ReadRecords(r.payload.data).value)
  }

  /** Person by person the same but for the timestamps. */
  predicate Paired(j: AddressBook, q: AddressBook) {
    && j.unknown == [] && |j.people| == |q.people|
    && forall i :: 0 <= i < |j.people| ==> SameButTime(j.people[i], q.people[i])
  }

  lemma BookStepIff(j: AddressBook, q: AddressBook, r: Record)
    requires ApplyBook(q, r).Some? && BookTyped(r) && Paired(j, q)
    ensures JsBook(j, r).Some?
    ensures var j', q' := JsBook(j, r).value, ApplyBook(q, r).value;
            Paired(j', q') && (j' == BookView(q') <==> j == BookView(q) && RecordAgrees(r))
  {
    hide ApplyPerson, JsPerson, PersonTyped, PersonView, PeopleView, TimesAgree, SameButTime;
    PeopleViewSize(q.people);
    if BookKnows(r) {
      var rs := ReadRecords(r.payload.data).value;
      IntoAgrees(JsPerson, NO_PERSON, r.payload.data);
      PersonReadersIff(rs);
      var x, y := Fold(JsPerson, NO_PERSON, rs).value, Fold(ApplyPerson, NO_PERSON, rs).value;
      PeopleViewAppend(q.people, y);
      LastEqual(j.people, x, PeopleView(q.people), PersonView(y));
    }
  }

  lemma {:induction false} PeopleViewSize(ps: seq<Person>)
    ensures |PeopleView(ps)| == |ps| && forall i :: 0 <= i < |ps| ==> PeopleView(ps)[i] == PersonView(ps[i])
  {
    hide PersonView;
    if ps != [] {
      PeopleViewSize(ps[..|ps| - 1]);
    }
  }

  lemma LastEqual<T>(a: seq<T>, x: T, b: seq<T>, y: T)
    requires |a| == |b|
    ensures a + [x] == b + [y] <==> a == b && x == y
  {
    if a + [x] == b + [y] {
      assert (a + [x])[..|a|] == a && (b + [y])[..|b|] == b;
      assert (a + [x])[|a|] == x && (b + [y])[|b|] == y;
    }
  }

  lemma {:induction false} BookFoldIff(j: AddressBook, q: AddressBook, rs: seq<Record>)
    requires Fold(ApplyBook, q, rs).Some? && (forall r <- rs :: BookTyped(r)) && Paired(j, q)
    ensures Fold(JsBook, j, rs).Some? && Paired(Fold(JsBook, j, rs).value, Fold(ApplyBook, q, rs).value)
    ensures Fold(JsBook, j, rs).value == BookView(Fold(ApplyBook, q, rs).value) <==>
            j == BookView(q) && forall r <- rs :: RecordAgrees(r)
    decreases |rs|
  {
    hide ApplyBook, JsBook, BookTyped, RecordAgrees, BookView, Paired;
    if rs != [] {
      assert rs[0] in rs;
      BookStepIff(j, q, rs[0]);
      BookFoldIff(JsBook(j, rs[0]).value, ApplyBook(q, rs[0]).value, rs[1..]);
      AllSplit(RecordAgrees, rs);
    }
  }

  lemma ReadersViewIff(b: bytes)
    requires ParseBook(b).Some? && BytesTyped(BookTyped, b)
    ensures JsParseBook(b).Some? && Paired(JsParseBook(b).value, ParseBook(b).value)
    ensures JsParseBook(b).value == BookView(ParseBook(b).value) <==> forall r <- ReadRecords(b).value :: RecordAgrees(r)
  {
    hide ApplyBook, JsBook, BookTyped, RecordAgrees;
    EmptyView();
    IntoAgrees(JsBook, NO_BOOK, b);
    BookFoldIff(NO_BOOK, NO_BOOK, ReadRecords(b).value);
  }

  // ----- Field by field -----

  /** IEEE 754: all bits of the exponent are set and some bit of the fraction is. */
  predicate NotANumber32(bits: u32) {
    bits / 0x80_0000 % 0x100 == 0xFF && bits % 0x80_0000 != 0
  }

  predicate NotANumber64(bits: u64) {
    bits / 0x10_0000_0000_0000 % 0x800 == 0x7FF && bits % 0x10_0000_0000_0000 != 0
  }

  lemma NaNIff(bits: u32, bits64: u64)
    ensures IsNaN32(bits) <==> NotANumber32(bits)
    ensures IsNaN64(bits64) <==> NotANumber64(bits64)
  {
    var m, w := Magnitude32(bits), Magnitude64(bits64);
    assert m / 0x80_0000 == bits / 0x80_0000 % 0x100 && m % 0x80_0000 == bits % 0x80_0000;
    assert w / 0x10_0000_0000_0000 == bits64 / 0x10_0000_0000_0000 % 0x800;
    assert w % 0x10_0000_0000_0000 == bits64 % 0x10_0000_0000_0000;
  }

  /** The same known fields: floats bit for bit, unless both are NaN. JavaScript keeps no
      unknown fields. */
  predicate SameFields(j: Person, p: Person) {
    && j.name == p.name && j.id == p.id && j.email == p.email && j.unknown == []
    && |j.phones| == |p.phones|
    && (forall i :: 0 <= i < |j.phones| ==>
          j.phones[i] == PhoneNumber(p.phones[i].number, p.phones[i].kind, []))
    && (if p.lastUpdated.None? then j.lastUpdated.None?
        else j.lastUpdated == Some(Timestamp(p.lastUpdated.value.seconds, p.lastUpdated.value.nanos, [])))
    && (if NotANumber32(p.height) then NotANumber32(j.height) else j.height == p.height)
    && (if NotANumber64(p.weight) then NotANumber64(j.weight) else j.weight == p.weight)
  }

  predicate SameBook(j: AddressBook, b: AddressBook) {
    && j.unknown == [] && |j.people| == |b.people|
    && forall i :: 0 <= i < |j.people| ==> SameFields(j.people[i], b.people[i])
  }

  lemma {:induction false} PhonesViewIs(ps: seq<PhoneNumber>)
    ensures |PhonesView(ps)| == |ps|
    ensures forall i :: 0 <= i < |ps| ==> PhonesView(ps)[i] == PhoneNumber(ps[i].number, ps[i].kind, [])
  {
    if ps != [] {
      PhonesViewIs(ps[..|ps| - 1]);
    }
  }

  lemma FieldsIff(j: Person, p: Person)
    requires SameButTime(j, p)
    ensures SameFields(j.(lastUpdated := None), p.(lastUpdated := None))
    ensures SameFields(j, p) <==> j == PersonView(p)
  {
    hide PhonesView, IsNaN32, IsNaN64, NotANumber32, NotANumber64;
    PhonesViewIs(p.phones);
    NaNIff(p.height, p.weight);
    NaNIff(j.height, j.weight);
    TheNaNs();
  }

  lemma TheNaNs()
    ensures IsNaN32(NAN32) && IsNaN64(NAN64)
  {
  }

  lemma BookFieldsIff(j: AddressBook, b: AddressBook)
    requires Paired(j, b)
    ensures SameBook(j, b) <==> j == BookView(b)
    ensures forall i :: 0 <= i < |j.people| ==>
      SameFields(j.people[i].(lastUpdated := None), b.people[i].(lastUpdated := None))
  {
    hide SameFields, PersonView, SameButTime;
    PeopleViewSize(b.people);
    forall i | 0 <= i < |j.people|
      ensures SameFields(j.people[i], b.people[i]) <==> j.people[i] == PersonView(b.people[i])
      ensures SameFields(j.people[i].(lastUpdated := None), b.people[i].(lastUpdated := None))
    {
      FieldsIff(j.people[i], b.people[i]);
    }
    if SameBook(j, b) {
      assert j.people == PeopleView(b.people);
    }
  }

  /** On an input both accept, the readers recover the same people with the same known fields,
      the timestamps aside; and these too exactly when no person in it has a last_updated that
      a later one fails to repeat. */
  lemma ReadersAgreeIff(b: bytes)
    requires ParseBook(b).Some? && BytesTyped(BookTyped, b)
    ensures JsParseBook(b).Some?
    ensures var js, cpp := JsParseBook(b).value.people, ParseBook(b).value.people;
            && |js| == |cpp|
            && forall i :: 0 <= i < |js| ==> SameFields(js[i].(lastUpdated := None), cpp[i].(lastUpdated := None))
    ensures SameBook(JsParseBook(b).value, ParseBook(b).value) <==> forall r <- ReadRecords(b).value :: RecordAgrees(r)
  {
    hide ApplyBook, JsBook, BookTyped, RecordAgrees, SameFields, SameBook, SameButTime, BookView, ParseInto, JsInto;
    ReadersViewIff(b);
    BookFieldsIff(JsParseBook(b).value, ParseBook(b).value);
  }
}
