/** What each implementation makes of the other's output. */
module JsCodec {
  import opened Options
  import opened Sequences
  import opened Wire
  import opened Scalars
  import opened Messages
  import opened Codec
  import opened CodecLaws
  import opened CodecGrowth
  import opened JsReading
  import opened JsMessages
  import opened JsAgreement

  // ----- What the JavaScript reader makes of C++ output -----

  /** A printed person carries at most one last_updated record. */
  predicate OneTimeEach(r: Record) {
    BookKnows(r) && ReadRecords(r.payload.data).Some? ==> TimeCount(ReadRecords(r.payload.data).value) <= 1
  }

  /** No unknown field carries a number this message defines. */
  predicate PhoneReadable(p: PhoneNumber) { forall r <- p.unknown :: r.number > 2 }
  predicate TimeReadable(t: Timestamp) { forall r <- t.unknown :: r.number > 2 }

  predicate PersonReadable(p: Person) {
    && (forall r <- p.unknown :: r.number > 7)
    && (forall phone <- p.phones :: PhoneReadable(phone))
    && (p.lastUpdated.Some? ==> TimeReadable(p.lastUpdated.value))
  }

  predicate BookReadable(b: AddressBook) {
    (forall r <- b.unknown :: r.number > 1) && forall person <- b.people :: PersonReadable(person)
  }

  lemma PrintedPhoneTyped(p: PhoneNumber)
    requires PhoneOk(p) && |PhoneBytes(p)| < TWO_31
    ensures BytesTyped(PhoneTyped, PhoneBytes(p)) <==> PhoneReadable(p)
  {
    AllFitBySize(PhoneRecords(p));
    RecordsRoundTrip(PhoneRecords(p));
    assert forall r :: r in PhoneRecords(p) <==> r in TextField(1, p.number) || r in IntField(2, p.kind) || r in p.unknown;
  }

  lemma PrintedTimeTyped(t: Timestamp)
    requires TimeOk(t) && |TimeBytes(t)| < TWO_31
    ensures BytesTyped(TimeTyped, TimeBytes(t)) <==> TimeReadable(t)
  {
    AllFitBySize(TimeRecords(t));
    RecordsRoundTrip(TimeRecords(t));
    assert forall r :: r in TimeRecords(t) <==> r in IntField(1, t.seconds) || r in IntField(2, t.nanos) || r in t.unknown;
  }

  lemma PhoneRecordTyped(d: bytes)
    ensures PersonTyped(Record(4, Len(d))) <==> BytesTyped(PhoneTyped, d)
  {
    hide BytesTyped;
  }

  lemma TimeRecordTyped(d: bytes)
    ensures PersonTyped(Record(5, Len(d))) <==> BytesTyped(TimeTyped, d)
  {
    hide BytesTyped;
  }

  lemma {:induction false} PhoneFieldsTyped(ps: seq<PhoneNumber>)
    requires (forall p <- ps :: PhoneOk(p)) && Size(PhoneFields(ps)) < TWO_31
    ensures (forall r <- PhoneFields(ps) :: PersonTyped(r)) <==> forall p <- ps :: PhoneReadable(p)
  {
    hide PhoneBytes, EncodeRecord, BytesTyped, PhoneReadable, PhoneOk, Size, VarintSize, PersonTyped;
    if ps != [] {
      var init, last := ps[..|ps| - 1], ps[|ps| - 1];
      var r := Record(4, Len(PhoneBytes(last)));
      assert ps == init + [last];
      AppendSize(PhoneFields(init), r);
      LenSize(4, PhoneBytes(last));
      PhoneFieldsTyped(init);
      PrintedPhoneTyped(last);
      PhoneRecordTyped(PhoneBytes(last));
      AllAppend(PersonTyped, PhoneFields(init), r);
      AllAppend(p => PhoneReadable(p), init, last);
    }
  }

  lemma ScalarsTyped(p: Person)
    ensures forall r <- TextField(1, p.name) + IntField(2, p.id) + TextField(3, p.email) :: PersonTyped(r)
    ensures forall r <- FloatField(6, p.height) + DoubleField(7, p.weight) :: PersonTyped(r)
  {
  }

  lemma PersonRecordsAre(p: Person)
    ensures forall r :: r in PersonRecords(p) <==>
              r in TextField(1, p.name) || r in IntField(2, p.id) || r in TextField(3, p.email) || r in PhoneFields(p.phones)
              || r in TimeField(p.lastUpdated) || r in FloatField(6, p.height) || r in DoubleField(7, p.weight) || r in p.unknown
  {
    hide TextField, IntField, PhoneFields, TimeField, FloatField, DoubleField;
  }

  lemma UnknownTyped(us: seq<Record>)
    requires forall r <- us :: !PersonKnows(r)
    ensures (forall r <- us :: PersonTyped(r)) <==> forall r <- us :: r.number > 7
  {
  }

  lemma PrintedPersonTyped(p: Person)
    requires PersonOk(p) && |PersonBytes(p)| < TWO_31
    ensures (forall r <- PersonRecords(p) :: PersonTyped(r)) <==> PersonReadable(p)
  {
    hide PersonBytes, PhoneBytes, TimeBytes, PersonTyped, PhoneReadable, TimeReadable, PersonRecords, PhoneFields;
    PersonFieldsFit(p);
    PersonRecordsAre(p);
    ScalarsTyped(p);
    PhoneFieldsTyped(p.phones);
    UnknownTyped(p.unknown);
    if p.lastUpdated.Some? {
      PrintedTimeTyped(p.lastUpdated.value);
      TimeRecordTyped(TimeBytes(p.lastUpdated.value));
    }
  }

  lemma {:induction false} TimeCountConcat(a: seq<Record>, b: seq<Record>)
    ensures TimeCount(a + b) == TimeCount(a) + TimeCount(b)
  {
    if a == [] {
      assert a + b == b;
    } else {
      TailOfConcat(a, b);
      TimeCountConcat(a[1..], b);
    }
  }

  lemma {:induction false} NoTimes(rs: seq<Record>)
    requires forall r <- rs :: !(r.number == 5 && r.payload.Len?)
    ensures TimeCount(rs) == 0
  {
    if rs != [] {
      NoTimes(rs[1..]);
    }
  }

  lemma {:induction false} PhoneFieldsAre(ps: seq<PhoneNumber>)
    ensures forall r <- PhoneFields(ps) :: r.number == 4
  {
    if ps != [] {
      PhoneFieldsAre(ps[..|ps| - 1]);
    }
  }

  /** A printed person has at most one last_updated record. */
  lemma PrintedTimeCount(p: Person)
    requires PersonOk(p)
    ensures TimeCount(PersonRecords(p)) <= 1
  {
    hide PhoneFields, PhoneBytes, TimeBytes;
    var rest := FloatField(6, p.height) + DoubleField(7, p.weight) + p.unknown;
    PhoneFieldsAre(p.phones);
    NoTimes(FrontRecords(p));
    NoTimes(rest);
    Assoc(TimeField(p.lastUpdated), FloatField(6, p.height), DoubleField(7, p.weight));
    Assoc(TimeField(p.lastUpdated), FloatField(6, p.height) + DoubleField(7, p.weight), p.unknown);
    TimeCountConcat(TimeField(p.lastUpdated), rest);
    TimeCountConcat(FrontRecords(p), BackRecords(p));
    OneTime(p.lastUpdated);
  }

  lemma OneTime(t: Option<Timestamp>)
    ensures TimeCount(TimeField(t)) <= 1
  {
  }

  lemma PrintedPersonRecord(p: Person)
    requires PersonOk(p) && |PersonBytes(p)| < TWO_31
    ensures var r := Record(1, Len(PersonBytes(p)));
            (BookTyped(r) <==> PersonReadable(p)) && OneTimeEach(r)
  {
    hide PersonRecords, PersonTyped, PersonReadable, TimeCount, PersonOk;
    AllFitBySize(PersonRecords(p));
    RecordsRoundTrip(PersonRecords(p));
    PrintedPersonTyped(p);
    PrintedTimeCount(p);
  }

  lemma {:induction false} PersonFieldsTyped(ps: seq<Person>)
    requires forall p <- ps :: PersonOk(p)
    ensures Size(PersonFields(ps)) < TWO_31 ==>
              ((forall r <- PersonFields(ps) :: BookTyped(r)) <==> forall p <- ps :: PersonReadable(p))
    ensures Size(PersonFields(ps)) < TWO_31 ==> forall r <- PersonFields(ps) :: OneTimeEach(r)
  {
    hide PersonBytes, EncodeRecord, BookTyped, OneTimeEach, PersonReadable, PersonOk, Size, VarintSize;
    if ps != [] && Size(PersonFields(ps)) < TWO_31 {
      var init, last := ps[..|ps| - 1], ps[|ps| - 1];
      var r := Record(1, Len(PersonBytes(last)));
      assert ps == init + [last];
      AppendSize(PersonFields(init), r);
      LenSize(1, PersonBytes(last));
      PersonFieldsTyped(init);
      PrintedPersonRecord(last);
      AllAppend(BookTyped, PersonFields(init), r);
      AllAppend(OneTimeEach, PersonFields(init), r);
      AllAppend(p => PersonReadable(p), init, last);
    }
  }

  /** C++ output is readable in JavaScript exactly when no unknown field, at any level, has a
      number the message defines; and then only the unknown fields are lost. */
  lemma JsReadsCpp(b: AddressBook)
    requires BookOk(b) && |BookBytes(b)| < TWO_31
    ensures JsParseBook(BookBytes(b)).Some? <==> BookReadable(b)
    ensures BookReadable(b) ==> SameBook(JsParseBook(BookBytes(b)).value, UnsignBook(b))
    ensures BookReadable(b) ==> JsParseBook(BookBytes(b)) == Some(BookView(UnsignBook(b)))
  {
    hide SameBook, PersonFields, BookTyped, OneTimeEach, RecordAgrees, PersonReadable, BookView, PersonOk, ParseInto, JsInto;
    var rs := BookRecords(b);
    BookSize(b);
    AllFitBySize(rs);
    RecordsRoundTrip(rs);
    RoundTrip(b);
    JsAcceptsIffTyped(BookBytes(b));
    PersonFieldsTyped(b.people);
    UnknownBookTyped(b.unknown);
    assert forall r :: r in rs <==> r in PersonFields(b.people) || r in b.unknown;
    if BookReadable(b) {
      ReadersAgreeIff(BookBytes(b));
      ReadersViewIff(BookBytes(b));
      OneTimeAgrees(rs);
    }
  }

  lemma OneTimeAgrees(rs: seq<Record>)
    requires forall r <- rs :: OneTimeEach(r)
    ensures forall r <- rs :: RecordAgrees(r)
  {
  }

  lemma UnknownBookTyped(us: seq<Record>)
    requires forall r <- us :: !BookKnows(r)
    ensures (forall r <- us :: BookTyped(r)) <==> forall r <- us :: r.number > 1
    ensures forall r <- us :: OneTimeEach(r)
  {
  }

  // ----- What C++ makes of JavaScript output -----

  /** The messages JavaScript can hold: no unknown fields, and one NaN. */
  predicate IsJsPerson(p: Person) {
    && p.unknown == [] && (forall phone <- p.phones :: phone.unknown == [])
    && (p.lastUpdated.Some? ==> p.lastUpdated.value.unknown == [])
    && (NotANumber32(p.height) ==> p.height == NAN32)
    && (NotANumber64(p.weight) ==> p.weight == NAN64)
  }

  predicate IsJs(b: AddressBook) {
    b.unknown == [] && forall p <- b.people :: IsJsPerson(p)
  }

  /** Each reader gets a JavaScript message back whole, up to signed zero. */
  lemma CppReadsJs(b: AddressBook)
    requires BookOk(b) && IsJs(b)
    ensures |BookBytes(b)| < TWO_31 ==>
              && ParseBook(BookBytes(b)) == Some(UnsignBook(b))
              && JsParseBook(BookBytes(b)) == Some(UnsignBook(b))
  {
    hide BookOk, BookBytes, UnsignBook, IsJs, BookView, ParseInto, JsInto, SameBook;
    if |BookBytes(b)| < TWO_31 {
      RoundTrip(b);
      JsReadable(b);
      JsReadsCpp(b);
      ViewKeepsJs(b);
    }
  }

  lemma JsReadable(b: AddressBook)
    requires IsJs(b)
    ensures BookReadable(b)
  {
  }

  lemma ViewKeepsJs(b: AddressBook)
    requires IsJs(b)
    ensures BookView(UnsignBook(b)) == UnsignBook(b)
  {
    hide PersonView, NotANumber32, NotANumber64;
    var ps := UnsignBook(b).people;
    PeopleViewSize(ps);
    forall i | 0 <= i < |ps|
      ensures PersonView(ps[i]) == ps[i]
    {
      assert b.people[i] in b.people;
      ViewKeepsPerson(b.people[i]);
    }
    assert PeopleView(ps) == ps;
  }

  lemma ViewKeepsPerson(p: Person)
    requires IsJsPerson(p)
    ensures PersonView(DropSign(p)) == DropSign(p)
  {
    PhonesViewIs(p.phones);
    forall i | 0 <= i < |p.phones|
      ensures PhonesView(p.phones)[i] == p.phones[i]
    {
      assert p.phones[i] in p.phones;
    }
    assert PhonesView(p.phones) == p.phones;
    NaNIff(DropSign(p).height, DropSign(p).weight);
    NaNIff(p.height, p.weight);
  }

  // ----- Where the two readers part -----

  /** Two last_updated records: C++ merges them, JavaScript keeps the second alone. */
  lemma SecondTimeIsMergedOrReplaced()
    ensures var first, second := EncodeRecords([Record(1, Varint(5))]), EncodeRecords([Record(2, Varint(7))]);
            var b := EncodeRecords([Record(5, Len(first)), Record(5, Len(second))]);
            ParseInto(ApplyPerson, NO_PERSON, b) == Some(NO_PERSON.(lastUpdated := Some(Timestamp(5, 7, []))))
            && JsInto(JsPerson, NO_PERSON, b) == Some(NO_PERSON.(lastUpdated := Some(Timestamp(0, 7, []))))
  {
    hide EncodeRecords, ReadRecords, JsStream;
    var r1, r2 := Record(1, Varint(5)), Record(2, Varint(7));
    var first, second := EncodeRecords([r1]), EncodeRecords([r2]);
    var rs := [Record(5, Len(first)), Record(5, Len(second))];
    OneRecord(r1);
    OneRecord(r2);
    RecordsRoundTrip([r1]);
    RecordsRoundTrip([r2]);
    RecordsRoundTrip(rs);
    FoldOne(ApplyTime, NO_TIME, r1);
    FoldOne(ApplyTime, Timestamp(5, 0, []), r2);
    IntoAgrees(JsTime, NO_TIME, first);
    IntoAgrees(JsTime, NO_TIME, second);
    IntoAgrees(JsPerson, NO_PERSON, EncodeRecords(rs));
    FoldOne(JsTime, NO_TIME, r1);
    FoldOne(JsTime, NO_TIME, r2);
    var p1 := NO_PERSON.(lastUpdated := Some(Timestamp(5, 0, [])));
    assert rs == [rs[0]] + [rs[1]];
    FoldOne(ApplyPerson, NO_PERSON, rs[0]);
    FoldThen(ApplyPerson, NO_PERSON, p1, [rs[0]], [rs[1]]);
    FoldOne(ApplyPerson, p1, rs[1]);
    FoldOne(JsPerson, NO_PERSON, rs[0]);
    FoldThen(JsPerson, NO_PERSON, p1, [rs[0]], [rs[1]]);
    FoldOne(JsPerson, p1, rs[1]);
  }
}
