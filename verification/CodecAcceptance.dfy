/** Exactly which inputs the AddressBook parser accepts, and hence exactly which messages
    survive printing; with concrete inputs at the edges of the codec's laws. */
module CodecAcceptance {
  import opened Options
  import opened Sequences
  import opened Wire
  import opened Scalars
  import opened Messages
  import opened Codec
  import opened CodecLaws

  predicate AllRecords(accepts: Record -> bool, d: bytes) {
    ReadRecords(d).Some? && forall r <- ReadRecords(d).value :: accepts(r)
  }

  predicate PhoneAccepts(r: Record) {
    r.number == 1 && r.payload.Len? ==> ValidUtf8(r.payload.data)
  }

  predicate PersonAccepts(r: Record) {
    r.payload.Len? ==>
      match r.number
      case 1 => ValidUtf8(r.payload.data)
      case 3 => ValidUtf8(r.payload.data)
      case 4 => AllRecords(PhoneAccepts, r.payload.data)
      case 5 => ReadRecords(r.payload.data).Some?
      case _ => true
  }

  predicate BookAccepts(r: Record) {
    r.number == 1 && r.payload.Len? ==> AllRecords(PersonAccepts, r.payload.data)
  }

  lemma {:induction false} PhoneFoldIff(q: PhoneNumber, rs: seq<Record>)
    ensures Fold(ApplyPhone, q, rs).Some? <==> forall r <- rs :: PhoneAccepts(r)
    decreases |rs|
  {
    if rs != [] {
      AllSplit(PhoneAccepts, rs);
      if PhoneAccepts(rs[0]) {
        PhoneFoldIff(ApplyPhone(q, rs[0]).value, rs[1..]);
      }
    }
  }

  lemma PhoneParseIff(d: bytes)
    ensures ParseInto(ApplyPhone, NO_PHONE, d).Some? <==> AllRecords(PhoneAccepts, d)
  {
    if ReadRecords(d).Some? {
      PhoneFoldIff(NO_PHONE, ReadRecords(d).value);
    }
  }

  lemma TimeParseIff(t: Timestamp, d: bytes)
    ensures ParseInto(ApplyTime, t, d).Some? <==> ReadRecords(d).Some?
  {
    if ReadRecords(d).Some? {
      TimeFoldTotal(t, ReadRecords(d).value);
    }
  }

  /** Whether a record is accepted does not depend on what was parsed before it. */
  lemma PersonStepIff(q: Person, r: Record)
    ensures ApplyPerson(q, r).Some? <==> PersonAccepts(r)
  {
    hide ParseInto, AllRecords, ReadRecords;
    match r
    case Record(4, Len(d)) => PhoneParseIff(d);
    case Record(5, Len(d)) => TimeParseIff(MutableTime(q), d);
    case _ =>
  }

  lemma {:induction false} PersonFoldIff(q: Person, rs: seq<Record>)
    ensures Fold(ApplyPerson, q, rs).Some? <==> forall r <- rs :: PersonAccepts(r)
    decreases |rs|
  {
    hide ApplyPerson, PersonAccepts;
    if rs != [] {
      AllSplit(PersonAccepts, rs);
      PersonStepIff(q, rs[0]);
      if PersonAccepts(rs[0]) {
        PersonFoldIff(ApplyPerson(q, rs[0]).value, rs[1..]);
      }
    }
  }

  lemma BookStepIff(q: AddressBook, r: Record)
    ensures ApplyBook(q, r).Some? <==> BookAccepts(r)
  {
    hide ApplyPerson, PersonAccepts;
    if BookKnows(r) && ReadRecords(r.payload.data).Some? {
      PersonFoldIff(NO_PERSON, ReadRecords(r.payload.data).value);
    }
  }

  lemma {:induction false} BookFoldIff(q: AddressBook, rs: seq<Record>)
    ensures Fold(ApplyBook, q, rs).Some? <==> forall r <- rs :: BookAccepts(r)
    decreases |rs|
  {
    hide ApplyBook, BookAccepts;
    if rs != [] {
      AllSplit(BookAccepts, rs);
      BookStepIff(q, rs[0]);
      if BookAccepts(rs[0]) {
        BookFoldIff(ApplyBook(q, rs[0]).value, rs[1..]);
      }
    }
  }

  /** The parser accepts an input exactly when it is a record stream, so is every embedded
      message in it, and every string field in them is UTF-8. */
  lemma AcceptedIff(b: bytes)
    ensures ParseBook(b).Some? <==> AllRecords(BookAccepts, b)
  {
    hide ApplyBook, BookAccepts;
    if ReadRecords(b).Some? {
      BookFoldIff(NO_BOOK, ReadRecords(b).value);
    }
  }

  // ----- Which messages survive printing -----

  predicate TextOk(p: Person) {
    ValidUtf8(p.name) && ValidUtf8(p.email) && forall phone <- p.phones :: ValidUtf8(phone.number)
  }

  /** Unknown fields the parser would classify as unknown. */
  predicate UnknownOk(p: Person) {
    && (forall r <- p.unknown :: !PersonKnows(r))
    && (forall phone <- p.phones :: forall r <- phone.unknown :: !PhoneKnows(r))
    && (p.lastUpdated.Some? ==> forall r <- p.lastUpdated.value.unknown :: !TimeKnows(r))
  }

  lemma PrintedRecords(accepts: Record -> bool, rs: seq<Record>)
    requires Size(rs) < TWO_31
    ensures AllRecords(accepts, EncodeRecords(rs)) <==> forall r <- rs :: accepts(r)
  {
    AllFitBySize(rs);
    RecordsRoundTrip(rs);
  }

  lemma EmptyTextIsValid()
    ensures ValidUtf8([])
  {
  }

  lemma PrintedPhoneIff(p: PhoneNumber)
    requires (forall r <- p.unknown :: !PhoneKnows(r)) && |PhoneBytes(p)| < TWO_31
    ensures AllRecords(PhoneAccepts, PhoneBytes(p)) <==> ValidUtf8(p.number)
  {
    hide ValidUtf8;
    EmptyTextIsValid();
    var text, rest := TextField(1, p.number), IntField(2, p.kind) + p.unknown;
    PrintedRecords(PhoneAccepts, PhoneRecords(p));
    assert forall r :: r in PhoneRecords(p) <==> r in text || r in rest;
    assert forall r <- rest :: PhoneAccepts(r);
    if |p.number| > 0 {
      assert Record(1, Len(p.number)) in PhoneRecords(p);
    }
  }

  lemma {:induction false} PhoneFieldsIff(ps: seq<PhoneNumber>)
    requires (forall p <- ps :: forall r <- p.unknown :: !PhoneKnows(r)) && Size(PhoneFields(ps)) < TWO_31
    ensures (forall r <- PhoneFields(ps) :: PersonAccepts(r)) <==> forall p <- ps :: ValidUtf8(p.number)
  {
    hide PhoneBytes, EncodeRecord, AllRecords, ValidUtf8, Size, VarintSize, PhoneKnows, PersonAccepts;
    if ps != [] {
      var init, last := ps[..|ps| - 1], ps[|ps| - 1];
      var r := Record(4, Len(PhoneBytes(last)));
      assert ps == init + [last];
      AppendSize(PhoneFields(init), r);
      LenSize(4, PhoneBytes(last));
      PhoneFieldsIff(init);
      PrintedPhoneIff(last);
      PhoneRecordIff(PhoneBytes(last));
      AllAppend(PersonAccepts, PhoneFields(init), r);
      AllAppend((p: PhoneNumber) => ValidUtf8(p.number), init, last);
    }
  }

  lemma PhoneRecordIff(d: bytes)
    ensures PersonAccepts(Record(4, Len(d))) <==> AllRecords(PhoneAccepts, d)
  {
    hide AllRecords;
  }

  lemma TextFieldsIff(p: Person)
    ensures (forall r <- TextField(1, p.name) :: PersonAccepts(r)) <==> ValidUtf8(p.name)
    ensures (forall r <- TextField(3, p.email) :: PersonAccepts(r)) <==> ValidUtf8(p.email)
  {
    hide ValidUtf8;
    EmptyTextIsValid();
    if |p.name| > 0 {
      assert Record(1, Len(p.name)) in TextField(1, p.name);
    }
    if |p.email| > 0 {
      assert Record(3, Len(p.email)) in TextField(3, p.email);
    }
  }

  lemma OtherFieldsAccepted(p: Person)
    requires forall r <- p.unknown :: !PersonKnows(r)
    requires p.lastUpdated.Some? ==> |TimeBytes(p.lastUpdated.value)| < TWO_31
    ensures forall r <- IntField(2, p.id) :: PersonAccepts(r)
    ensures forall r <- TimeField(p.lastUpdated) + FloatField(6, p.height) + DoubleField(7, p.weight) + p.unknown :: PersonAccepts(r)
  {
    hide TimeBytes, AllRecords, ReadRecords;
    if p.lastUpdated.Some? {
      ReadsBack(p.lastUpdated.value);
    }
  }

  lemma ReadsBack(t: Timestamp)
    requires |TimeBytes(t)| < TWO_31
    ensures ReadRecords(TimeBytes(t)).Some?
  {
    AllFitBySize(TimeRecords(t));
    RecordsRoundTrip(TimeRecords(t));
  }

  lemma PrintedPersonIff(p: Person)
    requires UnknownOk(p) && |PersonBytes(p)| < TWO_31
    ensures (forall r <- PersonRecords(p) :: PersonAccepts(r)) <==> TextOk(p)
  {
    hide PersonAccepts, PhoneFields, ValidUtf8, PersonBytes, TextField, IntField, TimeField, FloatField, DoubleField;
    PersonFieldsFit(p);
    TextFieldsIff(p);
    PhoneFieldsIff(p.phones);
    OtherFieldsAccepted(p);
    AllJoin(PersonAccepts, FrontRecords(p), BackRecords(p));
    AllJoin(PersonAccepts, TextField(1, p.name) + IntField(2, p.id) + TextField(3, p.email), PhoneFields(p.phones));
    AllJoin(PersonAccepts, TextField(1, p.name) + IntField(2, p.id), TextField(3, p.email));
    AllJoin(PersonAccepts, TextField(1, p.name), IntField(2, p.id));
  }

  lemma {:induction false} PersonFieldsIff(ps: seq<Person>)
    requires forall p <- ps :: UnknownOk(p)
    ensures Size(PersonFields(ps)) < TWO_31 ==>
              ((forall r <- PersonFields(ps) :: BookAccepts(r)) <==> forall p <- ps :: TextOk(p))
  {
    hide PersonBytes, EncodeRecord, BookAccepts, TextOk, UnknownOk, Size, VarintSize;
    if ps != [] && Size(PersonFields(ps)) < TWO_31 {
      var init, last := ps[..|ps| - 1], ps[|ps| - 1];
      var r := Record(1, Len(PersonBytes(last)));
      assert ps == init + [last];
      AppendSize(PersonFields(init), r);
      LenSize(1, PersonBytes(last));
      PersonFieldsIff(init);
      PersonRecordIff(last);
      AllAppend(BookAccepts, PersonFields(init), r);
      AllAppend(TextOk, init, last);
    }
  }

  lemma PersonRecordIff(p: Person)
    requires UnknownOk(p) && |PersonBytes(p)| < TWO_31
    ensures BookAccepts(Record(1, Len(PersonBytes(p)))) <==> TextOk(p)
  {
    hide PersonAccepts, PersonRecords, TextOk, UnknownOk;
    PrintedRecords(PersonAccepts, PersonRecords(p));
    PrintedPersonIff(p);
  }

  lemma AllIsOk(b: AddressBook)
    requires (forall p <- b.people :: UnknownOk(p) && TextOk(p)) && forall r <- b.unknown :: !BookKnows(r)
    ensures BookOk(b)
  {
    forall p | p in b.people
      ensures PersonOk(p)
    {
      assert UnknownOk(p) && TextOk(p);
    }
  }

  /** The printer does not check text, the parser does: a printed message comes back exactly
      when all its text is UTF-8. */
  lemma SurvivesIff(b: AddressBook)
    requires (forall p <- b.people :: UnknownOk(p)) && forall r <- b.unknown :: !BookKnows(r)
    ensures |BookBytes(b)| < TWO_31 ==>
              (ParseBook(BookBytes(b)) == Some(UnsignBook(b)) <==> forall p <- b.people :: TextOk(p))
  {
    hide PersonFields, TextOk, UnknownOk, AllRecords, ParseInto, UnsignBook, BookOk;
    if |BookBytes(b)| < TWO_31 {
      if forall p <- b.people :: TextOk(p) {
        AllIsOk(b);
        RoundTrip(b);
      }
      AcceptedIff(BookBytes(b));
      BookSize(b);
      PrintedRecords(BookAccepts, BookRecords(b));
      PersonFieldsIff(b.people);
      AllJoin(BookAccepts, PersonFields(b.people), b.unknown);
      assert forall r <- b.unknown :: BookAccepts(r);
    }
  }

  // ----- Joining any two accepted books -----

  lemma {:induction false} BookFoldAppends(q: AddressBook, p: AddressBook, rs: seq<Record>)
    requires Fold(ApplyBook, p, rs).Some?
    ensures Fold(ApplyBook, AddressBook(q.people + p.people, q.unknown + p.unknown), rs) ==
            var m := Fold(ApplyBook, p, rs).value; Some(AddressBook(q.people + m.people, q.unknown + m.unknown))
    decreases |rs|
  {
    hide ParseInto;
    if rs != [] {
      var p' := ApplyBook(p, rs[0]).value;
      BookFoldAppends(q, p', rs[1..]);
      if BookKnows(rs[0]) {
        Assoc(q.people, p.people, [p'.people[|p.people|]]);
      } else {
        Assoc(q.unknown, p.unknown, [rs[0]]);
      }
    }
  }

  /** A book has no scalar of its own, so joining the bytes of any two accepted books, printed
      or not, is merging what they parse to. */
  lemma AnyConcatenationIsMerge(x: bytes, y: bytes)
    requires ParseBook(x).Some? && ParseBook(y).Some?
    ensures ParseBook(x + y).Some?
    ensures UnsignBook(ParseBook(x + y).value) == UnsignBook(MergeBook(ParseBook(x).value, ParseBook(y).value))
  {
    var a, b := ParseBook(x).value, ParseBook(y).value;
    ParseConcat(ApplyBook, NO_BOOK, x, y);
    Empty(a.people);
    Empty(a.unknown);
    BookFoldAppends(a, NO_BOOK, ReadRecords(y).value);
    assert ParseBook(x + y) == Some(AddressBook(a.people + b.people, a.unknown + b.unknown));
    MergeBookUnsigned(a, b);
    DropSignsConcat(a.people, b.people);
    DropSignsConcat(a.people, DropSigns(b.people));
    DropSignsTwice(b.people);
  }

  // ----- Edges -----

  lemma ParseOne<M>(apply: (M, Record) -> Option<M>, m: M, r: Record)
    requires Fits(r)
    ensures ParseInto(apply, m, EncodeRecords([r])) == apply(m, r)
  {
    RecordsRoundTrip([r]);
    FoldOne(apply, m, r);
  }

  /** A person does have scalars: a zero written out by hand overrides, where merging the
      parsed messages would keep the older value. */
  lemma ExplicitZeroOverrides()
    ensures var x, y := EncodeRecords([Record(2, Varint(5))]), EncodeRecords([Record(2, Varint(0))]);
            var a, b := ParseInto(ApplyPerson, NO_PERSON, x), ParseInto(ApplyPerson, NO_PERSON, y);
            && a.Some? && b.Some? && MergePerson(a.value, b.value).id == 5
            && ParseInto(ApplyPerson, NO_PERSON, x + y) == Some(NO_PERSON)
  {
    hide EncodeRecords, ReadRecords;
    var five, zero := Record(2, Varint(5)), Record(2, Varint(0));
    ParseOne(ApplyPerson, NO_PERSON, five);
    ParseOne(ApplyPerson, NO_PERSON, zero);
    ParseConcat(ApplyPerson, NO_PERSON, EncodeRecords([five]), EncodeRecords([zero]));
    ParseOne(ApplyPerson, NO_PERSON.(id := 5), zero);
  }

  /** Re-printing can grow: an id read from five varint bytes is written in ten. */
  lemma ReprintCanGrow()
    ensures var b := EncodeRecords([Record(2, Varint(0xFFFF_FFFF))]);
            var p := NO_PERSON.(id := -1);
            |b| == 6 && ParseInto(ApplyPerson, NO_PERSON, b) == Some(p) && |PersonBytes(p)| == 11
  {
    var short, long := Record(2, Varint(0xFFFF_FFFF)), Record(2, Varint(FromSigned(-1)));
    ParseOne(ApplyPerson, NO_PERSON, short);
    OneRecord(short);
    OneRecord(long);
    PersonSize(NO_PERSON.(id := -1));
    assert EncodeRecords([]) == [];
    VarintSizeBelow(0xFFFF_FFFF, 5);
    VarintSizeBelow(0xFFFF_FFFF, 4);
    VarintSizeBelow(FromSigned(-1), 10);
    VarintSizeBelow(FromSigned(-1), 9);
  }
}
