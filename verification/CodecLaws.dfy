/** The laws of the AddressBook codec, stated over all messages and all byte strings. */
module CodecLaws {
  import opened Options
  import opened Sequences
  import opened Wire
  import opened Scalars
  import opened Messages
  import opened Codec

  /** What a fresh AddressBook becomes after parsing `b`. */
  function ParseBook(b: bytes): Option<AddressBook> {
    ParseInto(ApplyBook, NO_BOOK, b)
  }

  // ----- Signed zero: the one thing copying and printing do not keep -----

  function DropSign(p: Person): Person {
    p.(height := if p.height == TWO_31 then 0 else p.height,
       weight := if p.weight == TWO_63 then 0 else p.weight)
  }

  function DropSigns(ps: seq<Person>): (qs: seq<Person>)
    ensures |qs| == |ps|
    ensures forall i :: 0 <= i < |ps| ==> qs[i] == DropSign(ps[i])
  {
    if ps == [] then [] else DropSigns(ps[..|ps| - 1]) + [DropSign(ps[|ps| - 1])]
  }

  function UnsignBook(b: AddressBook): AddressBook {
    b.(people := DropSigns(b.people))
  }

  lemma {:induction false} CopyPhonesIsIdentity(ps: seq<PhoneNumber>)
    ensures CopyPhones(ps) == ps
  {
    if ps != [] {
      CopyPhonesIsIdentity(ps[..|ps| - 1]);
      assert [] + ps[|ps| - 1].unknown == ps[|ps| - 1].unknown;
    }
  }

  /** Merging into an empty person copies everything but the sign of a zero. */
  lemma CopyPersonDropsSign(p: Person)
    ensures MergePerson(NO_PERSON, p) == DropSign(p)
  {
    CopyPhonesIsIdentity(p.phones);
    assert [] + p.phones == p.phones && [] + p.unknown == p.unknown;
    if p.lastUpdated.Some? {
      assert [] + p.lastUpdated.value.unknown == p.lastUpdated.value.unknown;
    }
  }

  lemma {:induction false} CopyPeopleDropsSigns(ps: seq<Person>)
    ensures CopyPeople(ps) == DropSigns(ps)
  {
    if ps != [] {
      CopyPeopleDropsSigns(ps[..|ps| - 1]);
      CopyPersonDropsSign(ps[|ps| - 1]);
    }
  }

  // ----- MergeFrom is a monoid -----

  lemma MergeTimeAssociative(a: Timestamp, b: Timestamp, c: Timestamp)
    ensures MergeTime(MergeTime(a, b), c) == MergeTime(a, MergeTime(b, c))
  {
    Assoc(a.unknown, b.unknown, c.unknown);
  }

  lemma MergePhoneAssociative(a: PhoneNumber, b: PhoneNumber, c: PhoneNumber)
    ensures MergePhone(MergePhone(a, b), c) == MergePhone(a, MergePhone(b, c))
  {
    Assoc(a.unknown, b.unknown, c.unknown);
  }

  function MergeLastUpdated(into: Option<Timestamp>, from: Option<Timestamp>): Option<Timestamp> {
    if from.None? then into
    else Some(MergeTime(if into.Some? then into.value else NO_TIME, from.value))
  }

  lemma LastUpdatedAssociative(a: Option<Timestamp>, b: Option<Timestamp>, c: Option<Timestamp>)
    ensures MergeLastUpdated(MergeLastUpdated(a, b), c) == MergeLastUpdated(a, MergeLastUpdated(b, c))
  {
    if b.Some? && c.Some? {
      MergeTimeAssociative(if a.Some? then a.value else NO_TIME, b.value, c.value);
      MergeTimeAssociative(NO_TIME, b.value, c.value);
    }
    if c.Some? {
      Empty(c.value.unknown);
    }
  }

  lemma MergePersonAssociative(a: Person, b: Person, c: Person)
    ensures MergePerson(MergePerson(a, b), c) == MergePerson(a, MergePerson(b, c))
  {
    CopyPhonesIsIdentity(b.phones);
    CopyPhonesIsIdentity(c.phones);
    CopyPhonesIsIdentity(b.phones + c.phones);
    Assoc(a.phones, b.phones, c.phones);
    Assoc(a.unknown, b.unknown, c.unknown);
    LastUpdatedAssociative(a.lastUpdated, b.lastUpdated, c.lastUpdated);
    assert MergePerson(b, c).lastUpdated == MergeLastUpdated(b.lastUpdated, c.lastUpdated);
  }

  lemma {:induction false} DropSignsConcat(a: seq<Person>, b: seq<Person>)
    ensures DropSigns(a + b) == DropSigns(a) + DropSigns(b)
  {
    if b == [] {
      Empty(a);
      Empty(DropSigns(a));
    } else {
      var init, last := b[..|b| - 1], b[|b| - 1];
      DropSignsConcat(a, init);
      Assoc(a, init, [last]);
      Assoc(DropSigns(a), DropSigns(init), [DropSign(last)]);
      Appended(a + init, last);
      assert init + [last] == b;
    }
  }

  lemma {:induction false} DropSignsTwice(a: seq<Person>)
    ensures DropSigns(DropSigns(a)) == DropSigns(a)
  {
    if a != [] {
      DropSignsTwice(a[..|a| - 1]);
      Appended(DropSigns(a[..|a| - 1]), DropSign(a[|a| - 1]));
    }
  }

  lemma MergeBookUnsigned(a: AddressBook, b: AddressBook)
    ensures MergeBook(a, b) == AddressBook(a.people + DropSigns(b.people), a.unknown + b.unknown)
  {
    CopyPeopleDropsSigns(b.people);
  }

  lemma MergeBookAssociative(a: AddressBook, b: AddressBook, c: AddressBook)
    ensures MergeBook(MergeBook(a, b), c) == MergeBook(a, MergeBook(b, c))
  {
    MergeBookUnsigned(a, b);
    MergeBookUnsigned(b, c);
    MergeBookUnsigned(MergeBook(a, b), c);
    MergeBookUnsigned(a, MergeBook(b, c));
    DropSignsConcat(b.people, DropSigns(c.people));
    DropSignsTwice(c.people);
    Assoc(a.people, DropSigns(b.people), DropSigns(c.people));
    Assoc(a.unknown, b.unknown, c.unknown);
  }

  /** The cleared message is an identity of merging, on the left up to signed zero. */
  lemma MergeIdentity(p: Person, b: AddressBook)
    ensures MergePerson(p, NO_PERSON) == p && MergePerson(NO_PERSON, p) == DropSign(p)
    ensures MergeBook(b, NO_BOOK) == b && MergeBook(NO_BOOK, b) == UnsignBook(b)
  {
    CopyPersonDropsSign(p);
    CopyPeopleDropsSigns(b.people);
    assert p.phones + [] == p.phones && p.unknown + [] == p.unknown;
    assert b.people + [] == b.people && b.unknown + [] == b.unknown && [] + b.unknown == b.unknown;
  }

  // ----- Round trip and concatenation -----

  /** Parsing what was printed gives the message back, with -0.0 returned as +0.0. */
  lemma RoundTrip(b: AddressBook)
    requires BookOk(b) && |BookBytes(b)| < TWO_31
    ensures ParseBook(BookBytes(b)) == Some(UnsignBook(b))
  {
    BookMerges(NO_BOOK, b);
    MergeIdentity(NO_PERSON, b);
  }

  /** Whatever `x` parsed to, appending a printed message merges that message in. */
  lemma AppendIsMerge(q: AddressBook, x: bytes, b: AddressBook)
    requires BookOk(b) && |BookBytes(b)| < TWO_31
    ensures match ParseInto(ApplyBook, q, x)
            case None => true
            case Some(m) => ParseInto(ApplyBook, q, x + BookBytes(b)) == Some(MergeBook(m, b))
  {
    if ParseInto(ApplyBook, q, x).Some? {
      ParseConcat(ApplyBook, q, x, BookBytes(b));
      BookMerges(ParseInto(ApplyBook, q, x).value, b);
    }
  }

  /** Joining the bytes of two messages is merging the messages. */
  lemma ConcatenationIsMerge(a: AddressBook, b: AddressBook)
    requires BookOk(a) && |BookBytes(a)| < TWO_31
    requires BookOk(b) && |BookBytes(b)| < TWO_31
    ensures ParseBook(BookBytes(a) + BookBytes(b)) == Some(UnsignBook(MergeBook(a, b)))
  {
    RoundTrip(a);
    AppendIsMerge(NO_BOOK, BookBytes(a), b);
    MergeBookUnsigned(a, b);
    MergeBookUnsigned(UnsignBook(a), b);
    DropSignsConcat(a.people, DropSigns(b.people));
    DropSignsTwice(b.people);
  }

  lemma PersonConcatenationIsMerge(a: Person, b: Person)
    requires PersonOk(a) && |PersonBytes(a)| < TWO_31
    requires PersonOk(b) && |PersonBytes(b)| < TWO_31
    ensures ParseInto(ApplyPerson, NO_PERSON, PersonBytes(a) + PersonBytes(b)) == Some(DropSign(MergePerson(a, b)))
  {
    PersonMerges(NO_PERSON, a);
    ParseConcat(ApplyPerson, NO_PERSON, PersonBytes(a), PersonBytes(b));
    PersonMerges(MergePerson(NO_PERSON, a), b);
    MergePersonAssociative(NO_PERSON, a, b);
    CopyPersonDropsSign(MergePerson(a, b));
  }

  // ----- What the parser produces -----

  lemma {:induction false} PhoneFoldOk(q: PhoneNumber, rs: seq<Record>)
    requires PhoneOk(q) && Fold(ApplyPhone, q, rs).Some?
    ensures PhoneOk(Fold(ApplyPhone, q, rs).value)
    decreases |rs|
  {
    if rs != [] {
      PhoneFoldOk(ApplyPhone(q, rs[0]).value, rs[1..]);
    }
  }

  lemma {:induction false} TimeFoldOk(q: Timestamp, rs: seq<Record>)
    requires TimeOk(q) && Fold(ApplyTime, q, rs).Some?
    ensures TimeOk(Fold(ApplyTime, q, rs).value)
    decreases |rs|
  {
    if rs != [] {
      TimeFoldOk(ApplyTime(q, rs[0]).value, rs[1..]);
    }
  }

  lemma PhoneParseOk(d: bytes)
    requires ParseInto(ApplyPhone, NO_PHONE, d).Some?
    ensures PhoneOk(ParseInto(ApplyPhone, NO_PHONE, d).value)
  {
    PhoneFoldOk(NO_PHONE, ReadRecords(d).value);
  }

  lemma TimeParseOk(t: Timestamp, d: bytes)
    requires TimeOk(t) && ParseInto(ApplyTime, t, d).Some?
    ensures TimeOk(ParseInto(ApplyTime, t, d).value)
  {
    TimeFoldOk(t, ReadRecords(d).value);
  }

  lemma ApplyPersonOk(q: Person, r: Record)
    requires PersonOk(q) && ApplyPerson(q, r).Some?
    ensures PersonOk(ApplyPerson(q, r).value)
  {
    hide ParseInto;
    match r
    case Record(4, Len(d)) => PhoneParseOk(d);
    case Record(5, Len(d)) => TimeParseOk(MutableTime(q), d);
    case _ =>
  }

  lemma {:induction false} PersonFoldOk(q: Person, rs: seq<Record>)
    requires PersonOk(q) && Fold(ApplyPerson, q, rs).Some?
    ensures PersonOk(Fold(ApplyPerson, q, rs).value)
    decreases |rs|
  {
    if rs != [] {
      ApplyPersonOk(q, rs[0]);
      PersonFoldOk(ApplyPerson(q, rs[0]).value, rs[1..]);
    }
  }

  lemma {:induction false} BookFoldOk(q: AddressBook, rs: seq<Record>)
    requires BookOk(q) && Fold(ApplyBook, q, rs).Some?
    ensures BookOk(Fold(ApplyBook, q, rs).value)
    decreases |rs|
  {
    if rs != [] {
      if BookKnows(rs[0]) {
        PersonFoldOk(NO_PERSON, ReadRecords(rs[0].payload.data).value);
      }
      BookFoldOk(ApplyBook(q, rs[0]).value, rs[1..]);
    }
  }

  /** The parser only builds messages whose text is UTF-8 and whose unknown fields are unknown. */
  lemma ParsedBooksAreOk(b: bytes)
    requires ParseBook(b).Some?
    ensures BookOk(ParseBook(b).value)
  {
    BookFoldOk(NO_BOOK, ReadRecords(b).value);
  }

  function Unrecognized(knows: Record -> bool, rs: seq<Record>): seq<Record> {
    if rs == [] then []
    else if knows(rs[0]) then Unrecognized(knows, rs[1..])
    else [rs[0]] + Unrecognized(knows, rs[1..])
  }

  lemma {:induction false} PhoneKeepsUnknown(q: PhoneNumber, rs: seq<Record>)
    requires Fold(ApplyPhone, q, rs).Some?
    ensures Fold(ApplyPhone, q, rs).value.unknown == q.unknown + Unrecognized(PhoneKnows, rs)
    decreases |rs|
  {
    if rs == [] {
      Empty(q.unknown);
    } else {
      PhoneKeepsUnknown(ApplyPhone(q, rs[0]).value, rs[1..]);
      if !PhoneKnows(rs[0]) {
        Assoc(q.unknown, [rs[0]], Unrecognized(PhoneKnows, rs[1..]));
      }
    }
  }

  lemma {:induction false} TimeKeepsUnknown(q: Timestamp, rs: seq<Record>)
    requires Fold(ApplyTime, q, rs).Some?
    ensures Fold(ApplyTime, q, rs).value.unknown == q.unknown + Unrecognized(TimeKnows, rs)
    decreases |rs|
  {
    if rs == [] {
      Empty(q.unknown);
    } else {
      TimeKeepsUnknown(ApplyTime(q, rs[0]).value, rs[1..]);
      if !TimeKnows(rs[0]) {
        Assoc(q.unknown, [rs[0]], Unrecognized(TimeKnows, rs[1..]));
      }
    }
  }

  lemma {:induction false} PersonKeepsUnknown(q: Person, rs: seq<Record>)
    requires Fold(ApplyPerson, q, rs).Some?
    ensures Fold(ApplyPerson, q, rs).value.unknown == q.unknown + Unrecognized(PersonKnows, rs)
    decreases |rs|
  {
    if rs == [] {
      Empty(q.unknown);
    } else {
      PersonKeepsUnknown(ApplyPerson(q, rs[0]).value, rs[1..]);
      if !PersonKnows(rs[0]) {
        Assoc(q.unknown, [rs[0]], Unrecognized(PersonKnows, rs[1..]));
      }
    }
  }

  lemma {:induction false} BookKeepsUnknown(q: AddressBook, rs: seq<Record>)
    requires Fold(ApplyBook, q, rs).Some?
    ensures Fold(ApplyBook, q, rs).value.unknown == q.unknown + Unrecognized(BookKnows, rs)
    decreases |rs|
  {
    if rs == [] {
      Empty(q.unknown);
    } else {
      BookKeepsUnknown(ApplyBook(q, rs[0]).value, rs[1..]);
      if !BookKnows(rs[0]) {
        Assoc(q.unknown, [rs[0]], Unrecognized(BookKnows, rs[1..]));
      }
    }
  }
}
