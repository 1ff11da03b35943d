/** The JavaScript reader and writer of the same messages. A JavaScript message is a value
    of Messages without unknown fields and with one NaN. The reader skips field numbers it
    does not know, refuses a known number with another wire type, and replaces a second
    last_updated where the C++ reader merges it. */
module JsMessages {
  import opened Options
  import opened Sequences
  import opened Wire
  import opened Scalars
  import opened Messages
  import opened Codec
  import opened CodecLaws
  import opened JsReading

  /** The pattern of the one NaN value a JavaScript number has. */
  const NAN32: u32 := 0x7FC0_0000
  const NAN64: u64 := 0x7FF8_0000_0000_0000

  function Number32(bits: u32): u32 {
    if IsNaN32(bits) then NAN32 else bits
  }

  function Number64(bits: u64): u64 {
    if IsNaN64(bits) then NAN64 else bits
  }

  /** The JavaScript presence test: not strictly equal to zero. Both zeros are equal, a NaN
      is unequal to everything. */
  predicate NotZero32(bits: u32) {
    IsNaN32(bits) || Magnitude32(bits) != 0
  }

  predicate NotZero64(bits: u64) {
    IsNaN64(bits) || Magnitude64(bits) != 0
  }

  // ----- What a JavaScript message keeps of a C++ one -----

  function PhoneView(p: PhoneNumber): PhoneNumber {
    p.(unknown := [])
  }

  function TimeView(t: Timestamp): Timestamp {
    t.(unknown := [])
  }

  function PhonesView(ps: seq<PhoneNumber>): seq<PhoneNumber> {
    if ps == [] then [] else PhonesView(ps[..|ps| - 1]) + [PhoneView(ps[|ps| - 1])]
  }

  function PersonView(p: Person): Person {
    p.(phones := PhonesView(p.phones),
       lastUpdated := if p.lastUpdated.Some? then Some(TimeView(p.lastUpdated.value)) else None,
       height := Number32(p.height),
       weight := Number64(p.weight),
       unknown := [])
  }

  function PeopleView(ps: seq<Person>): seq<Person> {
    if ps == [] then [] else PeopleView(ps[..|ps| - 1]) + [PersonView(ps[|ps| - 1])]
  }

  function BookView(b: AddressBook): AddressBook {
    AddressBook(PeopleView(b.people), [])
  }

  // ----- Reading -----

  function JsPhone(p: PhoneNumber, r: Record): Option<PhoneNumber> {
    match r.number
    case 1 => if r.payload.Len? then Some(p.(number := r.payload.data)) else None
    case 2 => if r.payload.Varint? then Some(p.(kind := ToI32(r.payload.v))) else None
    case _ => Some(p)
  }

  function JsTime(t: Timestamp, r: Record): Option<Timestamp> {
    match r.number
    case 1 => if r.payload.Varint? then Some(t.(seconds := ToI64(r.payload.v))) else None
    case 2 => if r.payload.Varint? then Some(t.(nanos := ToI32(r.payload.v))) else None
    case _ => Some(t)
  }

  function JsPerson(p: Person, r: Record): Option<Person> {
    match r.number
    case 1 => if r.payload.Len? then Some(p.(name := r.payload.data)) else None
    case 2 => if r.payload.Varint? then Some(p.(id := ToI32(r.payload.v))) else None
    case 3 => if r.payload.Len? then Some(p.(email := r.payload.data)) else None
    case 4 =>
      if !r.payload.Len? then None
      else
        (match JsInto(JsPhone, NO_PHONE, r.payload.data)
         case None => None
         case Some(phone) => Some(p.(phones := p.phones + [phone])))
    case 5 =>
      if !r.payload.Len? then None
      else
        (match JsInto(JsTime, NO_TIME, r.payload.data)
         case None => None
         case Some(t) => Some(p.(lastUpdated := Some(t))))
    case 6 => if r.payload.Fixed32? then Some(p.(height := Number32(r.payload.bits32))) else None
    case 7 => if r.payload.Fixed64? then Some(p.(weight := Number64(r.payload.bits64))) else None
    case _ => Some(p)
  }

  function JsBook(b: AddressBook, r: Record): Option<AddressBook> {
    if r.number != 1 then Some(b)
    else if !r.payload.Len? then None
    else
      match JsInto(JsPerson, NO_PERSON, r.payload.data)
      case None => None
      case Some(person) => Some(b.(people := b.people + [person]))
  }

  function JsParseBook(b: bytes): Option<AddressBook> {
    JsInto(JsBook, NO_BOOK, b)
  }

  // ----- When a record stream means the same to both readers -----

  /** No known field number comes with a wire type that is not its own. */
  predicate PhoneTyped(r: Record) { r.number in {1, 2} ==> PhoneKnows(r) }
  predicate TimeTyped(r: Record) { r.number in {1, 2} ==> TimeKnows(r) }

  predicate BytesTyped(typed: Record -> bool, d: bytes) {
    ReadRecords(d).Some? && forall r <- ReadRecords(d).value :: typed(r)
  }

  predicate PersonTyped(r: Record) {
    && (1 <= r.number <= 7 ==> PersonKnows(r))
    && (PersonKnows(r) && r.number == 4 ==> BytesTyped(PhoneTyped, r.payload.data))
    && (PersonKnows(r) && r.number == 5 ==> BytesTyped(TimeTyped, r.payload.data))
  }

  predicate BookTyped(r: Record) {
    r.number == 1 ==> BookKnows(r) && BytesTyped(PersonTyped, r.payload.data)
  }

  // ----- Both readers on phones and timestamps -----

  lemma {:induction false} PhoneReaders(q: PhoneNumber, rs: seq<Record>)
    requires Fold(ApplyPhone, q, rs).Some?
    ensures Fold(JsPhone, PhoneView(q), rs).Some? <==> forall r <- rs :: PhoneTyped(r)
    ensures Fold(JsPhone, PhoneView(q), rs).Some? ==> Fold(JsPhone, PhoneView(q), rs).value == PhoneView(Fold(ApplyPhone, q, rs).value)
    decreases |rs|
  {
    if rs != [] {
      HeadTail(rs);
      var q' := ApplyPhone(q, rs[0]).value;
      PhoneReaders(q', rs[1..]);
      if PhoneTyped(rs[0]) {
        assert JsPhone(PhoneView(q), rs[0]) == Some(PhoneView(q'));
        assert forall r :: r in rs <==> r == rs[0] || r in rs[1..];
      }
    }
  }

  lemma {:induction false} TimeReaders(q: Timestamp, rs: seq<Record>)
    requires Fold(ApplyTime, q, rs).Some?
    ensures Fold(JsTime, TimeView(q), rs).Some? <==> forall r <- rs :: TimeTyped(r)
    ensures Fold(JsTime, TimeView(q), rs).Some? ==> Fold(JsTime, TimeView(q), rs).value == TimeView(Fold(ApplyTime, q, rs).value)
    decreases |rs|
  {
    if rs != [] {
      HeadTail(rs);
      var q' := ApplyTime(q, rs[0]).value;
      TimeReaders(q', rs[1..]);
      if TimeTyped(rs[0]) {
        assert JsTime(TimeView(q), rs[0]) == Some(TimeView(q'));
        assert forall r :: r in rs <==> r == rs[0] || r in rs[1..];
      }
    }
  }

  // ----- Both readers on people -----

  lemma PhoneBytesTyped(d: bytes)
    requires ParseInto(ApplyPhone, NO_PHONE, d).Some?
    ensures JsInto(JsPhone, NO_PHONE, d).Some? <==> BytesTyped(PhoneTyped, d)
    ensures BytesTyped(PhoneTyped, d) ==>
      JsInto(JsPhone, NO_PHONE, d) == Some(PhoneView(ParseInto(ApplyPhone, NO_PHONE, d).value))
  {
    IntoAgrees(JsPhone, NO_PHONE, d);
    PhoneReaders(NO_PHONE, ReadRecords(d).value);
  }

  lemma TimeBytesTyped(d: bytes)
    requires ReadRecords(d).Some?
    ensures JsInto(JsTime, NO_TIME, d).Some? <==> BytesTyped(TimeTyped, d)
    ensures ParseInto(ApplyTime, NO_TIME, d).Some?
    ensures BytesTyped(TimeTyped, d) ==>
      JsInto(JsTime, NO_TIME, d) == Some(TimeView(ParseInto(ApplyTime, NO_TIME, d).value))
  {
    IntoAgrees(JsTime, NO_TIME, d);
    TimeFoldTotal(NO_TIME, ReadRecords(d).value);
    TimeReaders(NO_TIME, ReadRecords(d).value);
  }

  lemma PersonStepAccepted(q: Person, j: Person, r: Record)
    requires ApplyPerson(q, r).Some?
    ensures JsPerson(j, r).Some? <==> PersonTyped(r)
  {
    hide BytesTyped;
    match r
    case Record(4, Len(d)) => PhoneBytesTyped(d);
    case Record(5, Len(d)) => TimeBytesTyped(d);
    case _ =>
  }

  lemma PhonesViewAppend(ps: seq<PhoneNumber>, p: PhoneNumber)
    ensures PhonesView(ps + [p]) == PhonesView(ps) + [PhoneView(p)]
  {
    Appended(ps, p);
  }

  lemma {:induction false} PersonAccepted(q: Person, j: Person, rs: seq<Record>)
    requires Fold(ApplyPerson, q, rs).Some?
    ensures Fold(JsPerson, j, rs).Some? <==> forall r <- rs :: PersonTyped(r)
    decreases |rs|
  {
    hide ApplyPerson, JsPerson, PersonTyped;
    if rs != [] {
      PersonStepAccepted(q, j, rs[0]);
      HeadTail(rs);
      assert forall r :: r in rs <==> r == rs[0] || r in rs[1..];
      if PersonTyped(rs[0]) {
        PersonAccepted(ApplyPerson(q, rs[0]).value, JsPerson(j, rs[0]).value, rs[1..]);
      }
    }
  }

  // ----- Both readers on books -----

  lemma BookStepAccepted(q: AddressBook, j: AddressBook, r: Record)
    requires ApplyBook(q, r).Some?
    ensures JsBook(j, r).Some? <==> BookTyped(r)
  {
    hide ApplyPerson, JsPerson, PersonTyped;
    if BookKnows(r) {
      IntoAgrees(JsPerson, NO_PERSON, r.payload.data);
      PersonAccepted(NO_PERSON, NO_PERSON, ReadRecords(r.payload.data).value);
    }
  }

  lemma PeopleViewAppend(ps: seq<Person>, p: Person)
    ensures PeopleView(ps + [p]) == PeopleView(ps) + [PersonView(p)]
  {
    Appended(ps, p);
  }

  lemma EmptyView()
    ensures PersonView(NO_PERSON) == NO_PERSON && BookView(NO_BOOK) == NO_BOOK
  {
  }

  lemma {:induction false} BookAccepted(q: AddressBook, j: AddressBook, rs: seq<Record>)
    requires Fold(ApplyBook, q, rs).Some?
    ensures Fold(JsBook, j, rs).Some? <==> forall r <- rs :: BookTyped(r)
    decreases |rs|
  {
    hide ApplyBook, JsBook, BookTyped;
    if rs != [] {
      BookStepAccepted(q, j, rs[0]);
      HeadTail(rs);
      assert forall r :: r in rs <==> r == rs[0] || r in rs[1..];
      if BookTyped(rs[0]) {
        BookAccepted(ApplyBook(q, rs[0]).value, JsBook(j, rs[0]).value, rs[1..]);
      }
    }
  }

  /** On every input the C++ reader accepts, the JavaScript reader succeeds exactly when no
      known field number, at any level, comes with a foreign wire type. */
  lemma JsAcceptsIffTyped(b: bytes)
    requires ParseBook(b).Some?
    ensures JsParseBook(b).Some? <==> BytesTyped(BookTyped, b)
  {
    hide ApplyBook, JsBook, BookTyped;
    IntoAgrees(JsBook, NO_BOOK, b);
    BookAccepted(NO_BOOK, NO_BOOK, ReadRecords(b).value);
  }
}
