/** The values of the three AddressBook messages (and of google.protobuf.Timestamp, which
    Person embeds), what one wire record does to each, and the records each is written as.
    Parsing is a fold of records over a message; printing lists a message's records. */
module Messages {
  import opened Options
  import opened Wire
  import opened Scalars

  datatype PhoneNumber = PhoneNumber(number: bytes, kind: i32, unknown: seq<Record>)

  datatype Timestamp = Timestamp(seconds: i64, nanos: i32, unknown: seq<Record>)

  datatype Person = Person(
    name: bytes,
    id: i32,
    email: bytes,
    phones: seq<PhoneNumber>,
    lastUpdated: Option<Timestamp>,
    height: u32,
    weight: u64,
    unknown: seq<Record>)

  datatype AddressBook = AddressBook(people: seq<Person>, unknown: seq<Record>)

  const NO_PHONE := PhoneNumber([], 0, [])
  const NO_TIME := Timestamp(0, 0, [])
  const NO_PERSON := Person([], 0, [], [], None, 0, 0, [])
  const NO_BOOK := AddressBook([], [])

  // ----- Parsing -----

  function Fold<M>(apply: (M, Record) -> Option<M>, m: M, rs: seq<Record>): Option<M>
    decreases |rs|
  {
    if rs == [] then Some(m)
    else
      match apply(m, rs[0])
      case None => None
      case Some(m') => Fold(apply, m', rs[1..])
  }

  /** Parses `b` on top of what `m` already holds; None is a parse failure. */
  function ParseInto<M>(apply: (M, Record) -> Option<M>, m: M, b: bytes): Option<M> {
    match ReadRecords(b)
    case None => None
    case Some(rs) => Fold(apply, m, rs)
  }

  predicate PhoneKnows(r: Record) {
    (r.number == 1 && r.payload.Len?) || (r.number == 2 && r.payload.Varint?)
  }

  function ApplyPhone(p: PhoneNumber, r: Record): Option<PhoneNumber> {
    match r
    case Record(1, Len(d)) => if ValidUtf8(d) then Some(p.(number := d)) else None
    case Record(2, Varint(v)) => Some(p.(kind := ToI32(v)))
    case _ => Some(p.(unknown := p.unknown + [r]))
  }

  predicate TimeKnows(r: Record) {
    (r.number == 1 && r.payload.Varint?) || (r.number == 2 && r.payload.Varint?)
  }

  function ApplyTime(t: Timestamp, r: Record): Option<Timestamp> {
    match r
    case Record(1, Varint(v)) => Some(t.(seconds := ToI64(v)))
    case Record(2, Varint(v)) => Some(t.(nanos := ToI32(v)))
    case _ => Some(t.(unknown := t.unknown + [r]))
  }

  predicate PersonKnows(r: Record) {
    match r.number
    case 1 => r.payload.Len?
    case 2 => r.payload.Varint?
    case 3 => r.payload.Len?
    case 4 => r.payload.Len?
    case 5 => r.payload.Len?
    case 6 => r.payload.Fixed32?
    case 7 => r.payload.Fixed64?
    case _ => false
  }

  /** A second last_updated record is merged into the first; every other scalar is replaced. */
  function ApplyPerson(p: Person, r: Record): Option<Person> {
    match r
    case Record(1, Len(d)) => if ValidUtf8(d) then Some(p.(name := d)) else None
    case Record(2, Varint(v)) => Some(p.(id := ToI32(v)))
    case Record(3, Len(d)) => if ValidUtf8(d) then Some(p.(email := d)) else None
    case Record(4, Len(d)) =>
      (match ParseInto(ApplyPhone, NO_PHONE, d)
       case None => None
       case Some(phone) => Some(p.(phones := p.phones + [phone])))
    case Record(5, Len(d)) =>
      (match ParseInto(ApplyTime, MutableTime(p), d)
       case None => None
       case Some(t) => Some(p.(lastUpdated := Some(t))))
    case Record(6, Fixed32(bits)) => Some(p.(height := bits))
    case Record(7, Fixed64(bits)) => Some(p.(weight := bits))
    case _ => Some(p.(unknown := p.unknown + [r]))
  }

  /** The timestamp a person already has, or the empty one it gets on first use. */
  function MutableTime(p: Person): Timestamp {
    if p.lastUpdated.Some? then p.lastUpdated.value else NO_TIME
  }

  predicate BookKnows(r: Record) {
    r.number == 1 && r.payload.Len?
  }

  function ApplyBook(b: AddressBook, r: Record): Option<AddressBook> {
    match r
    case Record(1, Len(d)) =>
      (match ParseInto(ApplyPerson, NO_PERSON, d)
       case None => None
       case Some(person) => Some(b.(people := b.people + [person])))
    case _ => Some(b.(unknown := b.unknown + [r]))
  }

  // ----- Printing -----

  function TextField(n: FieldNumber, text: bytes): seq<Record> {
    if |text| > 0 then [Record(n, Len(text))] else []
  }

  function IntField(n: FieldNumber, i: i64): seq<Record> {
    if i != 0 then [Record(n, Varint(FromSigned(i)))] else []
  }

  function FloatField(n: FieldNumber, bits: u32): seq<Record> {
    if Present32(bits) then [Record(n, Fixed32(bits))] else []
  }

  function DoubleField(n: FieldNumber, bits: u64): seq<Record> {
    if Present64(bits) then [Record(n, Fixed64(bits))] else []
  }

  function PhoneRecords(p: PhoneNumber): seq<Record> {
    TextField(1, p.number) + IntField(2, p.kind) + p.unknown
  }

  function PhoneBytes(p: PhoneNumber): bytes {
    EncodeRecords(PhoneRecords(p))
  }

  function TimeRecords(t: Timestamp): seq<Record> {
    IntField(1, t.seconds) + IntField(2, t.nanos) + t.unknown
  }

  function TimeBytes(t: Timestamp): bytes {
    EncodeRecords(TimeRecords(t))
  }

  function PhoneFields(ps: seq<PhoneNumber>): seq<Record> {
    if ps == [] then []
    else PhoneFields(ps[..|ps| - 1]) + [Record(4, Len(PhoneBytes(ps[|ps| - 1])))]
  }

  function TimeField(t: Option<Timestamp>): seq<Record> {
    if t.Some? then [Record(5, Len(TimeBytes(t.value)))] else []
  }

  function FrontRecords(p: Person): seq<Record> {
    TextField(1, p.name) + IntField(2, p.id) + TextField(3, p.email) + PhoneFields(p.phones)
  }

  function BackRecords(p: Person): seq<Record> {
    TimeField(p.lastUpdated) + FloatField(6, p.height) + DoubleField(7, p.weight) + p.unknown
  }

  function PersonRecords(p: Person): seq<Record> {
    FrontRecords(p) + BackRecords(p)
  }

  function PersonBytes(p: Person): bytes {
    EncodeRecords(PersonRecords(p))
  }

  function PersonFields(ps: seq<Person>): seq<Record> {
    if ps == [] then []
    else PersonFields(ps[..|ps| - 1]) + [Record(1, Len(PersonBytes(ps[|ps| - 1])))]
  }

  function BookRecords(b: AddressBook): seq<Record> {
    PersonFields(b.people) + b.unknown
  }

  function BookBytes(b: AddressBook): bytes {
    EncodeRecords(BookRecords(b))
  }

  // ----- Merging -----

  function MergePhone(into: PhoneNumber, from: PhoneNumber): PhoneNumber {
    PhoneNumber(if |from.number| > 0 then from.number else into.number,
                if from.kind != 0 then from.kind else into.kind,
                into.unknown + from.unknown)
  }

  function MergeTime(into: Timestamp, from: Timestamp): Timestamp {
    Timestamp(if from.seconds != 0 then from.seconds else into.seconds,
              if from.nanos != 0 then from.nanos else into.nanos,
              into.unknown + from.unknown)
  }

  /** Elements of a repeated field are copied by merging each into a new element. */
  function CopyPhones(ps: seq<PhoneNumber>): (qs: seq<PhoneNumber>)
    ensures |qs| == |ps|
  {
    if ps == [] then [] else CopyPhones(ps[..|ps| - 1]) + [MergePhone(NO_PHONE, ps[|ps| - 1])]
  }

  function MergePerson(into: Person, from: Person): Person {
    Person(if |from.name| > 0 then from.name else into.name,
           if from.id != 0 then from.id else into.id,
           if |from.email| > 0 then from.email else into.email,
           into.phones + CopyPhones(from.phones),
           if from.lastUpdated.Some? then Some(MergeTime(MutableTime(into), from.lastUpdated.value))
           else into.lastUpdated,
           if Present32(from.height) then from.height else into.height,
           if Present64(from.weight) then from.weight else into.weight,
           into.unknown + from.unknown)
  }

  function CopyPeople(ps: seq<Person>): (qs: seq<Person>)
    ensures |qs| == |ps|
  {
    if ps == [] then [] else CopyPeople(ps[..|ps| - 1]) + [MergePerson(NO_PERSON, ps[|ps| - 1])]
  }

  function MergeBook(into: AddressBook, from: AddressBook): AddressBook {
    AddressBook(into.people + CopyPeople(from.people), into.unknown + from.unknown)
  }

  // ----- What the parser can produce -----

  ghost predicate PhoneOk(p: PhoneNumber) {
    ValidUtf8(p.number) && forall r <- p.unknown :: !PhoneKnows(r)
  }

  ghost predicate TimeOk(t: Timestamp) {
    forall r <- t.unknown :: !TimeKnows(r)
  }

  ghost predicate PersonOk(p: Person) {
    && ValidUtf8(p.name) && ValidUtf8(p.email)
    && (forall phone <- p.phones :: PhoneOk(phone))
    && (p.lastUpdated.Some? ==> TimeOk(p.lastUpdated.value))
    && (forall r <- p.unknown :: !PersonKnows(r))
  }

  ghost predicate BookOk(b: AddressBook) {
    (forall person <- b.people :: PersonOk(person)) && forall r <- b.unknown :: !BookKnows(r)
  }
}
