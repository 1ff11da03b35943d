/** Re-printing what was parsed: it parses back to the same message, drops nothing the
    parser kept, and at most doubles the input, or does not grow at all. */
module CodecGrowth {
  import opened Options
  import opened Sequences
  import opened Wire
  import opened Scalars
  import opened Messages
  import opened Codec
  import opened CodecLaws

  // ----- When a record may grow by being printed again -----

  /** The bound is `k` bytes for each byte read, once or twice. */
  function Scaled(k: nat, n: nat): nat {
    if k == 1 then n else 2 * n
  }

  /** Only a negative 32-bit number can need more bytes than it was read from: it is written in
      ten, after a tag of one. `n` is the size of the record as read. */
  predicate WideEnough(v: u64, n: nat) {
    ToI32(v) < 0 ==> n >= 11
  }

  predicate EachRecord(steady: (Record, nat) -> bool, b: bytes) {
    b != [] && ReadRecord(b).Ok? ==>
      steady(ReadRecord(b).value, ReadRecord(b).size) && EachRecord(steady, b[ReadRecord(b).size..])
  }

  predicate PhoneSteady(r: Record, n: nat) {
    r.number == 2 && r.payload.Varint? ==> WideEnough(r.payload.v, n)
  }

  predicate TimeSteady(r: Record, n: nat) {
    r.number == 2 && r.payload.Varint? ==> WideEnough(r.payload.v, n)
  }

  predicate PersonSteady(r: Record, n: nat) {
    && (r.number == 2 && r.payload.Varint? ==> WideEnough(r.payload.v, n))
    && (r.number == 4 && r.payload.Len? ==> EachRecord(PhoneSteady, r.payload.data))
    && (r.number == 5 && r.payload.Len? ==> EachRecord(TimeSteady, r.payload.data))
  }

  predicate BookSteady(r: Record, n: nat) {
    r.number == 1 && r.payload.Len? ==> EachRecord(PersonSteady, r.payload.data)
  }

  // ----- Fields -----

  lemma TextGrowth(n: FieldNumber, d: bytes)
    ensures Size(TextField(n, d)) <= |EncodeRecord(Record(n, Len(d)))|
  {
    OneRecord(Record(n, Len(d)));
  }

  lemma Int32Growth(k: nat, number: FieldNumber, v: u64, n: nat)
    requires number < 16 && n >= |EncodeRecord(Record(number, Varint(v)))| && (k == 1 ==> WideEnough(v, n))
    ensures Size(IntField(number, ToI32(v))) <= Scaled(k, n)
  {
    var i := ToI32(v);
    var u := FromSigned(i);
    OneRecord(Record(number, Varint(u)));
    VarintWidths(u);
    VarintWidths(v);
    if i >= 0 {
      VarintSizeMonotone(u, v);
    }
  }

  /** The record itself grows exactly then. */
  lemma Int32GrowsIff(number: FieldNumber, v: u64, n: nat)
    requires number < 16 && n >= |EncodeRecord(Record(number, Varint(v)))|
    ensures Size(IntField(number, ToI32(v))) > n <==> !WideEnough(v, n)
  {
    Int32Growth(if WideEnough(v, n) then 1 else 2, number, v, n);
    OneRecord(Record(number, Varint(FromSigned(ToI32(v)))));
    TenBytesIffNegative(ToI32(v));
  }

  lemma Int64Growth(n: FieldNumber, v: u64)
    ensures Size(IntField(n, ToI64(v))) <= |EncodeRecord(Record(n, Varint(v)))|
  {
    OneRecord(Record(n, Varint(v)));
  }

  /** Growing the contents of a length-delimited record to at most the sum of an old one and
      the scaled new one grows the record to no more than that either. */
  lemma NestedGrowth(k: nat, n: FieldNumber, old_: bytes, new_: bytes, result: bytes)
    requires n < 16 && |result| <= |old_| + Scaled(k, |new_|)
    ensures |EncodeRecord(Record(n, Len(result)))| <=
            (if old_ == [] then 0 else |EncodeRecord(Record(n, Len(old_)))|) + Scaled(k, |EncodeRecord(Record(n, Len(new_)))|)
  {
    hide EncodeRecord, VarintSize;
    LenSize(n, old_);
    LenSize(n, new_);
    LenSize(n, result);
    VarintSizeMonotone(|result|, |old_| + Scaled(k, |new_|));
    VarintSizeSum(|old_|, Scaled(k, |new_|));
    VarintSizeSum(|new_|, |new_|);
  }

  // ----- Phone numbers -----

  lemma PhoneStepGrowth(k: nat, p: PhoneNumber, r: Record, n: nat)
    requires ApplyPhone(p, r).Some? && n >= |EncodeRecord(r)| && (k == 1 ==> PhoneSteady(r, n))
    ensures |PhoneBytes(ApplyPhone(p, r).value)| <= |PhoneBytes(p)| + Scaled(k, n)
  {
    hide PhoneBytes, EncodeRecord, Size, TextField, IntField, WideEnough;
    PhoneSize(p);
    PhoneSize(ApplyPhone(p, r).value);
    match r
    case Record(1, Len(d)) => TextGrowth(1, d);
    case Record(2, Varint(v)) => Int32Growth(k, 2, v, n);
    case _ => AppendSize(p.unknown, r);
  }

  lemma {:induction false} PhoneGrowth(k: nat, p: PhoneNumber, b: bytes)
    requires ParseInto(ApplyPhone, p, b).Some? && (k == 1 ==> EachRecord(PhoneSteady, b))
    ensures |PhoneBytes(ParseInto(ApplyPhone, p, b).value)| <= |PhoneBytes(p)| + Scaled(k, |b|)
    decreases |b|
  {
    hide PhoneBytes, EncodeRecord, ParseInto, ApplyPhone, PhoneSteady;
    if b == [] {
      EmptyParse(ApplyPhone, p);
    } else {
      ParseStep(ApplyPhone, p, b);
      var r, n := ReadRecord(b).value, ReadRecord(b).size;
      PhoneStepGrowth(k, p, r, n);
      PhoneGrowth(k, ApplyPhone(p, r).value, b[n..]);
    }
  }

  // ----- Timestamps -----

  lemma TimeStepGrowth(k: nat, t: Timestamp, r: Record, n: nat)
    requires n >= |EncodeRecord(r)| && (k == 1 ==> TimeSteady(r, n))
    ensures |TimeBytes(ApplyTime(t, r).value)| <= |TimeBytes(t)| + Scaled(k, n)
  {
    hide TimeBytes, EncodeRecord, Size, IntField, WideEnough;
    TimeSize(t);
    TimeSize(ApplyTime(t, r).value);
    match r
    case Record(1, Varint(v)) => Int64Growth(1, v);
    case Record(2, Varint(v)) => Int32Growth(k, 2, v, n);
    case _ => AppendSize(t.unknown, r);
  }

  lemma {:induction false} TimeGrowth(k: nat, t: Timestamp, b: bytes)
    requires ParseInto(ApplyTime, t, b).Some? && (k == 1 ==> EachRecord(TimeSteady, b))
    ensures |TimeBytes(ParseInto(ApplyTime, t, b).value)| <= |TimeBytes(t)| + Scaled(k, |b|)
    decreases |b|
  {
    hide TimeBytes, EncodeRecord, ParseInto, TimeSteady;
    if b == [] {
      EmptyParse(ApplyTime, t);
    } else {
      ParseStep(ApplyTime, t, b);
      var r, n := ReadRecord(b).value, ReadRecord(b).size;
      TimeStepGrowth(k, t, r, n);
      TimeGrowth(k, ApplyTime(t, r).value, b[n..]);
    }
  }

  // ----- People -----

  lemma NoPhoneIsEmpty()
    ensures PhoneBytes(NO_PHONE) == []
  {
  }

  lemma NoTimeIsEmpty()
    ensures TimeBytes(NO_TIME) == [] && EncodeRecords([]) == []
  {
  }

  lemma PhoneFieldGrowth(k: nat, p: Person, d: bytes)
    requires ApplyPerson(p, Record(4, Len(d))).Some? && (k == 1 ==> EachRecord(PhoneSteady, d))
    ensures Size(PhoneFields(ApplyPerson(p, Record(4, Len(d))).value.phones))
            <= Size(PhoneFields(p.phones)) + Scaled(k, |EncodeRecord(Record(4, Len(d)))|)
  {
    hide PhoneBytes, EncodeRecord, EncodeRecords, ParseInto, Size;
    var x := ParseInto(ApplyPhone, NO_PHONE, d).value;
    NoPhoneIsEmpty();
    PhoneGrowth(k, NO_PHONE, d);
    NestedGrowth(k, 4, [], d, PhoneBytes(x));
    Appended(p.phones, x);
    AppendSize(PhoneFields(p.phones), Record(4, Len(PhoneBytes(x))));
  }

  lemma LastUpdatedGrowth(k: nat, p: Person, d: bytes)
    requires ApplyPerson(p, Record(5, Len(d))).Some? && (k == 1 ==> EachRecord(TimeSteady, d))
    ensures Size(TimeField(ApplyPerson(p, Record(5, Len(d))).value.lastUpdated))
            <= Size(TimeField(p.lastUpdated)) + Scaled(k, |EncodeRecord(Record(5, Len(d)))|)
  {
    hide TimeBytes, EncodeRecord, EncodeRecords, ParseInto;
    NoTimeIsEmpty();
    var t := MutableTime(p);
    var t' := ParseInto(ApplyTime, t, d).value;
    TimeGrowth(k, t, d);
    NestedGrowth(k, 5, TimeBytes(t), d, TimeBytes(t'));
    OneRecord(Record(5, Len(TimeBytes(t'))));
    OneRecord(Record(5, Len(TimeBytes(t))));
  }

  lemma FixedGrowth(bits: u32, bits64: u64)
    ensures Size(FloatField(6, bits)) <= |EncodeRecord(Record(6, Fixed32(bits)))|
    ensures Size(DoubleField(7, bits64)) <= |EncodeRecord(Record(7, Fixed64(bits64)))|
  {
    OneRecord(Record(6, Fixed32(bits)));
    OneRecord(Record(7, Fixed64(bits64)));
  }

  lemma PersonStepGrowth(k: nat, p: Person, r: Record, n: nat)
    requires ApplyPerson(p, r).Some? && n >= |EncodeRecord(r)| && (k == 1 ==> PersonSteady(r, n))
    ensures |PersonBytes(ApplyPerson(p, r).value)| <= |PersonBytes(p)| + Scaled(k, n)
  {
    hide PersonBytes, EncodeRecord, EncodeRecords, ParseInto, PhoneFields, Size, TextField, IntField, WideEnough, EachRecord;
    PersonSize(p);
    PersonSize(ApplyPerson(p, r).value);
    match r
    case Record(1, Len(d)) => TextGrowth(1, d);
    case Record(2, Varint(v)) => Int32Growth(k, 2, v, n);
    case Record(3, Len(d)) => TextGrowth(3, d);
    case Record(4, Len(d)) => PhoneFieldGrowth(k, p, d);
    case Record(5, Len(d)) => LastUpdatedGrowth(k, p, d);
    case Record(6, Fixed32(bits)) => FixedGrowth(bits, 0);
    case Record(7, Fixed64(bits)) => FixedGrowth(0, bits);
    case _ => AppendSize(p.unknown, r);
  }

  lemma {:induction false} PersonGrowth(k: nat, p: Person, b: bytes)
    requires ParseInto(ApplyPerson, p, b).Some? && (k == 1 ==> EachRecord(PersonSteady, b))
    ensures |PersonBytes(ParseInto(ApplyPerson, p, b).value)| <= |PersonBytes(p)| + Scaled(k, |b|)
    decreases |b|
  {
    hide PersonBytes, EncodeRecord, ParseInto, ApplyPerson, PersonSteady;
    if b == [] {
      EmptyParse(ApplyPerson, p);
    } else {
      ParseStep(ApplyPerson, p, b);
      var r, n := ReadRecord(b).value, ReadRecord(b).size;
      PersonStepGrowth(k, p, r, n);
      PersonGrowth(k, ApplyPerson(p, r).value, b[n..]);
    }
  }

  // ----- Books -----

  lemma NothingIsEmpty()
    ensures PersonBytes(NO_PERSON) == [] && BookBytes(NO_BOOK) == []
  {
  }

  lemma BookStepGrowth(k: nat, b: AddressBook, r: Record, n: nat)
    requires ApplyBook(b, r).Some? && n >= |EncodeRecord(r)| && (k == 1 ==> BookSteady(r, n))
    ensures |BookBytes(ApplyBook(b, r).value)| <= |BookBytes(b)| + Scaled(k, n)
  {
    hide BookBytes, PersonBytes, EncodeRecord, ParseInto, Size, EachRecord;
    BookSize(b);
    BookSize(ApplyBook(b, r).value);
    match r
    case Record(1, Len(d)) =>
      var x := ParseInto(ApplyPerson, NO_PERSON, d).value;
      NothingIsEmpty();
      PersonGrowth(k, NO_PERSON, d);
      NestedGrowth(k, 1, [], d, PersonBytes(x));
      Appended(b.people, x);
      AppendSize(PersonFields(b.people), Record(1, Len(PersonBytes(x))));
    case _ => AppendSize(b.unknown, r);
  }

  lemma {:induction false} BookGrowth(k: nat, m: AddressBook, b: bytes)
    requires ParseInto(ApplyBook, m, b).Some? && (k == 1 ==> EachRecord(BookSteady, b))
    ensures |BookBytes(ParseInto(ApplyBook, m, b).value)| <= |BookBytes(m)| + Scaled(k, |b|)
    decreases |b|
  {
    hide BookBytes, EncodeRecord, ParseInto, ApplyBook, BookSteady;
    if b == [] {
      EmptyParse(ApplyBook, m);
    } else {
      ParseStep(ApplyBook, m, b);
      var r, n := ReadRecord(b).value, ReadRecord(b).size;
      BookStepGrowth(k, m, r, n);
      BookGrowth(k, ApplyBook(m, r).value, b[n..]);
    }
  }

  /** Printing what was parsed takes at most twice the bytes it was parsed from. */
  lemma ReprintAtMostDoubles(b: bytes)
    requires ParseBook(b).Some?
    ensures |BookBytes(ParseBook(b).value)| <= 2 * |b|
  {
    hide BookBytes, ParseInto;
    NothingIsEmpty();
    BookGrowth(2, NO_BOOK, b);
  }

  /** And no more than those bytes, unless some id, type or nanos at some level reads as a
      negative number from a record of fewer than eleven bytes. */
  lemma ReprintDoesNotGrow(b: bytes)
    requires ParseBook(b).Some? && EachRecord(BookSteady, b)
    ensures |BookBytes(ParseBook(b).value)| <= |b|
  {
    hide BookBytes, ParseInto, EachRecord;
    NothingIsEmpty();
    BookGrowth(1, NO_BOOK, b);
  }

  // ----- Normal form -----

  lemma {:induction false} DropSignsPrint(ps: seq<Person>)
    ensures PersonFields(DropSigns(ps)) == PersonFields(ps)
  {
    if ps != [] {
      var last := ps[|ps| - 1];
      DropSignsPrint(ps[..|ps| - 1]);
      Appended(DropSigns(ps[..|ps| - 1]), DropSign(last));
      assert PersonRecords(DropSign(last)) == PersonRecords(last);
    }
  }

  lemma UnsignedPrintsTheSame(b: AddressBook)
    ensures BookBytes(UnsignBook(b)) == BookBytes(b)
  {
    DropSignsPrint(b.people);
  }

  /** For every accepted input: printing the parsed message and parsing again gives the same
      message (up to signed zero), and from then on the bytes no longer change. The printer's
      own size guard is the only condition. */
  lemma NormalForm(b: bytes)
    requires ParseBook(b).Some?
    ensures var m := ParseBook(b).value;
            && BookBytes(UnsignBook(m)) == BookBytes(m)
            && (|BookBytes(m)| < TWO_31 ==> ParseBook(BookBytes(m)) == Some(UnsignBook(m)))
  {
    var m := ParseBook(b).value;
    ParsedBooksAreOk(b);
    UnsignedPrintsTheSame(m);
    if |BookBytes(m)| < TWO_31 {
      RoundTrip(m);
    }
  }

  /** Inputs below 2^30 bytes never meet the size guard. */
  lemma NormalFormBelowGuard(b: bytes)
    requires |b| < TWO_31 / 2 && ParseBook(b).Some?
    ensures ParseBook(BookBytes(ParseBook(b).value)) == Some(UnsignBook(ParseBook(b).value))
  {
    ReprintAtMostDoubles(b);
    NormalForm(b);
  }

  /** Two messages print alike exactly when they differ in signs of zeros only. */
  lemma PrintingIsInjective(a: AddressBook, b: AddressBook)
    requires BookOk(a) && BookOk(b) && |BookBytes(a)| < TWO_31
    ensures BookBytes(a) == BookBytes(b) <==> UnsignBook(a) == UnsignBook(b)
  {
    if BookBytes(a) == BookBytes(b) {
      RoundTrip(a);
      RoundTrip(b);
    }
    UnsignedPrintsTheSame(a);
    UnsignedPrintsTheSame(b);
  }
}
