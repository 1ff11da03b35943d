/** Output as it is printed: field by field, with the lengths that go with it. */
module Printing {
  import opened Options
  import opened Sequences
  import opened Wire
  import opened Scalars
  import opened Messages
  import opened Codec

  lemma NothingWritten(begin: bytes)
    ensures begin == begin + EncodeRecords([])
  {
  }

  /** Output so far, extended by one more field. */
  lemma Printed(begin: bytes, written: seq<Record>, field: seq<Record>)
    ensures begin + EncodeRecords(written) + EncodeRecords(field) == begin + EncodeRecords(written + field)
    ensures EncodeRecords([]) == [] && begin + EncodeRecords(written) + [] == begin + EncodeRecords(written)
  {
    EncodeRecordsConcat(written, field);
    Assoc(begin, EncodeRecords(written), EncodeRecords(field));
  }

  /** Output so far, extended by a field that is present or not. */
  lemma Wrote(begin: bytes, written: seq<Record>, field: seq<Record>, data: bytes) returns (w: seq<Record>)
    requires |field| <= 1
    requires if field == [] then data == begin + EncodeRecords(written)
             else data == begin + EncodeRecords(written) + EncodeRecord(field[0])
    ensures w == written + field && data == begin + EncodeRecords(w)
  {
    hide EncodeRecord, EncodeRecords;
    w := written + field;
    if field == [] {
      Empty(written);
    } else {
      OneRecord(field[0]);
      assert field == [field[0]];
      Printed(begin, written, field);
    }
  }

  lemma ScalarSizes(id: i32, height: u32, weight: u64)
    ensures Size(IntField(2, id)) == if id != 0 then 1 + VarintSize(FromSigned(id)) else 0
    ensures Size(FloatField(6, height)) == if Present32(height) then 1 + 4 else 0
    ensures Size(DoubleField(7, weight)) == if Present64(weight) then 1 + 8 else 0
  {
    OneRecord(Record(2, Varint(FromSigned(id))));
    OneRecord(Record(6, Fixed32(height)));
    OneRecord(Record(7, Fixed64(weight)));
  }

  lemma TextSize(n: FieldNumber, d: bytes)
    requires n < 16
    ensures Size(TextField(n, d)) == if |d| > 0 then 1 + (|d| + VarintSize(|d|)) else 0
  {
    OneRecord(Record(n, Len(d)));
    LenSize(n, d);
  }

  lemma TimeFieldSize(t: Option<Timestamp>)
    ensures Size(TimeField(t)) ==
            if t.Some? then 1 + (|TimeBytes(t.value)| + VarintSize(|TimeBytes(t.value)|)) else 0
  {
    if t.Some? {
      OneRecord(Record(5, Len(TimeBytes(t.value))));
      LenSize(5, TimeBytes(t.value));
    }
  }

  lemma NextPhone(ps: seq<PhoneNumber>, i: nat)
    requires i < |ps|
    ensures PhoneFields(ps[..i + 1]) == PhoneFields(ps[..i]) + [Record(4, Len(PhoneBytes(ps[i])))]
    ensures Size(PhoneFields(ps[..i + 1])) ==
            Size(PhoneFields(ps[..i])) + 1 + VarintSize(|PhoneBytes(ps[i])|) + |PhoneBytes(ps[i])|
  {
    hide PhoneBytes, EncodeRecord, VarintSize;
    Appended(ps[..i], ps[i]);
    assert ps[..i + 1] == ps[..i] + [ps[i]];
    AppendSize(PhoneFields(ps[..i]), Record(4, Len(PhoneBytes(ps[i]))));
    LenSize(4, PhoneBytes(ps[i]));
  }

  lemma {:induction false} PhoneWithin(ps: seq<PhoneNumber>, i: nat)
    requires i < |ps|
    ensures |PhoneBytes(ps[i])| <= Size(PhoneFields(ps))
  {
    hide PhoneBytes, EncodeRecord, VarintSize, Size;
    var init, last := ps[..|ps| - 1], ps[|ps| - 1];
    AppendSize(PhoneFields(init), Record(4, Len(PhoneBytes(last))));
    LenSize(4, PhoneBytes(last));
    if i < |ps| - 1 {
      PhoneWithin(init, i);
    }
  }

  lemma NoPhonesSize(vs: seq<PhoneNumber>)
    ensures Size(PhoneFields(vs[..0])) == 0
  {
  }

  lemma NextPerson(ps: seq<Person>, i: nat)
    requires i < |ps|
    ensures PersonFields(ps[..i + 1]) == PersonFields(ps[..i]) + [Record(1, Len(PersonBytes(ps[i])))]
    ensures Size(PersonFields(ps[..i + 1])) ==
            Size(PersonFields(ps[..i])) + 1 + VarintSize(|PersonBytes(ps[i])|) + |PersonBytes(ps[i])|
  {
    hide PersonBytes, EncodeRecord, VarintSize;
    Appended(ps[..i], ps[i]);
    assert ps[..i + 1] == ps[..i] + [ps[i]];
    AppendSize(PersonFields(ps[..i]), Record(1, Len(PersonBytes(ps[i]))));
    LenSize(1, PersonBytes(ps[i]));
  }

  lemma {:induction false} PersonWithin(ps: seq<Person>, i: nat)
    requires i < |ps|
    ensures |PersonBytes(ps[i])| <= Size(PersonFields(ps))
  {
    hide PersonBytes, EncodeRecord, VarintSize, Size;
    var init, last := ps[..|ps| - 1], ps[|ps| - 1];
    AppendSize(PersonFields(init), Record(1, Len(PersonBytes(last))));
    LenSize(1, PersonBytes(last));
    if i < |ps| - 1 {
      PersonWithin(init, i);
    }
  }

  /** The parts a person is printed in, one after the other. */
  lemma FieldOrder(p: Person, begin: bytes)
    ensures begin + EncodeRecords([] + TextField(1, p.name) + IntField(2, p.id) + TextField(3, p.email))
            + EncodeRecords(PhoneFields(p.phones)) + EncodeRecords(TimeField(p.lastUpdated))
            + EncodeRecords([] + FloatField(6, p.height) + DoubleField(7, p.weight)) + EncodeRecords(p.unknown)
            == begin + PersonBytes(p)
  {
    hide TextField, IntField, PhoneFields, TimeField, FloatField, DoubleField, EncodeRecords;
    Empty(TextField(1, p.name));
    Empty(FloatField(6, p.height));
    var text := TextField(1, p.name) + IntField(2, p.id) + TextField(3, p.email);
    var t, f, d := TimeField(p.lastUpdated), FloatField(6, p.height), DoubleField(7, p.weight);
    Printed(begin, text, PhoneFields(p.phones));
    Printed(begin, FrontRecords(p), t);
    Printed(begin, FrontRecords(p) + t, f + d);
    Printed(begin, FrontRecords(p) + t + (f + d), p.unknown);
    Assoc(FrontRecords(p), t, f + d);
    Assoc(FrontRecords(p), t + (f + d), p.unknown);
    Assoc(t, f, d);
  }
}
