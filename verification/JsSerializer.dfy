/** The JavaScript writers and readers as the loops they are. A writer appends to a buffer
    and patches each embedded message's length in afterwards, where the C++ writer trusts a
    size cache; a reader loops over the fields of a range and calls itself on embedded ones. */
module JsSerializer {
  import opened Options
  import opened Sequences
  import opened Wire
  import opened Scalars
  import opened Messages
  import opened Codec
  import opened CodecLaws
  import opened JsReading
  import opened JsMessages
  import opened Printing
  import opened ParseCases

  // ----- Writing -----

  class BinaryWriter {
    var out: bytes

    constructor ()
      ensures out == []
    {
      out := [];
    }

    method WriteRecord(r: Record)
      modifies this
      ensures out == old(out) + EncodeRecord(r)
    {
      out := out + EncodeRecord(r);
    }

    /** Writes the header of an embedded message and remembers where its contents begin. */
    method BeginDelimited(number: FieldNumber) returns (mark: nat)
      requires number < 16
      modifies this
      ensures out == old(out) + EncodeVarint(8 * number + 2) && mark == |out|
    {
      out := out + EncodeVarint(8 * number + 2);
      mark := |out|;
    }

    /** Inserts the length of everything written since the mark. */
    method EndDelimited(mark: nat)
      requires mark <= |out|
      modifies this
      ensures out == old(out[..mark]) + EncodeVarint(|old(out)| - mark) + old(out[mark..])
    {
      out := out[..mark] + EncodeVarint(|out| - mark) + out[mark..];
    }
  }

  lemma Delimited(before: bytes, number: FieldNumber, d: bytes)
    requires number < 16
    ensures var header := before + EncodeVarint(8 * number + 2);
            (header + d)[..|header|] + EncodeVarint(|d|) + (header + d)[|header|..]
            == before + EncodeRecord(Record(number, Len(d)))
  {
    hide EncodeVarint, VarintSize;
    var tag, size := EncodeVarint(8 * number + 2), EncodeVarint(|d|);
    assert (before + tag + d)[..|before + tag|] == before + tag;
    DropPrefix(before + tag, d);
    Assoc(before + tag, size, d);
    Assoc(before, tag, size + d);
  }

  method WritePhone(p: PhoneNumber, w: BinaryWriter)
    requires p.unknown == []
    modifies w
    ensures w.out == old(w.out) + PhoneBytes(p)
  {
    hide EncodeRecord, EncodeRecords;
    ghost var begin := w.out;
    NothingWritten(begin);
    if |p.number| > 0 {
      w.WriteRecord(Record(1, Len(p.number)));
    }
    ghost var written := Wrote(begin, [], TextField(1, p.number), w.out);
    if p.kind != 0 {
      w.WriteRecord(Record(2, Varint(FromSigned(p.kind))));
    }
    written := Wrote(begin, written, IntField(2, p.kind), w.out);
    Empty(TextField(1, p.number));
    Empty(TextField(1, p.number) + IntField(2, p.kind));
  }

  method WriteTime(t: Timestamp, w: BinaryWriter)
    requires t.unknown == []
    modifies w
    ensures w.out == old(w.out) + TimeBytes(t)
  {
    hide EncodeRecord, EncodeRecords;
    ghost var begin := w.out;
    NothingWritten(begin);
    if t.seconds != 0 {
      w.WriteRecord(Record(1, Varint(FromSigned(t.seconds))));
    }
    ghost var written := Wrote(begin, [], IntField(1, t.seconds), w.out);
    if t.nanos != 0 {
      w.WriteRecord(Record(2, Varint(FromSigned(t.nanos))));
    }
    written := Wrote(begin, written, IntField(2, t.nanos), w.out);
    Empty(IntField(1, t.seconds));
    Empty(IntField(1, t.seconds) + IntField(2, t.nanos));
  }

  /** No unknown fields at any level: what a JavaScript message is. */
  predicate PersonPlain(p: Person) {
    && p.unknown == []
    && (forall phone <- p.phones :: phone.unknown == [])
    && (p.lastUpdated.Some? ==> p.lastUpdated.value.unknown == [])
  }

  method WritePhones(ps: seq<PhoneNumber>, w: BinaryWriter)
    requires forall p <- ps :: p.unknown == []
    modifies w
    ensures w.out == old(w.out) + EncodeRecords(PhoneFields(ps))
  {
    hide PhoneBytes, EncodeRecord, EncodeRecords, EncodeVarint;
    ghost var begin := w.out;
    ghost var written: seq<Record> := [];
    NothingWritten(begin);
    for i := 0 to |ps|
      invariant written == PhoneFields(ps[..i]) && w.out == begin + EncodeRecords(written)
    {
      ghost var before := w.out;
      var mark := w.BeginDelimited(4);
      assert ps[i] in ps;
      WritePhone(ps[i], w);
      w.EndDelimited(mark);
      Delimited(before, 4, PhoneBytes(ps[i]));
      written := Wrote(begin, written, [Record(4, Len(PhoneBytes(ps[i])))], w.out);
      NextPhone(ps, i);
    }
    assert ps[..|ps|] == ps;
  }

  method WriteLastUpdated(t: Option<Timestamp>, w: BinaryWriter)
    requires t.Some? ==> t.value.unknown == []
    modifies w
    ensures w.out == old(w.out) + EncodeRecords(TimeField(t))
  {
    hide TimeBytes, EncodeRecord, EncodeVarint;
    Empty(w.out);
    if t.Some? {
      var mark := w.BeginDelimited(5);
      WriteTime(t.value, w);
      w.EndDelimited(mark);
      Delimited(old(w.out), 5, TimeBytes(t.value));
      OneRecord(Record(5, Len(TimeBytes(t.value))));
    }
  }

  method WriteText(p: Person, w: BinaryWriter)
    modifies w
    ensures w.out == old(w.out) + EncodeRecords([] + TextField(1, p.name) + IntField(2, p.id) + TextField(3, p.email))
  {
    hide EncodeRecord, EncodeRecords;
    ghost var begin := w.out;
    NothingWritten(begin);
    if |p.name| > 0 {
      w.WriteRecord(Record(1, Len(p.name)));
    }
    ghost var written := Wrote(begin, [], TextField(1, p.name), w.out);
    if p.id != 0 {
      w.WriteRecord(Record(2, Varint(FromSigned(p.id))));
    }
    written := Wrote(begin, written, IntField(2, p.id), w.out);
    if |p.email| > 0 {
      w.WriteRecord(Record(3, Len(p.email)));
    }
    written := Wrote(begin, written, TextField(3, p.email), w.out);
  }

  /** The JavaScript test and the C++ test agree on which floats are written. */
  method WriteFloats(p: Person, w: BinaryWriter)
    modifies w
    ensures w.out == old(w.out) + EncodeRecords([] + FloatField(6, p.height) + DoubleField(7, p.weight))
  {
    hide EncodeRecord, EncodeRecords;
    ghost var begin := w.out;
    NothingWritten(begin);
    if NotZero32(p.height) {
      w.WriteRecord(Record(6, Fixed32(p.height)));
    }
    ghost var written := Wrote(begin, [], FloatField(6, p.height), w.out);
    if NotZero64(p.weight) {
      w.WriteRecord(Record(7, Fixed64(p.weight)));
    }
    written := Wrote(begin, written, DoubleField(7, p.weight), w.out);
  }

  /** The bytes are those the C++ class prints for the same person. */
  method WritePerson(p: Person, w: BinaryWriter)
    requires PersonPlain(p)
    modifies w
    ensures w.out == old(w.out) + PersonBytes(p)
  {
    hide PersonBytes, EncodeRecords, TextField, IntField, FloatField, DoubleField, TimeField, PhoneFields;
    ghost var begin := w.out;
    WriteText(p, w);
    WritePhones(p.phones, w);
    WriteLastUpdated(p.lastUpdated, w);
    WriteFloats(p, w);
    FieldOrder(p, begin);
    NothingWritten([]);
    Empty(w.out);
  }

  method WriteBook(b: AddressBook, w: BinaryWriter)
    requires b.unknown == [] && forall p <- b.people :: PersonPlain(p)
    modifies w
    ensures w.out == old(w.out) + BookBytes(b)
  {
    hide PersonBytes, EncodeRecord, EncodeRecords, EncodeVarint, PersonPlain;
    ghost var begin := w.out;
    ghost var written: seq<Record> := [];
    NothingWritten(begin);
    for i := 0 to |b.people|
      invariant written == PersonFields(b.people[..i]) && w.out == begin + EncodeRecords(written)
    {
      ghost var before := w.out;
      var mark := w.BeginDelimited(1);
      assert b.people[i] in b.people;
      WritePerson(b.people[i], w);
      w.EndDelimited(mark);
      Delimited(before, 1, PersonBytes(b.people[i]));
      written := Wrote(begin, written, [Record(1, Len(PersonBytes(b.people[i])))], w.out);
      NextPerson(b.people, i);
    }
    assert b.people[..|b.people|] == b.people;
    Empty(PersonFields(b.people));
  }

  // ----- Reading -----

  method ReadPhone(buf: bytes, start: nat, limit: nat) returns (result: Option<PhoneNumber>)
    requires start <= limit <= |buf|
    ensures result == JsInto(JsPhone, NO_PHONE, buf[start..limit])
  {
    hide JsInto, JsTagged, ReadTag, ReadTagged, ReadLen, ReadVarint64, EncodePayload;
    var msg, ptr := NO_PHONE, start;
    while ptr < limit
      invariant start <= ptr <= limit
      invariant JsInto(JsPhone, msg, buf[ptr..limit]) == JsInto(JsPhone, NO_PHONE, buf[start..limit])
    {
      JsHeader(JsPhone, msg, buf, ptr, limit);
      var tag;
      match ReadTag(buf[ptr..limit]) {
        case Fail => return None;
        case Ok(t, n) => tag, ptr := t, ptr + n;
      }
      if EndsGroup(tag) { return Some(msg); }
      match tag / 8 {
        case 1 =>
          if tag % 8 != 2 {
            WrongType(JsPhone, msg, tag, buf[ptr..limit]);
            return None;
          }
          JsLenBody(JsPhone, msg, 1, buf, ptr, limit);
          match ReadLen(buf[ptr..limit]) {
            case Fail => return None;
            case Ok(d, n) => msg, ptr := msg.(number := d), ptr + n;
          }
        case 2 =>
          if tag % 8 != 0 {
            WrongType(JsPhone, msg, tag, buf[ptr..limit]);
            return None;
          }
          JsVarintBody(JsPhone, msg, 2, buf, ptr, limit);
          match ReadVarint64(buf[ptr..limit]) {
            case Fail => return None;
            case Ok(v, n) => msg, ptr := msg.(kind := ToI32(v)), ptr + n;
          }
        case _ =>
          JsBody(JsPhone, msg, tag, buf, ptr, limit);
          match ReadTagged(tag, buf[ptr..limit]) {
            case Fail => return None;
            case Ok(_, n) => ptr := ptr + n;
          }
      }
    }
    JsEmpty(JsPhone, msg);
    assert buf[ptr..limit] == [];
    return Some(msg);
  }

  method ReadTime(buf: bytes, start: nat, limit: nat) returns (result: Option<Timestamp>)
    requires start <= limit <= |buf|
    ensures result == JsInto(JsTime, NO_TIME, buf[start..limit])
  {
    hide JsInto, JsTagged, ReadTag, ReadTagged, ReadVarint64, EncodePayload;
    var msg, ptr := NO_TIME, start;
    while ptr < limit
      invariant start <= ptr <= limit
      invariant JsInto(JsTime, msg, buf[ptr..limit]) == JsInto(JsTime, NO_TIME, buf[start..limit])
    {
      JsHeader(JsTime, msg, buf, ptr, limit);
      var tag;
      match ReadTag(buf[ptr..limit]) {
        case Fail => return None;
        case Ok(t, n) => tag, ptr := t, ptr + n;
      }
      if EndsGroup(tag) { return Some(msg); }
      if tag / 8 == 1 || tag / 8 == 2 {
        if tag % 8 != 0 {
          WrongType(JsTime, msg, tag, buf[ptr..limit]);
          return None;
        }
        JsVarintBody(JsTime, msg, tag / 8, buf, ptr, limit);
        match ReadVarint64(buf[ptr..limit]) {
          case Fail => return None;
          case Ok(v, n) =>
            msg := if tag / 8 == 1 then msg.(seconds := ToI64(v)) else msg.(nanos := ToI32(v));
            ptr := ptr + n;
        }
      } else {
        JsBody(JsTime, msg, tag, buf, ptr, limit);
        match ReadTagged(tag, buf[ptr..limit]) {
          case Fail => return None;
          case Ok(_, n) => ptr := ptr + n;
        }
      }
    }
    JsEmpty(JsTime, msg);
    assert buf[ptr..limit] == [];
    return Some(msg);
  }

  /** One field of a person, its tag already read: the switch of the reader's loop. */
  method ReadPersonField(msg: Person, tag: u32, buf: bytes, start: nat, limit: nat) returns (result: Option<Person>, ptr: nat)
    requires start <= limit <= |buf|
    ensures result.Some? ==> start <= ptr <= limit
    ensures JsTagged(JsPerson, msg, tag, buf[start..limit]) ==
            if result.Some? then JsInto(JsPerson, result.value, buf[ptr..limit]) else None
  {
    hide JsInto, JsTagged, ReadTagged, ReadLen, ReadVarint64, ReadFixed32, ReadFixed64, EncodePayload;
    ptr := start;
    var number, wireType := tag / 8, tag % 8;
    if (number in {1, 3, 4, 5} && wireType != 2) || (number == 2 && wireType != 0)
       || (number == 6 && wireType != 5) || (number == 7 && wireType != 1) {
      WrongType(JsPerson, msg, tag, buf[ptr..limit]);
      return None, ptr;
    }
    if number in {1, 3, 4, 5} {
      JsLenBody(JsPerson, msg, number, buf, ptr, limit);
      match ReadLen(buf[ptr..limit]) {
        case Fail => return None, ptr;
        case Ok(d, n) =>
          LenRange(buf, ptr, limit);
          ptr := ptr + n;
          if number == 1 { return Some(msg.(name := d)), ptr; }
          if number == 3 { return Some(msg.(email := d)), ptr; }
          if number == 4 {
            var phone := ReadPhone(buf, ptr - |d|, ptr);
            return if phone.Some? then Some(msg.(phones := msg.phones + [phone.value])) else None, ptr;
          }
          var t := ReadTime(buf, ptr - |d|, ptr);
          return if t.Some? then Some(msg.(lastUpdated := Some(t.value))) else None, ptr;
      }
    } else if number == 2 {
      JsVarintBody(JsPerson, msg, 2, buf, ptr, limit);
      match ReadVarint64(buf[ptr..limit]) {
        case Fail => return None, ptr;
        case Ok(v, n) => return Some(msg.(id := ToI32(v))), ptr + n;
      }
    } else if number == 6 {
      JsFixedBody(JsPerson, msg, 6, buf, ptr, limit);
      match ReadFixed32(buf[ptr..limit]) {
        case Fail => return None, ptr;
        case Ok(bits, n) => return Some(msg.(height := Number32(bits))), ptr + n;
      }
    } else if number == 7 {
      JsFixedBody(JsPerson, msg, 7, buf, ptr, limit);
      match ReadFixed64(buf[ptr..limit]) {
        case Fail => return None, ptr;
        case Ok(bits, n) => return Some(msg.(weight := Number64(bits))), ptr + n;
      }
    } else {
      JsBody(JsPerson, msg, tag, buf, ptr, limit);
      match ReadTagged(tag, buf[ptr..limit]) {
        case Fail => return None, ptr;
        case Ok(_, n) => return Some(msg), ptr + n;
      }
    }
  }

  method ReadPerson(buf: bytes, start: nat, limit: nat) returns (result: Option<Person>)
    requires start <= limit <= |buf|
    ensures result == JsInto(JsPerson, NO_PERSON, buf[start..limit])
  {
    hide JsInto, JsTagged, ReadTag, JsPerson;
    var msg, ptr := NO_PERSON, start;
    while ptr < limit
      invariant start <= ptr <= limit
      invariant JsInto(JsPerson, msg, buf[ptr..limit]) == JsInto(JsPerson, NO_PERSON, buf[start..limit])
    {
      JsHeader(JsPerson, msg, buf, ptr, limit);
      var tag;
      match ReadTag(buf[ptr..limit]) {
        case Fail => return None;
        case Ok(t, n) => tag, ptr := t, ptr + n;
      }
      if EndsGroup(tag) { return Some(msg); }
      var field;
      field, ptr := ReadPersonField(msg, tag, buf, ptr, limit);
      if field.None? { return None; }
      msg := field.value;
    }
    JsEmpty(JsPerson, msg);
    assert buf[ptr..limit] == [];
    return Some(msg);
  }

  method DeserializeBook(buf: bytes) returns (result: Option<AddressBook>)
    ensures result == JsParseBook(buf)
  {
    hide JsInto, JsTagged, ReadTag, ReadTagged, ReadLen, EncodePayload;
    var msg, ptr := NO_BOOK, 0;
    assert buf[0..|buf|] == buf;
    while ptr < |buf|
      invariant 0 <= ptr <= |buf|
      invariant JsInto(JsBook, msg, buf[ptr..|buf|]) == JsParseBook(buf)
    {
      JsHeader(JsBook, msg, buf, ptr, |buf|);
      var tag;
      match ReadTag(buf[ptr..|buf|]) {
        case Fail => return None;
        case Ok(t, n) => tag, ptr := t, ptr + n;
      }
      if EndsGroup(tag) { return Some(msg); }
      if tag / 8 == 1 {
        if tag % 8 != 2 {
          WrongType(JsBook, msg, tag, buf[ptr..|buf|]);
          return None;
        }
        JsLenBody(JsBook, msg, 1, buf, ptr, |buf|);
        match ReadLen(buf[ptr..|buf|]) {
          case Fail => return None;
          case Ok(d, n) =>
            LenRange(buf, ptr, |buf|);
            ptr := ptr + n;
            var person := ReadPerson(buf, ptr - |d|, ptr);
            if person.None? { return None; }
            msg := msg.(people := msg.people + [person.value]);
        }
      } else {
        JsBody(JsBook, msg, tag, buf, ptr, |buf|);
        match ReadTagged(tag, buf[ptr..|buf|]) {
          case Fail => return None;
          case Ok(_, n) => ptr := ptr + n;
        }
      }
    }
    JsEmpty(JsBook, msg);
    assert buf[ptr..|buf|] == [];
    return Some(msg);
  }
}
