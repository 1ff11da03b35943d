/** What each case of the Person and AddressBook parse loops has to do, given the tag. */
module ParseCases {
  import opened Options
  import opened Sequences
  import opened Wire
  import opened Scalars
  import opened Messages
  import opened Codec

  /** A length-delimited payload read at `start`, as a range of the whole buffer. */
  lemma LenRange(buf: bytes, start: nat, limit: nat)
    requires start <= limit <= |buf| && ReadLen(buf[start..limit]).Ok?
    ensures var len := ReadLen(buf[start..limit]);
            start + len.size <= limit && buf[start + len.size - |len.value|..start + len.size] == len.value
  {
    hide ReadLen;
    var len := ReadLen(buf[start..limit]);
    SliceOfSlice(buf, start, limit, len.size - |len.value|, len.size);
  }

  lemma ExpectTag(b: bytes)
    requires b != [] && b[0] < 128
    ensures ReadTag(b) == Ok(b[0], 1)
  {
  }

  lemma TextCase(m: Person, number: FieldNumber, buf: bytes, ptr: nat, limit: nat)
    requires (number == 1 || number == 3) && ptr <= limit <= |buf|
    ensures ParseTagged(ApplyPerson, m, 8 * number + 2, buf[ptr..limit]) ==
            match ReadText(buf[ptr..limit])
            case Fail => None
            case Ok(text, n) =>
              ParseInto(ApplyPerson, if number == 1 then m.(name := text) else m.(email := text), buf[ptr + n..limit])
  {
    hide ParseInto, ParseTagged, ReadLen, ValidUtf8;
    LenBody(ApplyPerson, m, number, buf, ptr, limit);
  }

  lemma IdCase(m: Person, buf: bytes, ptr: nat, limit: nat)
    requires ptr <= limit <= |buf|
    ensures ParseTagged(ApplyPerson, m, 16, buf[ptr..limit]) ==
            match ReadVarint64(buf[ptr..limit])
            case Fail => None
            case Ok(v, n) => ParseInto(ApplyPerson, m.(id := ToI32(v)), buf[ptr + n..limit])
  {
    hide ParseInto, ParseTagged, ReadVarint64;
    VarintBody(ApplyPerson, m, 2, buf, ptr, limit);
  }

  lemma PhoneCase(m: Person, buf: bytes, ptr: nat, limit: nat)
    requires ptr <= limit <= |buf|
    ensures ParseTagged(ApplyPerson, m, 34, buf[ptr..limit]) ==
            match ReadLen(buf[ptr..limit])
            case Fail => None
            case Ok(d, n) =>
              match ParseInto(ApplyPhone, NO_PHONE, d)
              case None => None
              case Some(phone) => ParseInto(ApplyPerson, m.(phones := m.phones + [phone]), buf[ptr + n..limit])
  {
    hide ParseInto, ParseTagged, ReadLen;
    LenBody(ApplyPerson, m, 4, buf, ptr, limit);
  }

  lemma TimeCase(m: Person, buf: bytes, ptr: nat, limit: nat)
    requires ptr <= limit <= |buf|
    ensures ParseTagged(ApplyPerson, m, 42, buf[ptr..limit]) ==
            match ReadLen(buf[ptr..limit])
            case Fail => None
            case Ok(d, n) =>
              match ParseInto(ApplyTime, MutableTime(m), d)
              case None => None
              case Some(t) => ParseInto(ApplyPerson, m.(lastUpdated := Some(t)), buf[ptr + n..limit])
  {
    hide ParseInto, ParseTagged, ReadLen;
    LenBody(ApplyPerson, m, 5, buf, ptr, limit);
  }

  lemma FloatCases(m: Person, buf: bytes, ptr: nat, limit: nat)
    requires ptr <= limit <= |buf|
    ensures ParseTagged(ApplyPerson, m, 53, buf[ptr..limit]) ==
            match ReadFixed32(buf[ptr..limit])
            case Fail => None
            case Ok(bits, n) => ParseInto(ApplyPerson, m.(height := bits), buf[ptr + n..limit])
    ensures ParseTagged(ApplyPerson, m, 57, buf[ptr..limit]) ==
            match ReadFixed64(buf[ptr..limit])
            case Fail => None
            case Ok(bits, n) => ParseInto(ApplyPerson, m.(weight := bits), buf[ptr + n..limit])
  {
    hide ParseInto, ParseTagged, ReadFixed32, ReadFixed64;
    FixedBody(ApplyPerson, m, 6, buf, ptr, limit);
    FixedBody(ApplyPerson, m, 7, buf, ptr, limit);
  }

  lemma UnknownCase(m: Person, tag: u32, buf: bytes, ptr: nat, limit: nat)
    requires tag !in {10, 16, 26, 34, 42, 53, 57} && ptr <= limit <= |buf|
    ensures ParseTagged(ApplyPerson, m, tag, buf[ptr..limit]) ==
            match ReadTagged(tag, buf[ptr..limit])
            case Fail => None
            case Ok(r, n) => ParseInto(ApplyPerson, m.(unknown := m.unknown + [r]), buf[ptr + n..limit])
  {
    hide ParseInto, ParseTagged, ReadTagged;
    ParseBody(ApplyPerson, m, tag, buf, ptr, limit);
  }

  lemma PersonCase(m: AddressBook, buf: bytes, ptr: nat, limit: nat)
    requires ptr <= limit <= |buf|
    ensures ParseTagged(ApplyBook, m, 10, buf[ptr..limit]) ==
            match ReadLen(buf[ptr..limit])
            case Fail => None
            case Ok(d, n) =>
              match ParseInto(ApplyPerson, NO_PERSON, d)
              case None => None
              case Some(person) => ParseInto(ApplyBook, m.(people := m.people + [person]), buf[ptr + n..limit])
  {
    hide ParseInto, ParseTagged, ReadLen;
    LenBody(ApplyBook, m, 1, buf, ptr, limit);
  }

  lemma UnknownBookCase(m: AddressBook, tag: u32, buf: bytes, ptr: nat, limit: nat)
    requires tag != 10 && ptr <= limit <= |buf|
    ensures ParseTagged(ApplyBook, m, tag, buf[ptr..limit]) ==
            match ReadTagged(tag, buf[ptr..limit])
            case Fail => None
            case Ok(r, n) => ParseInto(ApplyBook, m.(unknown := m.unknown + [r]), buf[ptr + n..limit])
  {
    hide ParseInto, ParseTagged, ReadTagged;
    ParseBody(ApplyBook, m, tag, buf, ptr, limit);
  }
}
