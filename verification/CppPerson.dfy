/** The C++ Person class: scalars, phones it owns, and a timestamp allocated on first use. */
module CppPerson {
  import opened Options
  import opened Sequences
  import opened Wire
  import opened Scalars
  import opened Codec
  import opened Printing
  import opened ParseCases
  import opened CppRuntime
  import opened CppLeaves
  import M = Messages
  import CodecLaws

  ghost function PhoneValues(ps: seq<PhoneNumber>): (vs: seq<M.PhoneNumber>)
    reads ps`number, ps`kind, ps`unknown
    ensures |vs| == |ps|
    ensures forall i :: 0 <= i < |ps| ==> vs[i] == ps[i].Value()
  {
    if ps == [] then [] else PhoneValues(ps[..|ps| - 1]) + [ps[|ps| - 1].Value()]
  }

  lemma PhoneValuesAppend(ps: seq<PhoneNumber>, p: PhoneNumber)
    ensures PhoneValues(ps + [p]) == PhoneValues(ps) + [p.Value()]
  {
    Appended(ps, p);
  }

  lemma {:induction false} PhoneValuesConcat(ps: seq<PhoneNumber>, qs: seq<PhoneNumber>)
    ensures PhoneValues(ps + qs) == PhoneValues(ps) + PhoneValues(qs)
  {
    assert forall i :: 0 <= i < |ps| + |qs| ==> PhoneValues(ps + qs)[i] == (PhoneValues(ps) + PhoneValues(qs))[i];
  }

  lemma NothingCopied(vs: seq<M.PhoneNumber>)
    ensures PhoneValues([]) == [] && M.CopyPhones(vs[..0]) == []
  {
  }

  lemma NextCopy(vs: seq<M.PhoneNumber>, k: nat)
    requires k < |vs|
    ensures M.CopyPhones(vs[..k + 1]) == M.CopyPhones(vs[..k]) + [M.MergePhone(M.NO_PHONE, vs[k])]
  {
    Appended(vs[..k], vs[k]);
    assert vs[..k + 1] == vs[..k] + [vs[k]];
  }

  /** What a repeated field appends when it is merged: each element merged into a new one. */
  method CopyElements(from: seq<PhoneNumber>) returns (copies: seq<PhoneNumber>)
    ensures forall p <- copies :: fresh(p)
    ensures PhoneValues(copies) == M.CopyPhones(PhoneValues(from))
  {
    hide PhoneValues, M.CopyPhones, M.MergePhone;
    copies := [];
    ghost var given := PhoneValues(from);
    NothingCopied(given);
    for k := 0 to |from|
      invariant forall p <- copies :: fresh(p)
      invariant PhoneValues(copies) == M.CopyPhones(given[..k])
    {
      ghost var had := copies;
      var phone := new PhoneNumber();
      phone.MergeFrom(from[k]);
      copies := copies + [phone];
      PhoneValuesAppend(had, phone);
      NextCopy(given, k);
    }
    assert given[..|from|] == given;
  }

  method CopyTime(from: Timestamp?) returns (copy: Timestamp?)
    ensures (copy == null <==> from == null) && (copy != null ==> fresh(copy) && copy.Value() == from.Value())
  {
    copy := null;
    if from != null {
      copy := new Timestamp.Copy(from);
    }
  }

  class Person {
    var name: bytes
    var id: i32
    var email: bytes
    var phones: seq<PhoneNumber>
    var lastUpdated: Timestamp?
    var height: u32
    var weight: u64
    var unknown: seq<Record>
    var cachedSize: i32

    ghost function Times(): (ts: set<Timestamp>)
      reads this`lastUpdated
    {
      if lastUpdated == null then {} else {lastUpdated}
    }

    /** Every message this person owns was its own before or is newly allocated. */
    twostate predicate KeepsOwnership()
      reads this`phones, this`lastUpdated
    {
      && (forall p <- phones :: p in old(phones) || fresh(p))
      && (forall t <- Times() :: t in old(Times()) || fresh(t))
    }

    /** No message is owned by both. */
    ghost predicate Apart(other: Person)
      reads this`phones, this`lastUpdated, other`phones, other`lastUpdated
    {
      (forall p <- phones :: p !in other.phones) && Times() !! other.Times()
    }

    ghost function Value(): M.Person
      reads this`name, this`id, this`email, this`phones, this`lastUpdated, this`height, this`weight, this`unknown
      reads phones`number, phones`kind, phones`unknown
      reads Times()`seconds, Times()`nanos, Times()`unknown
    {
      M.Person(name, id, email, PhoneValues(phones),
               if lastUpdated == null then None else Some(lastUpdated.Value()),
               height, weight, unknown)
    }

    /** What ByteSizeLong leaves behind: this message's size and, below it, every nested one. */
    ghost predicate NestedCached()
      reads this, phones, Times()
    {
      (forall p <- phones :: p.Cached()) && (lastUpdated != null ==> lastUpdated.Cached())
    }

    ghost predicate Cached()
      reads this, phones, Times()
    {
      cachedSize == ToCachedSize(|M.PersonBytes(Value())|) && NestedCached()
    }

    constructor ()
      ensures Value() == M.NO_PERSON
    {
      name, id, email, phones, lastUpdated, height, weight, unknown, cachedSize := [], 0, [], [], null, 0, 0, [], 0;
    }

    /** The copy constructor copies the scalars bit for bit, signs of zeros included. */
    constructor Copy(from: Person)
      ensures Value() == from.Value() && (forall p <- phones :: fresh(p)) && fresh(Times())
    {
      hide PhoneValues;
      hide M.CopyPhones;
      ghost var v := from.Value();
      CodecLaws.CopyPhonesIsIdentity(v.phones);
      var copies := CopyElements(from.phones);
      assert PhoneValues(copies) == v.phones;
      var time := CopyTime(from.lastUpdated);
      phones, unknown, name, email, lastUpdated := copies, from.unknown, from.name, from.email, time;
      id, height, weight, cachedSize := from.id, from.height, from.weight, 0;
      new;
      assert PhoneValues(phones) == v.phones;
      assert from.Value() == v;
    }

    method Clear()
      modifies this
      ensures Value() == M.NO_PERSON
    {
      phones, name, email, lastUpdated, id, height, weight, unknown := [], [], [], null, 0, 0, 0, [];
    }

    method AddPhones() returns (phone: PhoneNumber)
      modifies this`phones
      ensures fresh(phone) && phone.Value() == M.NO_PHONE && phones == old(phones) + [phone]
    {
      phone := new PhoneNumber();
      phones := phones + [phone];
    }

    method MutableLastUpdated() returns (t: Timestamp)
      modifies this`lastUpdated
      ensures t == lastUpdated && (if old(lastUpdated) == null then fresh(t) else t == old(lastUpdated))
      ensures t.Value() == M.MutableTime(old(Value()))
    {
      if lastUpdated == null {
        lastUpdated := new Timestamp();
      }
      t := lastUpdated;
    }

    /** The inner loop on the repeated field: stays in place while the next byte is the
        field's own tag. `start` is just past a tag 34; the result is what returning to the
        outer loop for every element would give. */
    method ParsePhones(buf: bytes, start: nat, limit: nat) returns (ok: bool, ptr: nat)
      requires 1 <= start <= limit <= |buf|
      modifies this`phones
      ensures ok ==> start <= ptr <= limit
      ensures ParseTagged(M.ApplyPerson, old(Value()), 34, buf[start..limit]) ==
              if ok then M.ParseInto(M.ApplyPerson, Value(), buf[ptr..limit]) else None
      ensures KeepsOwnership()
    {
      hide M.ParseInto, ParseTagged, M.ApplyPerson, ReadTag, ReadLen, PhoneValues;
      ghost var expected := ParseTagged(M.ApplyPerson, Value(), 34, buf[start..limit]);
      var again := true;
      ptr := start - 1;
      while again
        invariant start - 1 <= ptr <= limit
        invariant if again then ptr < limit && expected == ParseTagged(M.ApplyPerson, Value(), 34, buf[ptr + 1..limit])
                  else start <= ptr && expected == M.ParseInto(M.ApplyPerson, Value(), buf[ptr..limit])
        invariant KeepsOwnership()
        decreases again, limit - ptr
      {
        ptr := ptr + 1;
        PhoneCase(Value(), buf, ptr, limit);
        ghost var before, had := Value(), phones;
        var phone := AddPhones();
        var parsed;
        parsed, ptr := phone.ParseMessage(buf, ptr, limit);
        if !parsed { return false, ptr; }
        PhoneValuesAppend(had, phone);
        assert Value() == before.(phones := before.phones + [phone.Value()]);
        again := false;
        if ptr < limit && buf[ptr] == 34 {
          ParseHeader(M.ApplyPerson, Value(), buf, ptr, limit);
          ExpectTag(buf[ptr..limit]);
          again := true;
        }
      }
      return true, ptr;
    }

    /** The cases of the switch that set one scalar field. */
    method ParseScalar(tag: u32, buf: bytes, start: nat, limit: nat) returns (ok: bool, ptr: nat)
      requires start <= limit <= |buf| && tag in {10, 16, 26, 53, 57}
      modifies this`name, this`id, this`email, this`height, this`weight
      ensures ok ==> start <= ptr <= limit
      ensures ParseTagged(M.ApplyPerson, old(Value()), tag, buf[start..limit]) ==
              if ok then M.ParseInto(M.ApplyPerson, Value(), buf[ptr..limit]) else None
    {
      hide M.ParseInto, ParseTagged, M.ApplyPerson, ReadText, ReadVarint64, ReadFixed32, ReadFixed64, PhoneValues;
      if tag / 8 == 1 {
        TextCase(Value(), 1, buf, start, limit);
        match ReadText(buf[start..limit]) {
          case Fail => return false, start;
          case Ok(text, n) => name, ptr := text, start + n;
        }
      } else if tag / 8 == 2 {
        IdCase(Value(), buf, start, limit);
        match ReadVarint64(buf[start..limit]) {
          case Fail => return false, start;
          case Ok(v, n) => id, ptr := ToI32(v), start + n;
        }
      } else if tag / 8 == 3 {
        TextCase(Value(), 3, buf, start, limit);
        match ReadText(buf[start..limit]) {
          case Fail => return false, start;
          case Ok(text, n) => email, ptr := text, start + n;
        }
      } else if tag / 8 == 6 {
        FloatCases(Value(), buf, start, limit);
        match ReadFixed32(buf[start..limit]) {
          case Fail => return false, start;
          case Ok(bits, n) => height, ptr := bits, start + n;
        }
      } else {
        FloatCases(Value(), buf, start, limit);
        match ReadFixed64(buf[start..limit]) {
          case Fail => return false, start;
          case Ok(bits, n) => weight, ptr := bits, start + n;
        }
      }
      return true, ptr;
    }

    /** A second record is parsed into the message that is already there. */
    method ParseLastUpdated(buf: bytes, start: nat, limit: nat) returns (ok: bool, ptr: nat)
      requires start <= limit <= |buf|
      modifies this`lastUpdated, Times()
      ensures ok ==> start <= ptr <= limit
      ensures ParseTagged(M.ApplyPerson, old(Value()), 42, buf[start..limit]) ==
              if ok then M.ParseInto(M.ApplyPerson, Value(), buf[ptr..limit]) else None
      ensures lastUpdated == old(lastUpdated) || (lastUpdated != null && fresh(lastUpdated))
    {
      hide M.ParseInto, ParseTagged, M.ApplyPerson, ReadLen, PhoneValues;
      TimeCase(Value(), buf, start, limit);
      ghost var before := Value();
      var t := MutableLastUpdated();
      ok, ptr := t.ParseMessage(buf, start, limit);
      assert Value() == before.(lastUpdated := Some(t.Value()));
    }

    method InternalParse(buf: bytes, start: nat, limit: nat) returns (outcome: Outcome, ptr: nat)
      requires start <= limit <= |buf|
      modifies this, Times()
      ensures Agrees(outcome, M.ParseInto(M.ApplyPerson, old(Value()), buf[start..limit]), Value())
      ensures start <= ptr <= limit && (outcome.Done? ==> ptr == limit)
      ensures KeepsOwnership()
    {
      hide M.ParseInto, ParseTagged, M.ApplyPerson, ReadTag, ReadTagged, EncodePayload, PhoneValues;
      ghost var expected := M.ParseInto(M.ApplyPerson, Value(), buf[start..limit]);
      ptr := start;
      while ptr < limit
        invariant start <= ptr <= limit
        invariant M.ParseInto(M.ApplyPerson, Value(), buf[ptr..limit]) == expected
        invariant lastUpdated == old(lastUpdated) || (lastUpdated != null && fresh(lastUpdated))
        invariant KeepsOwnership()
      {
        ParseHeader(M.ApplyPerson, Value(), buf, ptr, limit);
        var tag;
        match ReadTag(buf[ptr..limit]) {
          case Fail => return Failed, ptr;
          case Ok(t, n) => tag, ptr := t, ptr + n;
        }
        if (tag / 8 == 1 && tag % 256 == 10) || (tag / 8 == 2 && tag % 256 == 16) || (tag / 8 == 3 && tag % 256 == 26)
           || (tag / 8 == 6 && tag % 256 == 53) || (tag / 8 == 7 && tag % 256 == 57) {
          var ok;
          ok, ptr := ParseScalar(tag, buf, ptr, limit);
          if !ok { return Failed, limit; }
        } else if tag / 8 == 4 && tag % 256 == 34 {
          var ok;
          ok, ptr := ParsePhones(buf, ptr, limit);
          if !ok { return Failed, limit; }
        } else if tag / 8 == 5 && tag % 256 == 42 {
          var ok;
          ok, ptr := ParseLastUpdated(buf, ptr, limit);
          if !ok { return Failed, limit; }
        } else if tag % 8 == 4 || tag == 0 {
          EndTagFails(M.ApplyPerson, Value(), tag, buf[ptr..limit]);
          return Stopped(tag), ptr;
        } else {
          UnknownCase(Value(), tag, buf, ptr, limit);
          match ReadTagged(tag, buf[ptr..limit]) {
            case Fail => return Failed, ptr;
            case Ok(r, n) => unknown, ptr := unknown + [r], ptr + n;
          }
        }
      }
      EmptyParse(M.ApplyPerson, Value());
      assert buf[ptr..limit] == [];
      return Done, ptr;
    }

    method ParseMessage(buf: bytes, start: nat, limit: nat) returns (ok: bool, ptr: nat)
      requires start <= limit <= |buf|
      modifies this, Times()
      ensures var len := ReadLen(buf[start..limit]);
              if ok then len.Ok? && ptr == start + len.size && M.ParseInto(M.ApplyPerson, old(Value()), len.value) == Some(Value())
              else len.Fail? || M.ParseInto(M.ApplyPerson, old(Value()), len.value) == None
      ensures KeepsOwnership()
    {
      hide ReadLen, M.ParseInto;
      match ReadLen(buf[start..limit])
      case Fail => return false, start;
      case Ok(d, n) =>
        LenRange(buf, start, limit);
        var outcome, p := InternalParse(buf, start + n - |d|, start + n);
        return outcome.Done?, p;
    }

    method MergeText(from: Person)
      modifies this`name, this`email
      ensures name == (if |from.name| > 0 then from.name else old(name))
      ensures email == (if |from.email| > 0 then from.email else old(email))
    {
      if |from.name| > 0 { name := from.name; }
      if |from.email| > 0 { email := from.email; }
    }

    method MergeLastUpdated(from: Person)
      requires from != this && Times() !! from.Times()
      modifies this`lastUpdated, Times()
      ensures from.lastUpdated == null ==>
        lastUpdated == old(lastUpdated) && (lastUpdated != null ==> lastUpdated.Value() == old(lastUpdated.Value()))
      ensures from.lastUpdated != null ==>
        lastUpdated != null && (lastUpdated == old(lastUpdated) || (old(lastUpdated) == null && fresh(lastUpdated)))
        && lastUpdated.Value() ==
           M.MergeTime(if old(lastUpdated) == null then M.NO_TIME else old(lastUpdated.Value()), from.lastUpdated.Value())
    {
      if from.lastUpdated != null {
        var t := MutableLastUpdated();
        t.MergeFrom(from.lastUpdated);
      }
    }

    method MergeNumbers(from: Person)
      modifies this`id, this`height, this`weight
      ensures id == (if from.id != 0 then from.id else old(id))
      ensures height == (if Present32(from.height) then from.height else old(height))
      ensures weight == (if Present64(from.weight) then from.weight else old(weight))
    {
      if from.id != 0 { id := from.id; }
      if Present32(from.height) { height := from.height; }
      if Present64(from.weight) { weight := from.weight; }
    }

    method MergeFrom(from: Person)
      requires from != this && Apart(from)
      modifies this, Times()
      ensures Value() == M.MergePerson(old(Value()), old(from.Value()))
      ensures KeepsOwnership() && Apart(from)
    {
      hide PhoneValues, M.CopyPhones, M.MergeTime, Present32, Present64;
      unknown := unknown + from.unknown;
      MergePhones(from);
      ghost var merged := PhoneValues(phones);
      MergeText(from);
      MergeLastUpdated(from);
      MergeNumbers(from);
      assert PhoneValues(phones) == merged;
    }

    method MergePhones(from: Person)
      requires from != this
      modifies this`phones
      ensures PhoneValues(phones) == old(PhoneValues(phones)) + M.CopyPhones(old(PhoneValues(from.phones)))
      ensures forall p <- phones :: p in old(phones) || fresh(p)
    {
      hide PhoneValues, M.CopyPhones;
      var copies := CopyElements(from.phones);
      PhoneValuesConcat(phones, copies);
      phones := phones + copies;
    }

    /** Copying is exact up to the signs of zeros, and shares nothing with the source. */
    method CopyFrom(from: Person)
      requires from == this || Apart(from)
      modifies this
      ensures from == this ==> unchanged(this)
      ensures from != this ==> Value() == CodecLaws.DropSign(from.Value()) && (forall p <- phones :: fresh(p)) && fresh(Times())
      ensures from.Value() == old(from.Value())
    {
      hide PhoneValues, M.MergePerson, CodecLaws.DropSign;
      if from == this { return; }
      ghost var v := from.Value();
      CodecLaws.CopyPersonDropsSign(v);
      Clear();
      assert from.Value() == v;
      MergeFrom(from);
    }

    method PhonesByteSize() returns (total: nat)
      modifies phones`cachedSize
      ensures total == Size(M.PhoneFields(PhoneValues(phones))) && forall p <- phones :: p.Cached()
    {
      hide Size, M.PhoneBytes, M.PhoneFields, PhoneValues, VarintSize;
      ghost var values := PhoneValues(phones);
      NoPhonesSize(values);
      total := |phones|;
      for i := 0 to |phones|
        invariant PhoneValues(phones) == values
        invariant forall j :: 0 <= j < i ==> phones[j].Cached()
        invariant total == |phones| - i + Size(M.PhoneFields(values[..i]))
      {
        var size := phones[i].ByteSizeLong();
        total := total + (size + VarintSize(size));
        NextPhone(values, i);
      }
      assert values[..|phones|] == values;
    }

    method ScalarByteSize() returns (total: nat)
      ensures total == Size(M.TextField(1, name)) + Size(M.IntField(2, id)) + Size(M.TextField(3, email))
                       + Size(M.FloatField(6, height)) + Size(M.DoubleField(7, weight))
    {
      hide Size, VarintSize;
      ScalarSizes(id, height, weight);
      TextSize(1, name);
      TextSize(3, email);
      total := 0;
      if |name| > 0 {
        total := total + 1 + (|name| + VarintSize(|name|));
      }
      if |email| > 0 {
        total := total + 1 + (|email| + VarintSize(|email|));
      }
      if id != 0 {
        total := total + 1 + VarintSize(FromSigned(id));
      }
      if Present32(height) {
        total := total + 1 + 4;
      }
      if Present64(weight) {
        total := total + 1 + 8;
      }
    }

    method ByteSizeLong() returns (total: nat)
      modifies this`cachedSize, phones`cachedSize, Times()`cachedSize
      ensures Value() == old(Value())
      ensures total == |M.PersonBytes(Value())| && Cached()
    {
      hide M.PersonBytes, M.PhoneBytes, M.TimeBytes, EncodeRecord, EncodeRecords, PhoneValues, VarintSize;
      hide M.PhoneFields, M.TextField, M.IntField, M.FloatField, M.DoubleField;
      PersonSize(Value());
      TimeFieldSize(Value().lastUpdated);
      total := PhonesByteSize();
      if lastUpdated != null {
        var size := lastUpdated.ByteSizeLong();
        total := total + 1 + (size + VarintSize(size));
      }
      var scalars := ScalarByteSize();
      total := total + scalars + |EncodeRecords(unknown)|;
      cachedSize := ToCachedSize(total);
    }

    method SerializeFront(out: OutputStream)
      modifies out
      ensures out.data == old(out.data) + EncodeRecords([] + M.TextField(1, name) + M.IntField(2, id) + M.TextField(3, email))
    {
      hide EncodeRecord, EncodeRecords;
      ghost var begin := out.data;
      ghost var written: seq<Record> := [];
      NothingWritten(begin);
      if |name| > 0 {
        out.WriteRecord(Record(1, Len(name)));
      }
      written := Wrote(begin, written, M.TextField(1, name), out.data);
      if id != 0 {
        out.WriteRecord(Record(2, Varint(FromSigned(id))));
      }
      written := Wrote(begin, written, M.IntField(2, id), out.data);
      if |email| > 0 {
        out.WriteRecord(Record(3, Len(email)));
      }
      written := Wrote(begin, written, M.TextField(3, email), out.data);
    }

    method SerializePhones(out: OutputStream)
      requires NestedCached() && |M.PersonBytes(Value())| < TWO_31
      modifies out
      ensures out.data == old(out.data) + EncodeRecords(M.PhoneFields(PhoneValues(phones)))
    {
      hide M.PersonBytes, M.PhoneBytes, EncodeRecord, EncodeRecords, EncodeVarint, CachedPrefix;
      ghost var begin, values := out.data, PhoneValues(phones);
      ghost var written: seq<Record> := [];
      PersonFieldsFit(Value());
      NothingWritten(begin);
      for i := 0 to |phones|
        invariant written == M.PhoneFields(values[..i]) && out.data == begin + EncodeRecords(written)
      {
        ghost var before, d := out.data, M.PhoneBytes(values[i]);
        PhoneWithin(values, i);
        assert phones[i] in phones && phones[i].Cached();
        out.WriteRaw(EncodeVarint(34));
        out.WriteRaw(CachedPrefix(phones[i].cachedSize));
        phones[i].InternalSerialize(out);
        EmbeddedRecord(before, 4, phones[i].cachedSize, d);
        written := Wrote(begin, written, [Record(4, Len(d))], out.data);
        NextPhone(values, i);
      }
      assert values[..|phones|] == values;
    }

    method SerializeLastUpdated(out: OutputStream)
      requires NestedCached() && (lastUpdated != null ==> |M.TimeBytes(lastUpdated.Value())| < TWO_31)
      modifies out
      ensures out.data == old(out.data) + EncodeRecords(M.TimeField(if lastUpdated == null then None else Some(lastUpdated.Value())))
    {
      hide M.TimeBytes, EncodeRecord, EncodeVarint, CachedPrefix;
      if lastUpdated != null {
        ghost var d := M.TimeBytes(lastUpdated.Value());
        out.WriteRaw(EncodeVarint(42));
        out.WriteRaw(CachedPrefix(lastUpdated.cachedSize));
        lastUpdated.InternalSerialize(out);
        EmbeddedRecord(old(out.data), 5, lastUpdated.cachedSize, d);
        OneRecord(Record(5, Len(d)));
      } else {
        Empty(out.data);
      }
    }

    method SerializeFloats(out: OutputStream)
      modifies out
      ensures out.data == old(out.data) + EncodeRecords([] + M.FloatField(6, height) + M.DoubleField(7, weight))
    {
      hide EncodeRecord, EncodeRecords;
      ghost var begin := out.data;
      ghost var written: seq<Record> := [];
      NothingWritten(begin);
      if Present32(height) {
        out.WriteRecord(Record(6, Fixed32(height)));
      }
      written := Wrote(begin, written, M.FloatField(6, height), out.data);
      if Present64(weight) {
        out.WriteRecord(Record(7, Fixed64(weight)));
      }
      written := Wrote(begin, written, M.DoubleField(7, weight), out.data);
    }

    /** Writes exactly the printed person, provided the size cache is up to date. */
    method InternalSerialize(out: OutputStream)
      requires NestedCached() && |M.PersonBytes(Value())| < TWO_31
      modifies out
      ensures out.data == old(out.data) + M.PersonBytes(Value())
    {
      hide M.PersonBytes, M.TimeBytes, M.PhoneFields;
      hide EncodeRecord, EncodeRecords, M.TextField, M.IntField, M.FloatField, M.DoubleField, M.TimeField, PhoneValues;
      ghost var v, begin := Value(), out.data;
      PersonFieldsFit(v);
      SerializeFront(out);
      SerializePhones(out);
      SerializeLastUpdated(out);
      SerializeFloats(out);
      out.WriteUnknown(unknown);
      FieldOrder(v, begin);
    }

    /** The public entry point: clear, then parse the whole input. */
    method ParseFromString(buf: bytes) returns (ok: bool)
      modifies this
      ensures var parsed := M.ParseInto(M.ApplyPerson, M.NO_PERSON, buf);
              if ok then parsed == Some(Value()) else parsed == None
      ensures (forall p <- phones :: fresh(p)) && fresh(Times())
    {
      hide M.ParseInto, M.ApplyPerson, PhoneValues;
      Clear();
      NothingOwned();
      assert buf[0..|buf|] == buf;
      var outcome, ptr := InternalParse(buf, 0, |buf|);
      return outcome.Done?;
    }

    lemma NothingOwned()
      requires Value() == M.NO_PERSON
      ensures phones == [] && Times() == {}
    {
    }

    /** The public entry point: fill the size caches, refuse what an int cannot count, print. */
    method SerializeToString() returns (ok: bool, data: bytes)
      modifies this`cachedSize, phones`cachedSize, Times()`cachedSize
      ensures Value() == old(Value()) && phones == old(phones) && lastUpdated == old(lastUpdated)
      ensures ok == (|M.PersonBytes(Value())| < TWO_31) && (ok ==> data == M.PersonBytes(Value()))
    {
      hide M.PersonBytes, PhoneValues;
      ghost var v := Value();
      var size := ByteSizeLong();
      if size >= TWO_31 { return false, []; }
      var out := new OutputStream();
      InternalSerialize(out);
      Empty(M.PersonBytes(v));
      return true, out.data;
    }
  }

  /** Printing one person and parsing the bytes into another makes them equal up to the signs
      of zeros, and they share nothing. */
  method PersonThroughBytes(source: Person, target: Person) returns (ok: bool)
    requires source != target && M.PersonOk(source.Value())
    modifies source`cachedSize, source.phones`cachedSize, source.Times()`cachedSize, target
    ensures source.Value() == old(source.Value())
    ensures ok == (|M.PersonBytes(source.Value())| < TWO_31)
    ensures ok ==> target.Value() == CodecLaws.DropSign(source.Value())
    ensures ok ==> (forall p <- target.phones :: fresh(p)) && fresh(target.Times())
  {
    hide M.PersonBytes, M.PersonOk, M.ParseInto, CodecLaws.DropSign, M.MergePerson, PhoneValues;
    ghost var v := source.Value();
    var data;
    ok, data := source.SerializeToString();
    if ok {
      PersonMerges(M.NO_PERSON, v);
      CodecLaws.CopyPersonDropsSign(v);
      ok := target.ParseFromString(data);
      assert source.Value() == v;
    }
  }
}
