/** The C++ AddressBook class: people owned by the book, each owning its own phones and
    timestamp, with the whole-message operations built on them. */
module CppAddressBook {
  import opened Options
  import opened Sequences
  import opened Wire
  import opened Codec
  import opened Printing
  import opened ParseCases
  import opened CppRuntime
  import opened CppPerson
  import M = Messages
  import CodecLaws

  /** A person and the messages it owns. */
  ghost function Owned(p: Person): set<object>
    reads p`phones, p`lastUpdated
  {
    var phones: set<object> := set x | x in p.phones;
    var times: set<object> := p.Times();
    {p} + phones + times
  }

  /** Everything these people own lies in `owned`. */
  ghost predicate Within(ps: seq<Person>, owned: set<object>)
    reads ps`phones, ps`lastUpdated
  {
    forall i :: 0 <= i < |ps| ==> Owned(ps[i]) <= owned
  }

  /** Books own people, phones and timestamps, never books. */
  ghost predicate NoBooks(owned: set<object>) {
    forall o <- owned :: !(o is AddressBook)
  }

  lemma OwnsNoBook(p: Person)
    ensures NoBooks(Owned(p))
  {
  }

  ghost function View(p: Person): M.Person
    reads Owned(p)
  {
    p.Value()
  }

  ghost predicate Sized(p: Person)
    reads Owned(p)
  {
    p.Cached()
  }

  ghost function PersonValues(ps: seq<Person>, owned: set<object>): (vs: seq<M.Person>)
    requires Within(ps, owned)
    reads ps, owned
    ensures |vs| == |ps|
    ensures forall i :: 0 <= i < |ps| ==> vs[i] == View(ps[i])
  {
    if ps == [] then [] else PersonValues(ps[..|ps| - 1], owned) + [View(ps[|ps| - 1])]
  }

  /** No two people are the same object or own a common message. */
  ghost predicate AllApart(ps: seq<Person>)
    reads ps`phones, ps`lastUpdated
  {
    forall i, j :: 0 <= i < j < |ps| ==> Owned(ps[i]) !! Owned(ps[j])
  }

  lemma ValuesAre(ps: seq<Person>, owned: set<object>, vs: seq<M.Person>)
    requires Within(ps, owned) && |ps| == |vs|
    requires forall i :: 0 <= i < |ps| ==> View(ps[i]) == vs[i]
    ensures PersonValues(ps, owned) == vs
  {
  }

  lemma PersonValuesConcat(ps: seq<Person>, qs: seq<Person>, owned: set<object>, more: set<object>)
    requires Within(ps, owned) && Within(qs, more)
    ensures Within(ps + qs, owned + more)
    ensures PersonValues(ps + qs, owned + more) == PersonValues(ps, owned) + PersonValues(qs, more)
  {
    assert forall i :: 0 <= i < |ps| + |qs| ==>
      PersonValues(ps + qs, owned + more)[i] == (PersonValues(ps, owned) + PersonValues(qs, more))[i];
  }

  lemma ApartConcat(ps: seq<Person>, qs: seq<Person>, owned: set<object>, more: set<object>)
    requires Within(ps, owned) && Within(qs, more) && owned !! more && AllApart(ps) && AllApart(qs)
    ensures AllApart(ps + qs)
  {
    hide Owned;
    var all := ps + qs;
    forall i, j | 0 <= i < j < |all|
      ensures Owned(all[i]) !! Owned(all[j])
    {
      if j < |ps| {
        assert all[i] == ps[i] && all[j] == ps[j];
      } else if i < |ps| {
        assert all[i] == ps[i] && all[j] == qs[j - |ps|];
        assert Owned(ps[i]) <= owned && Owned(qs[j - |ps|]) <= more;
      } else {
        assert all[i] == qs[i - |ps|] && all[j] == qs[j - |ps|];
      }
    }
  }

  lemma OthersApart(ps: seq<Person>, i: nat)
    requires AllApart(ps) && i < |ps|
    ensures forall j :: 0 <= j < |ps| && j != i ==> Owned(ps[j]) !! Owned(ps[i]) && ps[j] !in Owned(ps[i])
  {
    forall j | 0 <= j < |ps| && j != i
      ensures Owned(ps[j]) !! Owned(ps[i]) && ps[j] !in Owned(ps[i])
    {
      assert ps[j] in Owned(ps[j]);
    }
  }

  lemma NextPersonCopy(vs: seq<M.Person>, k: nat)
    requires k < |vs|
    ensures M.CopyPeople(vs[..k + 1]) == M.CopyPeople(vs[..k]) + [M.MergePerson(M.NO_PERSON, vs[k])]
  {
    Appended(vs[..k], vs[k]);
    assert vs[..k + 1] == vs[..k] + [vs[k]];
  }

  lemma NoPeople(vs: seq<M.Person>)
    ensures PersonValues([], {}) == [] && M.CopyPeople(vs[..0]) == [] && Size(M.PersonFields(vs[..0])) == 0
  {
  }

  method ParseNewPerson(buf: bytes, start: nat, limit: nat) returns (person: Person, ok: bool, ptr: nat)
    requires start <= limit <= |buf|
    ensures fresh(Owned(person))
    ensures var len := ReadLen(buf[start..limit]);
            if ok then len.Ok? && ptr == start + len.size && M.ParseInto(M.ApplyPerson, M.NO_PERSON, len.value) == Some(View(person))
            else len.Fail? || M.ParseInto(M.ApplyPerson, M.NO_PERSON, len.value) == None
  {
    hide M.ParseInto, ReadLen;
    person := new Person();
    ok, ptr := person.ParseMessage(buf, start, limit);
  }

  method CopyPerson(from: Person) returns (person: Person)
    ensures fresh(Owned(person)) && View(person) == M.MergePerson(M.NO_PERSON, old(View(from)))
  {
    hide M.MergePerson;
    person := new Person();
    person.MergeFrom(from);
  }

  method SizePerson(person: Person) returns (size: nat)
    modifies Owned(person)
    ensures View(person) == old(View(person)) && Owned(person) == old(Owned(person))
    ensures size == |M.PersonBytes(View(person))| && Sized(person)
  {
    hide M.PersonBytes;
    size := person.ByteSizeLong();
  }

  method WritePerson(person: Person, out: OutputStream)
    requires Sized(person) && |M.PersonBytes(View(person))| < TWO_31
    modifies out
    ensures View(person) == old(View(person))
    ensures out.data == old(out.data) + EncodeRecord(Record(1, Len(M.PersonBytes(View(person)))))
  {
    hide M.PersonBytes, EncodeVarint, CachedPrefix;
    out.WriteRaw(EncodeVarint(10));
    out.WriteRaw(CachedPrefix(person.cachedSize));
    person.InternalSerialize(out);
    EmbeddedRecord(old(out.data), 1, person.cachedSize, M.PersonBytes(View(person)));
  }

  /** New people, each a merge of the given one into an empty person. */
  method CopyPersonElements(from: seq<Person>, ghost theirs: set<object>) returns (copies: seq<Person>, ghost owned: set<object>)
    requires Within(from, theirs)
    ensures fresh(owned) && NoBooks(owned) && Within(copies, owned) && AllApart(copies)
    ensures Within(from, theirs) && PersonValues(from, theirs) == old(PersonValues(from, theirs))
    ensures PersonValues(copies, owned) == M.CopyPeople(old(PersonValues(from, theirs)))
  {
    hide PersonValues, View, M.CopyPeople, M.MergePerson;
    copies, owned := [], {};
    ghost var given := PersonValues(from, theirs);
    NoPeople(given);
    for k := 0 to |from|
      invariant fresh(owned) && NoBooks(owned) && Within(copies, owned) && AllApart(copies) && Within(from, theirs)
      invariant PersonValues(from, theirs) == given && PersonValues(copies, owned) == M.CopyPeople(given[..k])
    {
      var person := CopyPerson(from[k]);
      OwnsNoBook(person);
      PersonValuesConcat(copies, [person], owned, Owned(person));
      OnePerson(person);
      copies, owned := copies + [person], owned + Owned(person);
      NextPersonCopy(given, k);
    }
    assert given[..|from|] == given;
  }

  lemma OnePerson(p: Person)
    ensures Within([p], Owned(p)) && PersonValues([p], Owned(p)) == [View(p)]
  {
  }

  class AddressBook {
    var people: seq<Person>
    var unknown: seq<Record>
    var cachedSize: i32
    /** The people and all they own. */
    ghost var Repr: set<object>

    /** Ownership: the people of a book share nothing. */
    ghost predicate Valid()
      reads this, people`phones, people`lastUpdated
    {
      NoBooks(Repr) && Within(people, Repr) && AllApart(people)
    }

    ghost function Value(): M.AddressBook
      requires Valid()
      reads this, people, Repr
    {
      M.AddressBook(PersonValues(people, Repr), unknown)
    }

    ghost predicate NestedCached()
      requires Valid()
      reads this, people, Repr
    {
      forall i :: 0 <= i < |people| ==> Sized(people[i])
    }

    ghost predicate Cached()
      requires Valid()
      reads this, people, Repr
    {
      cachedSize == ToCachedSize(|M.BookBytes(Value())|) && NestedCached()
    }

    constructor ()
      ensures Valid() && Value() == M.NO_BOOK && fresh(Repr)
    {
      people, unknown, cachedSize, Repr := [], [], 0, {};
    }

    method Clear()
      modifies this
      ensures Valid() && Value() == M.NO_BOOK && Repr == {}
    {
      people, unknown, Repr := [], [], {};
    }

    /** Takes over a person nobody here owns yet. */
    method Adopt(person: Person)
      requires Valid() && Owned(person) !! Repr
      modifies this`people, this`Repr
      ensures Valid() && Repr == old(Repr) + Owned(person) && View(person) == old(View(person))
      ensures Value() == old(Value()).(people := old(Value()).people + [View(person)])
    {
      hide PersonValues, View;
      PersonValuesConcat(people, [person], Repr, Owned(person));
      OnePerson(person);
      OwnsNoBook(person);
      people, Repr := people + [person], Repr + Owned(person);
    }

    /** Adds one person and parses it: the body of the inner loop. */
    method ParseElement(buf: bytes, start: nat, limit: nat) returns (ok: bool, ptr: nat)
      requires start <= limit <= |buf| && Valid()
      modifies this`people, this`Repr
      ensures Valid() && fresh(Repr - old(Repr))
      ensures ok ==> start <= ptr <= limit
      ensures ParseTagged(M.ApplyBook, old(Value()), 10, buf[start..limit]) ==
              if ok then M.ParseInto(M.ApplyBook, Value(), buf[ptr..limit]) else None
    {
      hide M.ParseInto, ParseTagged, M.ApplyBook, ReadLen, PersonValues, View, Within, AllApart;
      ghost var before := Value();
      PersonCase(before, buf, start, limit);
      var person;
      person, ok, ptr := ParseNewPerson(buf, start, limit);
      assert Valid() && Value() == before;
      Adopt(person);
    }

    /** The inner loop on the repeated people field, as ParsePhones on phones. */
    method ParsePeople(buf: bytes, start: nat, limit: nat) returns (ok: bool, ptr: nat)
      requires 1 <= start <= limit <= |buf| && Valid()
      modifies this`people, this`Repr
      ensures Valid() && fresh(Repr - old(Repr))
      ensures ok ==> start <= ptr <= limit
      ensures ParseTagged(M.ApplyBook, old(Value()), 10, buf[start..limit]) ==
              if ok then M.ParseInto(M.ApplyBook, Value(), buf[ptr..limit]) else None
    {
      hide M.ParseInto, ParseTagged, M.ApplyBook, ReadTag, PersonValues, View, Within, AllApart;
      ghost var expected := ParseTagged(M.ApplyBook, Value(), 10, buf[start..limit]);
      var again := true;
      ptr := start - 1;
      while again
        invariant start - 1 <= ptr <= limit && Valid() && fresh(Repr - old(Repr))
        invariant if again then ptr < limit && expected == ParseTagged(M.ApplyBook, Value(), 10, buf[ptr + 1..limit])
                  else start <= ptr && expected == M.ParseInto(M.ApplyBook, Value(), buf[ptr..limit])
        decreases again, limit - ptr
      {
        ptr := ptr + 1;
        var parsed;
        parsed, ptr := ParseElement(buf, ptr, limit);
        if !parsed { return false, ptr; }
        again := false;
        if ptr < limit && buf[ptr] == 10 {
          ParseHeader(M.ApplyBook, Value(), buf, ptr, limit);
          ExpectTag(buf[ptr..limit]);
          again := true;
        }
      }
      return true, ptr;
    }

    method InternalParse(buf: bytes, start: nat, limit: nat) returns (outcome: Outcome, ptr: nat)
      requires start <= limit <= |buf| && Valid()
      modifies this
      ensures Valid() && fresh(Repr - old(Repr))
      ensures Agrees(outcome, M.ParseInto(M.ApplyBook, old(Value()), buf[start..limit]), Value())
      ensures outcome.Done? ==> ptr == limit
    {
      hide M.ParseInto, ParseTagged, M.ApplyBook, ReadTag, ReadTagged, PersonValues, View, Within, AllApart;
      ghost var expected := M.ParseInto(M.ApplyBook, Value(), buf[start..limit]);
      ptr := start;
      while ptr < limit
        invariant start <= ptr <= limit && Valid() && fresh(Repr - old(Repr))
        invariant M.ParseInto(M.ApplyBook, Value(), buf[ptr..limit]) == expected
      {
        ParseHeader(M.ApplyBook, Value(), buf, ptr, limit);
        var tag;
        match ReadTag(buf[ptr..limit]) {
          case Fail => return Failed, ptr;
          case Ok(t, n) => tag, ptr := t, ptr + n;
        }
        if tag / 8 == 1 && tag % 256 == 10 {
          var ok;
          ok, ptr := ParsePeople(buf, ptr, limit);
          if !ok { return Failed, ptr; }
        } else if tag % 8 == 4 || tag == 0 {
          EndTagFails(M.ApplyBook, Value(), tag, buf[ptr..limit]);
          return Stopped(tag), ptr;
        } else {
          UnknownBookCase(Value(), tag, buf, ptr, limit);
          match ReadTagged(tag, buf[ptr..limit]) {
            case Fail => return Failed, ptr;
            case Ok(r, n) => unknown, ptr := unknown + [r], ptr + n;
          }
        }
      }
      EmptyParse(M.ApplyBook, Value());
      assert buf[ptr..limit] == [];
      return Done, ptr;
    }

    /** The public entry point: clear, then parse the whole input. */
    method ParseFromString(buf: bytes) returns (ok: bool)
      modifies this
      ensures Valid() && fresh(Repr)
      ensures ok == CodecLaws.ParseBook(buf).Some? && (ok ==> Value() == CodecLaws.ParseBook(buf).value)
    {
      hide M.ParseInto, PersonValues;
      Clear();
      var outcome, _ := InternalParse(buf, 0, |buf|);
      assert buf[0..|buf|] == buf;
      return outcome.Done?;
    }

    method SizeElement(i: nat) returns (size: nat)
      requires Valid() && i < |people|
      modifies Repr
      ensures Valid() && PersonValues(people, Repr) == old(PersonValues(people, Repr))
      ensures size == |M.PersonBytes(PersonValues(people, Repr)[i])| && Sized(people[i])
      ensures forall j :: 0 <= j < |people| && old(Sized(people[j])) ==> Sized(people[j])
    {
      hide M.PersonBytes, PersonValues, View, Sized, Owned;
      ghost var values := PersonValues(people, Repr);
      OthersApart(people, i);
      size := SizePerson(people[i]);
      assert forall j :: 0 <= j < |people| ==> Owned(people[j]) == old(Owned(people[j]));
      ValuesAre(people, Repr, values);
    }

    method PeopleByteSize() returns (total: nat)
      requires Valid()
      modifies Repr
      ensures Valid() && PersonValues(people, Repr) == old(PersonValues(people, Repr))
      ensures total == Size(M.PersonFields(PersonValues(people, Repr))) && NestedCached()
    {
      hide Size, M.PersonBytes, M.PersonFields, PersonValues, VarintSize, View, Sized, Within, AllApart;
      ghost var values := PersonValues(people, Repr);
      NoPeople(values);
      total := |people|;
      for i := 0 to |people|
        invariant Valid() && PersonValues(people, Repr) == values
        invariant forall j :: 0 <= j < i ==> Sized(people[j])
        invariant total == |people| - i + Size(M.PersonFields(values[..i]))
      {
        var size := SizeElement(i);
        total := total + (size + VarintSize(size));
        NextPerson(values, i);
      }
      assert values[..|people|] == values;
    }

    method ByteSizeLong() returns (total: nat)
      requires Valid()
      modifies this`cachedSize, Repr
      ensures Valid() && Value() == old(Value())
      ensures total == |M.BookBytes(Value())| && Cached()
    {
      hide M.BookBytes, EncodeRecords, PersonValues, M.PersonFields, View, Sized;
      BookSize(Value());
      total := PeopleByteSize();
      total := total + |EncodeRecords(unknown)|;
      cachedSize := ToCachedSize(total);
    }

    method SerializeElement(i: nat, out: OutputStream)
      requires Valid() && out !in Repr && i < |people| && NestedCached()
      requires |M.PersonBytes(PersonValues(people, Repr)[i])| < TWO_31
      modifies out
      ensures Valid() && NestedCached() && PersonValues(people, Repr) == old(PersonValues(people, Repr))
      ensures out.data == old(out.data) + EncodeRecord(Record(1, Len(M.PersonBytes(PersonValues(people, Repr)[i]))))
    {
      hide M.PersonBytes, EncodeRecord, PersonValues, View, Sized;
      WritePerson(people[i], out);
    }

    method InternalSerialize(out: OutputStream)
      requires Valid() && out !in Repr && NestedCached() && |M.BookBytes(Value())| < TWO_31
      modifies out
      ensures Valid() && Value() == old(Value())
      ensures out.data == old(out.data) + M.BookBytes(Value())
    {
      hide M.PersonBytes, EncodeRecord, EncodeRecords, PersonValues, View, Sized, Within, AllApart, AddressBook.NestedCached;
      ghost var begin, values := out.data, PersonValues(people, Repr);
      ghost var written: seq<Record> := [];
      FieldSizes(M.PersonFields(values), unknown);
      NothingWritten(begin);
      for i := 0 to |people|
        invariant Valid() && NestedCached() && PersonValues(people, Repr) == values
        invariant written == M.PersonFields(values[..i]) && out.data == begin + EncodeRecords(written)
      {
        PersonWithin(values, i);
        SerializeElement(i, out);
        written := Wrote(begin, written, [Record(1, Len(M.PersonBytes(values[i])))], out.data);
        NextPerson(values, i);
      }
      assert values[..|people|] == values;
      out.WriteUnknown(unknown);
      Printed(begin, written, unknown);
    }

    /** The public entry point: fill the size caches, refuse what an int cannot count, print. */
    method SerializeToString() returns (ok: bool, data: bytes)
      requires Valid()
      modifies this`cachedSize, Repr
      ensures Valid() && Value() == old(Value())
      ensures ok == (|M.BookBytes(Value())| < TWO_31) && (ok ==> data == M.BookBytes(Value()))
    {
      hide M.BookBytes, PersonValues, View, Sized;
      ghost var v := Value();
      var size := ByteSizeLong();
      if size >= TWO_31 { return false, []; }
      var out := new OutputStream();
      InternalSerialize(out);
      Empty(M.BookBytes(v));
      return true, out.data;
    }

    method MergeFrom(from: AddressBook)
      requires from != this && Valid() && from.Valid()
      modifies this
      ensures Valid() && fresh(Repr - old(Repr))
      ensures Value() == M.MergeBook(old(Value()), old(from.Value()))
      ensures from.Valid() && from.Value() == old(from.Value())
      ensures old(Repr) !! from.Repr ==> Repr !! from.Repr
    {
      hide PersonValues, M.CopyPeople, View, Owned, Within, AllApart;
      ghost var mine, theirs := PersonValues(people, Repr), PersonValues(from.people, from.Repr);
      var copies;
      ghost var owned;
      copies, owned := CopyPersonElements(from.people, from.Repr);
      PersonValuesConcat(people, copies, Repr, owned);
      ApartConcat(people, copies, Repr, owned);
      unknown, people, Repr := unknown + from.unknown, people + copies, Repr + owned;
    }

    /** Copying is exact up to the signs of zeros; the copy owns only new objects. */
    method CopyFrom(from: AddressBook)
      requires Valid() && from.Valid()
      modifies this
      ensures from == this ==> unchanged(this)
      ensures Valid() && from.Valid() && from.Value() == old(from.Value())
      ensures from != this ==> Value() == CodecLaws.UnsignBook(from.Value()) && fresh(Repr)
    {
      hide PersonValues, M.MergeBook, CodecLaws.UnsignBook, View;
      if from == this { return; }
      ghost var v := from.Value();
      CodecLaws.MergeIdentity(M.NO_PERSON, v);
      Clear();
      assert from.Valid() && from.Value() == v;
      MergeFrom(from);
    }
  }

  /** A copy can be changed at will: its people cleared, other people merged in. The source and
      all it owns stay as they were. */
  method ChangeCopy(source: AddressBook, copy: AddressBook, i: nat, other: AddressBook)
    requires source != copy && other != copy && source.Valid() && copy.Valid() && other.Valid()
    requires i < |source.people|
    modifies copy
    ensures source.Valid() && source.Value() == old(source.Value())
    ensures copy.Valid() && copy.Repr !! source.Repr
    ensures copy.Value() == M.MergeBook(ClearAt(CodecLaws.UnsignBook(source.Value()), i), old(other.Value()))
  {
    hide PersonValues, M.MergeBook, View, M.CopyPeople, Owned, Within, AllApart, CodecLaws.UnsignBook, ClearAt;
    ghost var v, w := source.Value(), other.Value();
    copy.CopyFrom(source);
    UnsignSize(v);
    PersonInside(copy, i);
    ClearPerson(copy, i);
    assert source.Valid() && source.Value() == v && other.Valid() && other.Value() == w;
    copy.MergeFrom(other);
  }

  function ClearAt(b: M.AddressBook, i: nat): M.AddressBook {
    if i < |b.people| then b.(people := b.people[i := M.NO_PERSON]) else b
  }

  lemma UnsignSize(b: M.AddressBook)
    ensures |CodecLaws.UnsignBook(b).people| == |b.people|
  {
  }

  method ClearPerson(book: AddressBook, i: nat)
    requires book.Valid() && i < |book.people|
    modifies book.people[i]
    ensures book.Valid() && book.Value() == ClearAt(old(book.Value()), i)
  {
    hide PersonValues, View, Owned;
    ghost var values := PersonValues(book.people, book.Repr);
    OthersApart(book.people, i);
    PersonInside(book, i);
    book.people[i].Clear();
    ClearedOwns(book.people[i], old(Owned(book.people[i])));
    assert forall j :: 0 <= j < |book.people| && j != i ==> Owned(book.people[j]) == old(Owned(book.people[j]));
    ValuesAre(book.people, book.Repr, values[i := M.NO_PERSON]);
  }

  lemma PersonInside(book: AddressBook, i: nat)
    requires book.Valid() && i < |book.people|
    ensures book.people[i] in Owned(book.people[i]) && book.people[i] in book.Repr
  {
    assert book.people[i] in Owned(book.people[i]);
  }

  lemma ClearedOwns(p: Person, before: set<object>)
    requires p.Value() == M.NO_PERSON && p in before
    ensures Owned(p) <= before && View(p) == M.NO_PERSON
  {
  }

  /** Printing one book and parsing the bytes into another, as the demo does with a person. */
  method CopyThroughBytes(source: AddressBook, target: AddressBook) returns (ok: bool)
    requires source != target && source.Valid() && M.BookOk(source.Value())
    modifies source`cachedSize, source.Repr, target
    ensures source.Valid() && target.Valid() && source.Value() == old(source.Value())
    ensures ok == (|M.BookBytes(source.Value())| < TWO_31)
    ensures ok ==> target.Value() == CodecLaws.UnsignBook(source.Value())
  {
    hide PersonValues, M.BookBytes, CodecLaws.UnsignBook, CodecLaws.ParseBook, M.BookOk, View;
    ghost var v := source.Value();
    var data;
    ok, data := source.SerializeToString();
    if ok {
      CodecLaws.RoundTrip(v);
      ok := target.ParseFromString(data);
      assert source.Valid() && source.Value() == v;
    } else {
      target.Clear();
      assert source.Valid() && source.Value() == v;
    }
  }
}
