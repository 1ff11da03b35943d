/** What the AddressBook codec guarantees: printing and parsing undo each other, joining
    two printed messages merges them, and what was parsed prints in a normal form. */
module Codec {
  import opened Options
  import opened Sequences
  import opened Wire
  import opened Scalars
  import opened Messages

  function Size(rs: seq<Record>): nat {
    |EncodeRecords(rs)|
  }

  // ----- Folding records over a message -----

  lemma {:induction false} FoldThen<M>(apply: (M, Record) -> Option<M>, m: M, mid: M, a: seq<Record>, b: seq<Record>)
    requires Fold(apply, m, a) == Some(mid)
    ensures Fold(apply, m, a + b) == Fold(apply, mid, b)
    decreases |a|
  {
    if a == [] {
      assert a + b == b;
    } else {
      FoldThen(apply, apply(m, a[0]).value, mid, a[1..], b);
      TailOfConcat(a, b);
    }
  }

  lemma FoldOne<M>(apply: (M, Record) -> Option<M>, m: M, r: Record)
    ensures Fold(apply, m, [r]) == apply(m, r)
  {
  }

  lemma {:induction false} FoldFails<M>(apply: (M, Record) -> Option<M>, m: M, a: seq<Record>, b: seq<Record>)
    requires Fold(apply, m, a) == None
    ensures Fold(apply, m, a + b) == None
    decreases |a|
  {
    TailOfConcat(a, b);
    if apply(m, a[0]).Some? {
      FoldFails(apply, apply(m, a[0]).value, a[1..], b);
    }
  }

  /** Parsing is incremental: a parsed prefix can be forgotten once its message is kept. */
  lemma ParseConcat<M>(apply: (M, Record) -> Option<M>, m: M, a: bytes, b: bytes)
    requires ParseInto(apply, m, a).Some?
    ensures ParseInto(apply, m, a + b) == ParseInto(apply, ParseInto(apply, m, a).value, b)
  {
    ReadRecordsConcat(a, b);
    if ReadRecords(b).Some? {
      FoldThen(apply, m, ParseInto(apply, m, a).value, ReadRecords(a).value, ReadRecords(b).value);
    }
  }

  /** One turn of a parse loop: read a record, apply it, go on with the rest. */
  lemma ParseStep<M>(apply: (M, Record) -> Option<M>, m: M, b: bytes)
    requires b != []
    ensures ReadRecord(b).Fail? ==> ParseInto(apply, m, b) == None
    ensures ReadRecord(b).Ok? && apply(m, ReadRecord(b).value) == None ==> ParseInto(apply, m, b) == None
    ensures ReadRecord(b).Ok? && apply(m, ReadRecord(b).value).Some? ==>
      ParseInto(apply, m, b) == ParseInto(apply, apply(m, ReadRecord(b).value).value, b[ReadRecord(b).size..])
  {
    if ReadRecord(b).Ok? {
      var r, n := ReadRecord(b).value, ReadRecord(b).size;
      if ReadRecords(b[n..]).Some? {
        var rs := ReadRecords(b).value;
        assert rs[0] == r && rs[1..] == ReadRecords(b[n..]).value;
      }
    }
  }

  lemma EmptyParse<T>(apply: (T, Record) -> Option<T>, m: T)
    ensures ParseInto(apply, m, []) == Some(m)
  {
  }

  lemma RangeTail(buf: bytes, ptr: nat, limit: nat, n: nat)
    requires ptr + n <= limit <= |buf|
    ensures |buf[ptr..limit]| == limit - ptr && buf[ptr..limit][n..] == buf[ptr + n..limit]
  {
    SliceOfSlice(buf, ptr, limit, n, limit - ptr);
  }

  /** What is left to parse once a tag has been read. */
  ghost function ParseTagged<M>(apply: (M, Record) -> Option<M>, m: M, tag: u32, b: bytes): Option<M> {
    match ReadTagged(tag, b)
    case Fail => None
    case Ok(r, n) =>
      match apply(m, r)
      case None => None
      case Some(m') => ParseInto(apply, m', b[n..])
  }

  lemma ParseHeader<M>(apply: (M, Record) -> Option<M>, m: M, buf: bytes, ptr: nat, limit: nat)
    requires ptr < limit <= |buf|
    ensures match ReadTag(buf[ptr..limit])
            case Fail => ParseInto(apply, m, buf[ptr..limit]) == None
            case Ok(tag, n) =>
              ptr + n <= limit
              && ParseInto(apply, m, buf[ptr..limit]) == ParseTagged(apply, m, tag, buf[ptr + n..limit])
  {
    hide ReadTagged, ParseInto;
    var b := buf[ptr..limit];
    ParseStep(apply, m, b);
    match ReadTag(b)
    case Fail =>
    case Ok(tag, n) =>
      RangeTail(buf, ptr, limit, n);
      match ReadTagged(tag, b[n..])
      case Fail =>
      case Ok(r, k) =>
        RangeTail(buf, ptr, limit, n + k);
        RangeTail(buf, ptr + n, limit, k);
  }

  /** The rest of a parse after the record `r` ending at `ptr`. */
  ghost function Continue<M>(apply: (M, Record) -> Option<M>, m: M, r: Record, buf: bytes, ptr: nat, limit: nat): Option<M>
    requires ptr <= limit <= |buf|
  {
    if apply(m, r).Some? then ParseInto(apply, apply(m, r).value, buf[ptr..limit]) else None
  }

  lemma ParseBody<M>(apply: (M, Record) -> Option<M>, m: M, tag: u32, buf: bytes, ptr: nat, limit: nat)
    requires ptr <= limit <= |buf|
    ensures match ReadTagged(tag, buf[ptr..limit])
            case Fail => ParseTagged(apply, m, tag, buf[ptr..limit]) == None
            case Ok(r, n) =>
              ptr + n <= limit && ParseTagged(apply, m, tag, buf[ptr..limit]) == Continue(apply, m, r, buf, ptr + n, limit)
  {
    hide ReadTagged, ParseInto;
    var r := ReadTagged(tag, buf[ptr..limit]);
    if r.Ok? {
      RangeTail(buf, ptr, limit, r.size);
    }
  }

  /** A zero tag or an end-group tag ends the loop early; the message is then rejected. */
  lemma EndTagFails<M>(apply: (M, Record) -> Option<M>, m: M, tag: u32, b: bytes)
    requires tag % 8 == 4 || tag == 0
    ensures ParseTagged(apply, m, tag, b) == None
  {
  }

  /** How the payload is read for each wire type, given the tag. */
  lemma LenBody<M>(apply: (M, Record) -> Option<M>, m: M, number: FieldNumber, buf: bytes, ptr: nat, limit: nat)
    requires ptr <= limit <= |buf| && number < 16
    ensures match ReadLen(buf[ptr..limit])
            case Fail => ParseTagged(apply, m, 8 * number + 2, buf[ptr..limit]) == None
            case Ok(d, n) =>
              && ptr + n <= limit
              && ParseTagged(apply, m, 8 * number + 2, buf[ptr..limit]) ==
                 Continue(apply, m, Record(number, Len(d)), buf, ptr + n, limit)
  {
    hide ParseTagged, Continue, EncodePayload;
    ParseBody(apply, m, 8 * number + 2, buf, ptr, limit);
  }

  lemma VarintBody<M>(apply: (M, Record) -> Option<M>, m: M, number: FieldNumber, buf: bytes, ptr: nat, limit: nat)
    requires ptr <= limit <= |buf| && number < 16
    ensures match ReadVarint64(buf[ptr..limit])
            case Fail => ParseTagged(apply, m, 8 * number, buf[ptr..limit]) == None
            case Ok(v, n) =>
              && ptr + n <= limit
              && ParseTagged(apply, m, 8 * number, buf[ptr..limit]) ==
                 Continue(apply, m, Record(number, Varint(v)), buf, ptr + n, limit)
  {
    hide ParseTagged, Continue, EncodePayload;
    ParseBody(apply, m, 8 * number, buf, ptr, limit);
  }

  lemma FixedBody<M>(apply: (M, Record) -> Option<M>, m: M, number: FieldNumber, buf: bytes, ptr: nat, limit: nat)
    requires ptr <= limit <= |buf| && number < 16
    ensures match ReadFixed32(buf[ptr..limit])
            case Fail => ParseTagged(apply, m, 8 * number + 5, buf[ptr..limit]) == None
            case Ok(v, n) =>
              && ptr + n <= limit
              && ParseTagged(apply, m, 8 * number + 5, buf[ptr..limit]) ==
                 Continue(apply, m, Record(number, Fixed32(v)), buf, ptr + n, limit)
    ensures match ReadFixed64(buf[ptr..limit])
            case Fail => ParseTagged(apply, m, 8 * number + 1, buf[ptr..limit]) == None
            case Ok(v, n) =>
              && ptr + n <= limit
              && ParseTagged(apply, m, 8 * number + 1, buf[ptr..limit]) ==
                 Continue(apply, m, Record(number, Fixed64(v)), buf, ptr + n, limit)
  {
    hide ParseTagged, Continue, EncodePayload;
    ParseBody(apply, m, 8 * number + 5, buf, ptr, limit);
    ParseBody(apply, m, 8 * number + 1, buf, ptr, limit);
  }

  lemma {:induction false} AllFitBySize(rs: seq<Record>)
    requires |EncodeRecords(rs)| < TWO_31
    ensures AllFit(rs)
  {
    if rs != [] {
      AllFitBySize(rs[1..]);
      assert Fits(rs[0]);
    }
  }

  /** A message below the size limit parses back as the fold of the records it printed. */
  lemma ParsePrinted<M>(apply: (M, Record) -> Option<M>, m: M, rs: seq<Record>)
    requires |EncodeRecords(rs)| < TWO_31
    ensures ParseInto(apply, m, EncodeRecords(rs)) == Fold(apply, m, rs)
  {
    AllFitBySize(rs);
    RecordsRoundTrip(rs);
  }

  // ----- Parsing a printed message on top of another merges it in -----

  lemma {:induction false} PhoneUnknown(q: PhoneNumber, us: seq<Record>)
    requires forall r <- us :: !PhoneKnows(r)
    ensures Fold(ApplyPhone, q, us) == Some(q.(unknown := q.unknown + us))
    decreases |us|
  {
    if us == [] {
      Empty(q.unknown);
    } else {
      var q' := q.(unknown := q.unknown + [us[0]]);
      assert us[0] in us && !PhoneKnows(us[0]);
      assert ApplyPhone(q, us[0]) == Some(q');
      PhoneUnknown(q', us[1..]);
      Assoc(q.unknown, [us[0]], us[1..]);
      HeadTail(us);
    }
  }

  lemma PhoneMerges(q: PhoneNumber, p: PhoneNumber)
    requires PhoneOk(p) && |PhoneBytes(p)| < TWO_31
    ensures ParseInto(ApplyPhone, q, PhoneBytes(p)) == Some(MergePhone(q, p))
  {
    ParsePrinted(ApplyPhone, q, PhoneRecords(p));
    SignedRoundTrip(p.kind);
    var q1 := if |p.number| > 0 then q.(number := p.number) else q;
    assert Fold(ApplyPhone, q, TextField(1, p.number)) == Some(q1);
    FoldThen(ApplyPhone, q, q1, TextField(1, p.number), IntField(2, p.kind));
    var q2 := if p.kind != 0 then q1.(kind := p.kind) else q1;
    assert Fold(ApplyPhone, q1, IntField(2, p.kind)) == Some(q2);
    FoldThen(ApplyPhone, q, q2, TextField(1, p.number) + IntField(2, p.kind), p.unknown);
    PhoneUnknown(q2, p.unknown);
  }

  lemma {:induction false} TimeUnknown(q: Timestamp, us: seq<Record>)
    requires forall r <- us :: !TimeKnows(r)
    ensures Fold(ApplyTime, q, us) == Some(q.(unknown := q.unknown + us))
    decreases |us|
  {
    if us == [] {
      Empty(q.unknown);
    } else {
      var q' := q.(unknown := q.unknown + [us[0]]);
      assert us[0] in us && !TimeKnows(us[0]);
      assert ApplyTime(q, us[0]) == Some(q');
      TimeUnknown(q', us[1..]);
      Assoc(q.unknown, [us[0]], us[1..]);
      HeadTail(us);
    }
  }

  lemma TimeMerges(q: Timestamp, t: Timestamp)
    requires TimeOk(t) && |TimeBytes(t)| < TWO_31
    ensures ParseInto(ApplyTime, q, TimeBytes(t)) == Some(MergeTime(q, t))
  {
    ParsePrinted(ApplyTime, q, TimeRecords(t));
    SignedRoundTrip(t.seconds);
    SignedRoundTrip(t.nanos);
    var q1 := if t.seconds != 0 then q.(seconds := t.seconds) else q;
    assert Fold(ApplyTime, q, IntField(1, t.seconds)) == Some(q1);
    FoldThen(ApplyTime, q, q1, IntField(1, t.seconds), IntField(2, t.nanos));
    var q2 := if t.nanos != 0 then q1.(nanos := t.nanos) else q1;
    assert Fold(ApplyTime, q1, IntField(2, t.nanos)) == Some(q2);
    FoldThen(ApplyTime, q, q2, IntField(1, t.seconds) + IntField(2, t.nanos), t.unknown);
    TimeUnknown(q2, t.unknown);
  }

  lemma {:induction false} PersonUnknown(q: Person, us: seq<Record>)
    requires forall r <- us :: !PersonKnows(r)
    ensures Fold(ApplyPerson, q, us) == Some(q.(unknown := q.unknown + us))
    decreases |us|
  {
    if us == [] {
      Empty(q.unknown);
    } else {
      var q' := q.(unknown := q.unknown + [us[0]]);
      assert us[0] in us && !PersonKnows(us[0]);
      assert ApplyPerson(q, us[0]) == Some(q');
      PersonUnknown(q', us[1..]);
      Assoc(q.unknown, [us[0]], us[1..]);
      HeadTail(us);
    }
  }

  lemma FieldSizes(a: seq<Record>, b: seq<Record>)
    requires |EncodeRecords(a + b)| < TWO_31
    ensures |EncodeRecords(a)| < TWO_31 && |EncodeRecords(b)| < TWO_31
  {
    EncodeRecordsConcat(a, b);
  }

  lemma OneRecord(r: Record)
    ensures EncodeRecords([r]) == EncodeRecord(r)
  {
  }

  lemma PhoneAppends(q: Person, p: PhoneNumber)
    requires PhoneOk(p) && |PhoneBytes(p)| < TWO_31
    ensures Fold(ApplyPerson, q, [Record(4, Len(PhoneBytes(p)))])
            == Some(q.(phones := q.phones + [MergePhone(NO_PHONE, p)]))
  {
    PhoneMerges(NO_PHONE, p);
  }

  lemma {:induction false} PhonesMerge(q: Person, ps: seq<PhoneNumber>)
    requires forall p <- ps :: PhoneOk(p)
    requires |EncodeRecords(PhoneFields(ps))| < TWO_31
    ensures Fold(ApplyPerson, q, PhoneFields(ps)) == Some(q.(phones := q.phones + CopyPhones(ps)))
    decreases |ps|
  {
    if ps == [] {
      Empty(q.phones);
    } else {
      var init, last := ps[..|ps| - 1], ps[|ps| - 1];
      var r := Record(4, Len(PhoneBytes(last)));
      FieldSizes(PhoneFields(init), [r]);
      OneRecord(r);
      PhonesMerge(q, init);
      var q' := q.(phones := q.phones + CopyPhones(init));
      FoldThen(ApplyPerson, q, q', PhoneFields(init), [r]);
      PhoneAppends(q', last);
      Assoc(q.phones, CopyPhones(init), [MergePhone(NO_PHONE, last)]);
    }
  }

  lemma NameMerges(q: Person, p: Person)
    requires PersonOk(p)
    ensures Fold(ApplyPerson, q, TextField(1, p.name)) == Some(q.(name := MergePerson(q, p).name))
    ensures Fold(ApplyPerson, q, TextField(3, p.email)) == Some(q.(email := MergePerson(q, p).email))
  {
  }

  lemma NumbersMerge(q: Person, p: Person)
    ensures Fold(ApplyPerson, q, IntField(2, p.id)) == Some(q.(id := MergePerson(q, p).id))
    ensures Fold(ApplyPerson, q, FloatField(6, p.height)) == Some(q.(height := MergePerson(q, p).height))
    ensures Fold(ApplyPerson, q, DoubleField(7, p.weight)) == Some(q.(weight := MergePerson(q, p).weight))
  {
    SignedRoundTrip(p.id);
  }

  lemma LastUpdatedMerges(q: Person, p: Person)
    requires PersonOk(p)
    requires p.lastUpdated.Some? ==> |TimeBytes(p.lastUpdated.value)| < TWO_31
    ensures Fold(ApplyPerson, q, TimeField(p.lastUpdated)) == Some(q.(lastUpdated := MergePerson(q, p).lastUpdated))
  {
    hide ParseInto, TimeBytes;
    if p.lastUpdated.Some? {
      TimeMerges(MutableTime(q), p.lastUpdated.value);
      FoldOne(ApplyPerson, q, Record(5, Len(TimeBytes(p.lastUpdated.value))));
    }
  }

  lemma FoldThree<M>(apply: (M, Record) -> Option<M>, m0: M, m1: M, m2: M, m3: M, a: seq<Record>, b: seq<Record>, c: seq<Record>)
    requires Fold(apply, m0, a) == Some(m1)
    requires Fold(apply, m1, b) == Some(m2)
    requires Fold(apply, m2, c) == Some(m3)
    ensures Fold(apply, m0, a + b + c) == Some(m3)
  {
    FoldThen(apply, m0, m1, a, b);
    FoldThen(apply, m0, m2, a + b, c);
  }

  /** The message after the first four fields of `p` have been parsed over `q`. */
  lemma PersonFrontMerges(q: Person, p: Person)
    requires PersonOk(p)
    requires |EncodeRecords(PhoneFields(p.phones))| < TWO_31
    ensures Fold(ApplyPerson, q, FrontRecords(p)) ==
            Some(MergePerson(q, p).(lastUpdated := q.lastUpdated, height := q.height, weight := q.weight, unknown := q.unknown))
  {
    var m := MergePerson(q, p);
    var q1 := q.(name := m.name);
    var q2 := q1.(id := m.id);
    var q3 := q2.(email := m.email);
    NameMerges(q, p);
    NumbersMerge(q1, p);
    NameMerges(q2, p);
    FoldThree(ApplyPerson, q, q1, q2, q3, TextField(1, p.name), IntField(2, p.id), TextField(3, p.email));
    FoldThen(ApplyPerson, q, q3, TextField(1, p.name) + IntField(2, p.id) + TextField(3, p.email), PhoneFields(p.phones));
    PhonesMerge(q3, p.phones);
  }

  lemma PersonBackMerges(q: Person, p: Person)
    requires PersonOk(p)
    requires p.lastUpdated.Some? ==> |TimeBytes(p.lastUpdated.value)| < TWO_31
    ensures Fold(ApplyPerson, q, BackRecords(p)) ==
            Some(MergePerson(q, p).(name := q.name, id := q.id, email := q.email, phones := q.phones))
  {
    var m := MergePerson(q, p);
    var q1 := q.(lastUpdated := m.lastUpdated);
    var q2 := q1.(height := m.height);
    var q3 := q2.(weight := m.weight);
    LastUpdatedMerges(q, p);
    NumbersMerge(q1, p);
    NumbersMerge(q2, p);
    FoldThree(ApplyPerson, q, q1, q2, q3, TimeField(p.lastUpdated), FloatField(6, p.height), DoubleField(7, p.weight));
    FoldThen(ApplyPerson, q, q3, TimeField(p.lastUpdated) + FloatField(6, p.height) + DoubleField(7, p.weight), p.unknown);
    PersonUnknown(q3, p.unknown);
  }

  lemma FourSizes(a: seq<Record>, b: seq<Record>, c: seq<Record>, d: seq<Record>)
    ensures Size(a + b + c + d) == Size(a) + Size(b) + Size(c) + Size(d)
  {
    EncodeRecordsConcat(a, b);
    EncodeRecordsConcat(a + b, c);
    EncodeRecordsConcat(a + b + c, d);
  }

  /** The printed length of a person is the sum over its fields. */
  lemma PersonSize(p: Person)
    ensures |PersonBytes(p)| ==
            Size(TextField(1, p.name)) + Size(IntField(2, p.id)) + Size(TextField(3, p.email)) + Size(PhoneFields(p.phones))
            + Size(TimeField(p.lastUpdated)) + Size(FloatField(6, p.height)) + Size(DoubleField(7, p.weight)) + Size(p.unknown)
  {
    EncodeRecordsConcat(FrontRecords(p), BackRecords(p));
    FourSizes(TextField(1, p.name), IntField(2, p.id), TextField(3, p.email), PhoneFields(p.phones));
    FourSizes(TimeField(p.lastUpdated), FloatField(6, p.height), DoubleField(7, p.weight), p.unknown);
  }

  lemma PersonFieldsFit(p: Person)
    requires |PersonBytes(p)| < TWO_31
    ensures Size(PhoneFields(p.phones)) < TWO_31
    ensures p.lastUpdated.Some? ==> |TimeBytes(p.lastUpdated.value)| < TWO_31
  {
    PersonSize(p);
    if p.lastUpdated.Some? {
      OneRecord(Record(5, Len(TimeBytes(p.lastUpdated.value))));
    }
  }

  lemma PersonMerges(q: Person, p: Person)
    requires PersonOk(p) && |PersonBytes(p)| < TWO_31
    ensures ParseInto(ApplyPerson, q, PersonBytes(p)) == Some(MergePerson(q, p))
  {
    ParsePrinted(ApplyPerson, q, PersonRecords(p));
    PersonFieldsFit(p);
    PersonFrontMerges(q, p);
    var mid := MergePerson(q, p).(lastUpdated := q.lastUpdated, height := q.height, weight := q.weight, unknown := q.unknown);
    FoldThen(ApplyPerson, q, mid, FrontRecords(p), BackRecords(p));
    PersonBackMerges(mid, p);
  }

  lemma {:induction false} BookUnknown(q: AddressBook, us: seq<Record>)
    requires forall r <- us :: !BookKnows(r)
    ensures Fold(ApplyBook, q, us) == Some(q.(unknown := q.unknown + us))
    decreases |us|
  {
    if us == [] {
      Empty(q.unknown);
    } else {
      var q' := q.(unknown := q.unknown + [us[0]]);
      assert us[0] in us && !BookKnows(us[0]);
      assert ApplyBook(q, us[0]) == Some(q');
      BookUnknown(q', us[1..]);
      Assoc(q.unknown, [us[0]], us[1..]);
      HeadTail(us);
    }
  }

  lemma PersonAppends(q: AddressBook, p: Person)
    requires PersonOk(p) && |PersonBytes(p)| < TWO_31
    ensures Fold(ApplyBook, q, [Record(1, Len(PersonBytes(p)))])
            == Some(q.(people := q.people + [MergePerson(NO_PERSON, p)]))
  {
    PersonMerges(NO_PERSON, p);
  }

  lemma {:induction false} PeopleMerge(q: AddressBook, ps: seq<Person>)
    requires forall p <- ps :: PersonOk(p)
    requires |EncodeRecords(PersonFields(ps))| < TWO_31
    ensures Fold(ApplyBook, q, PersonFields(ps)) == Some(q.(people := q.people + CopyPeople(ps)))
    decreases |ps|
  {
    if ps == [] {
      Empty(q.people);
    } else {
      var init, last := ps[..|ps| - 1], ps[|ps| - 1];
      var r := Record(1, Len(PersonBytes(last)));
      FieldSizes(PersonFields(init), [r]);
      OneRecord(r);
      PeopleMerge(q, init);
      var q' := q.(people := q.people + CopyPeople(init));
      FoldThen(ApplyBook, q, q', PersonFields(init), [r]);
      PersonAppends(q', last);
      Assoc(q.people, CopyPeople(init), [MergePerson(NO_PERSON, last)]);
    }
  }

  /** Parsing a printed book into any book is exactly MergeFrom. */
  lemma BookMerges(q: AddressBook, b: AddressBook)
    requires BookOk(b) && |BookBytes(b)| < TWO_31
    ensures ParseInto(ApplyBook, q, BookBytes(b)) == Some(MergeBook(q, b))
  {
    ParsePrinted(ApplyBook, q, BookRecords(b));
    FieldSizes(PersonFields(b.people), b.unknown);
    PeopleMerge(q, b.people);
    var q' := q.(people := q.people + CopyPeople(b.people));
    FoldThen(ApplyBook, q, q', PersonFields(b.people), b.unknown);
    BookUnknown(q', b.unknown);
  }

  lemma {:induction false} TimeFoldTotal(q: Timestamp, rs: seq<Record>)
    ensures Fold(ApplyTime, q, rs).Some?
    decreases |rs|
  {
    if rs != [] {
      TimeFoldTotal(ApplyTime(q, rs[0]).value, rs[1..]);
    }
  }

  // ----- Printed lengths, field by field -----

  lemma LenSize(n: FieldNumber, d: bytes)
    requires n < 16
    ensures |EncodeRecord(Record(n, Len(d)))| == 1 + VarintSize(|d|) + |d|
  {
  }

  lemma ThreeSizes(a: seq<Record>, b: seq<Record>, c: seq<Record>)
    ensures Size(a + b + c) == Size(a) + Size(b) + Size(c)
  {
    EncodeRecordsConcat(a, b);
    EncodeRecordsConcat(a + b, c);
  }

  lemma AppendSize(rs: seq<Record>, r: Record)
    ensures Size(rs + [r]) == Size(rs) + |EncodeRecord(r)|
  {
    EncodeRecordsConcat(rs, [r]);
    OneRecord(r);
  }

  lemma PhoneSize(p: PhoneNumber)
    ensures |PhoneBytes(p)| == Size(TextField(1, p.number)) + Size(IntField(2, p.kind)) + Size(p.unknown)
  {
    ThreeSizes(TextField(1, p.number), IntField(2, p.kind), p.unknown);
  }

  lemma TimeSize(t: Timestamp)
    ensures |TimeBytes(t)| == Size(IntField(1, t.seconds)) + Size(IntField(2, t.nanos)) + Size(t.unknown)
  {
    ThreeSizes(IntField(1, t.seconds), IntField(2, t.nanos), t.unknown);
  }

  lemma BookSize(b: AddressBook)
    ensures |BookBytes(b)| == Size(PersonFields(b.people)) + Size(b.unknown)
  {
    EncodeRecordsConcat(PersonFields(b.people), b.unknown);
  }
}
