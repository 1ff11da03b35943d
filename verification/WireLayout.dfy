/** What the bytes of the wire format are, said position by position and with literal messages,
    apart from the functions that read and write them. */
module WireLayout {
  import opened Options
  import opened Sequences
  import opened Wire
  import opened Messages
  import opened Codec

  // ----- Varints -----

  /** The sum of the low seven bits of each byte, weighted by powers of 128. */
  function Sum128(b: bytes): nat {
    if b == [] then 0 else Sum128(b[..|b| - 1]) + b[|b| - 1] % 128 * Pow128(|b| - 1)
  }

  /** Every byte but the last has its top bit set. */
  predicate VarintShape(b: bytes) {
    b != [] && b[|b| - 1] < 128 && forall i :: 0 <= i < |b| - 1 ==> b[i] >= 128
  }

  lemma {:induction false} SumFromFront(x: byte, b: bytes)
    ensures Sum128([x] + b) == x % 128 + 128 * Sum128(b)
  {
    var all := [x] + b;
    if b == [] {
      assert all[..0] == [];
      assert Pow128(0) == 1;
    } else {
      var front, y, p := b[..|b| - 1], b[|b| - 1] % 128, Pow128(|b| - 1);
      assert all[..|all| - 1] == [x] + front;
      SumFromFront(x, front);
      assert Pow128(|b|) == 128 * p;
      assert y * (128 * p) == 128 * (y * p);
    }
  }

  lemma ShapeFromFront(x: byte, b: bytes)
    requires b != []
    ensures VarintShape([x] + b) <==> x >= 128 && VarintShape(b)
  {
    var all := [x] + b;
    assert forall i :: 0 <= i < |b| ==> all[i + 1] == b[i];
    if VarintShape(all) {
      assert all[0] >= 128;
      forall i | 0 <= i < |b| - 1
        ensures b[i] >= 128
      {
        assert all[i + 1] >= 128;
      }
    }
  }

  lemma OneByte(x: byte)
    ensures VarintShape([x]) <==> x < 128
    ensures Sum128([x]) == x % 128
  {
    assert [x] + [] == [x];
    SumFromFront(x, []);
  }

  lemma {:induction false} VarintLayout(v: nat)
    ensures VarintShape(EncodeVarint(v)) && Sum128(EncodeVarint(v)) == v
  {
    hide Sum128, VarintShape, VarintSize;
    if v < 128 {
      OneByte(v);
    } else {
      VarintLayout(v / 128);
      SumFromFront(128 + v % 128, EncodeVarint(v / 128));
      ShapeFromFront(128 + v % 128, EncodeVarint(v / 128));
    }
  }

  lemma ShapeStops(b: bytes, n: nat)
    requires 1 <= n <= |b| && VarintShape(b[..n]) && b[0] < 128
    ensures n == 1
  {
    assert b[..n][0] == b[0];
  }

  /** A varint is read exactly up to the first byte without a top bit, within the limit, padded
      or not, and its value is the sum. */
  lemma {:induction false} ReadVarintIff(b: bytes, max: nat, v: nat, n: nat)
    ensures ReadVarint(b, max) == Ok(v, n) <==> 1 <= n <= |b| && n <= max && VarintShape(b[..n]) && v == Sum128(b[..n])
    decreases |b|
  {
    hide Sum128, VarintShape, VarintSize;
    if max > 0 && b != [] {
      if b[0] < 128 {
        assert b[..1] == [b[0]];
        OneByte(b[0]);
        if 1 <= n <= |b| && VarintShape(b[..n]) {
          ShapeStops(b, n);
        }
      } else if 2 <= n <= |b| {
        var rest := b[1..];
        assert b[..n] == [b[0]] + rest[..n - 1];
        SumFromFront(b[0], rest[..n - 1]);
        ShapeFromFront(b[0], rest[..n - 1]);
        ReadVarintIff(rest, max - 1, Sum128(rest[..n - 1]), n - 1);
        var r := ReadVarint(rest, max - 1);
        if r.Ok? {
          ReadVarintIff(rest, max - 1, r.value, r.size);
        }
      } else if n == 1 {
        assert b[..1] == [b[0]];
        OneByte(b[0]);
      }
    }
  }

  // ----- Fixed-width values -----

  /** The sum of the bytes, weighted by powers of 256. */
  function Sum256(b: bytes): nat {
    if b == [] then 0 else Sum256(b[..|b| - 1]) + b[|b| - 1] * Pow256(|b| - 1)
  }

  lemma {:induction false} Sum256FromFront(x: byte, b: bytes)
    ensures Sum256([x] + b) == x + 256 * Sum256(b)
  {
    var all := [x] + b;
    if b == [] {
      assert all[..0] == [];
      assert Pow256(0) == 1;
    } else {
      var front, y, p := b[..|b| - 1], b[|b| - 1], Pow256(|b| - 1);
      assert all[..|all| - 1] == [x] + front;
      Sum256FromFront(x, front);
      assert Pow256(|b|) == 256 * p;
      assert y * (256 * p) == 256 * (y * p);
    }
  }

  /** A fixed-width value is that sum of its bytes, the first byte the least. */
  lemma {:induction false} FixedLayout(b: bytes)
    ensures DecodeFixed(b) == Sum256(b)
  {
    if b != [] {
      FixedLayout(b[1..]);
      Sum256FromFront(b[0], b[1..]);
      HeadTail(b);
    }
  }

  /** And it is written as the bytes with that sum. */
  lemma FixedWritten(v: nat, k: nat)
    requires v < Pow256(k)
    ensures |EncodeFixed(v, k)| == k && Sum256(EncodeFixed(v, k)) == v
  {
    FixedRoundTrip(v, k);
    FixedLayout(EncodeFixed(v, k));
  }

  // ----- Records -----

  /** These bytes are this payload and nothing more; padded varints are allowed. */
  predicate SpellsPayload(b: bytes, p: Payload) {
    match p
    case Varint(v) => |b| <= 10 && VarintShape(b) && v == Sum128(b) % 0x1_0000_0000_0000_0000
    case Fixed64(v) => |b| == 8 && v == Sum256(b)
    case Fixed32(v) => |b| == 4 && v == Sum256(b)
    case Len(d) =>
      && |d| < 0x8000_0000 && |d| <= |b| <= |d| + 5
      && VarintShape(b[..|b| - |d|]) && Sum128(b[..|b| - |d|]) == |d| && b[|b| - |d|..] == d
  }

  /** A tag of one to five bytes, cut to 32 bits, and a payload of the wire type it names. */
  predicate SpellsRecord(b: bytes, r: Record) {
    exists k :: 1 <= k <= |b| && k <= 5 && TagIs(b[..k], r) && SpellsPayload(b[k..], r.payload)
  }

  predicate TagIs(b: bytes, r: Record) {
    VarintShape(b) && Sum128(b) % 0x1_0000_0000 == 8 * r.number + WireType(r.payload)
  }

  /** The records stand one after the other and fill the bytes. */
  predicate SpellsRecords(b: bytes, rs: seq<Record>)
    decreases |rs|
  {
    if rs == [] then b == []
    else exists k :: 0 <= k <= |b| && SpellsRecord(b[..k], rs[0]) && SpellsRecords(b[k..], rs[1..])
  }

  lemma NumberIff(b: bytes, v: u64, n: nat)
    ensures ReadVarint64(b) == Ok(v, n) <==> n <= |b| && SpellsPayload(b[..n], Varint(v))
  {
    hide Sum128, VarintShape, ReadVarint, VarintSize;
    var r := ReadVarint(b, 10);
    if r.Ok? {
      ReadVarintIff(b, 10, r.value, r.size);
    }
    if n <= |b| && SpellsPayload(b[..n], Varint(v)) {
      NotEmptyShape(b[..n]);
      ReadVarintIff(b, 10, Sum128(b[..n]), n);
    }
  }

  lemma NotEmptyShape(b: bytes)
    ensures VarintShape(b) ==> b != []
  {
  }

  lemma LenIff(b: bytes, d: bytes, n: nat)
    ensures ReadLen(b) == Ok(d, n) <==> n <= |b| && SpellsPayload(b[..n], Len(d))
  {
    hide Sum128, VarintShape, ReadVarint, VarintSize;
    var r := ReadVarint(b, 5);
    if r.Ok? {
      ReadVarintIff(b, 5, r.value, r.size);
      if r.value <= |b| - r.size {
        var m := r.size + r.value;
        assert b[..m][..r.size] == b[..r.size] && b[..m][r.size..] == b[r.size..m];
      }
    }
    if n <= |b| && SpellsPayload(b[..n], Len(d)) {
      var k := n - |d|;
      assert b[..n][..k] == b[..k] && b[..n][k..] == b[k..n];
      NotEmptyShape(b[..k]);
      ReadVarintIff(b, 5, |d|, k);
    }
  }

  lemma PayloadIff(t: nat, b: bytes, p: Payload, n: nat)
    ensures ReadPayload(t, b) == Ok(p, n) <==> t == WireType(p) && n <= |b| && SpellsPayload(b[..n], p)
  {
    hide Sum128, Sum256, VarintShape, ReadVarint64, ReadLen, VarintSize;
    match p
    case Varint(v) => NumberIff(b, v, n);
    case Len(d) => LenIff(b, d, n);
    case Fixed32(v) => if |b| >= 4 { FixedLayout(b[..4]); }
    case Fixed64(v) => if |b| >= 8 { FixedLayout(b[..8]); }
  }

  lemma TagIff(b: bytes, r: Record, k: nat)
    ensures ReadTag(b) == Ok(8 * r.number + WireType(r.payload), k) <==> 1 <= k <= |b| && k <= 5 && TagIs(b[..k], r)
  {
    hide Sum128, VarintShape, ReadVarint, VarintSize;
    var x := ReadVarint(b, 5);
    if x.Ok? {
      ReadVarintIff(b, 5, x.value, x.size);
    }
    if 1 <= k <= |b| && k <= 5 && TagIs(b[..k], r) {
      ReadVarintIff(b, 5, Sum128(b[..k]), k);
    }
  }

  /** One record is read exactly where it is spelled, whatever follows it. */
  lemma ReadRecordIff(b: bytes, r: Record, n: nat)
    ensures ReadRecord(b) == Ok(r, n) <==> n <= |b| && SpellsRecord(b[..n], r)
  {
    hide ReadTag, ReadPayload, SpellsPayload, TagIs, WireType;
    var tag := ReadTag(b);
    if ReadRecord(b) == Ok(r, n) {
      var k := tag.size;
      TagIff(b, r, k);
      PayloadIff(tag.value % 8, b[k..], r.payload, n - k);
      assert b[..n][..k] == b[..k] && b[..n][k..] == b[k..][..n - k];
    }
    if n <= |b| && SpellsRecord(b[..n], r) {
      var k :| 1 <= k <= n && k <= 5 && TagIs(b[..n][..k], r) && SpellsPayload(b[..n][k..], r.payload);
      assert b[..n][..k] == b[..k] && b[..n][k..] == b[k..][..n - k];
      TagIff(b, r, k);
      PayloadIff(WireType(r.payload), b[k..], r.payload, n - k);
    }
  }

  /** A buffer is read as these records exactly when it spells them. So a group, a field number
      of zero, an overlong varint or a length past the end is refused, and nothing else is. */
  lemma {:induction false} ReadRecordsIff(b: bytes, rs: seq<Record>)
    ensures ReadRecords(b) == Some(rs) <==> SpellsRecords(b, rs)
    decreases |b|, |rs|
  {
    hide ReadRecord, SpellsRecord;
    var first := ReadRecord(b);
    if ReadRecords(b) == Some(rs) && b != [] {
      ReadRecordIff(b, rs[0], first.size);
      ReadRecordsIff(b[first.size..], rs[1..]);
    }
    if SpellsRecords(b, rs) && rs != [] {
      var k :| 0 <= k <= |b| && SpellsRecord(b[..k], rs[0]) && SpellsRecords(b[k..], rs[1..]);
      ReadRecordIff(b, rs[0], k);
      ReadRecordsIff(b[k..], rs[1..]);
      HeadTail(rs);
    }
  }

  /** A varint is cut to 32 bits, or kept at 64, and read in two's complement. */
  lemma SignedIs(v: u64, i: i32, j: i64)
    ensures ToI32(v) == i <==> (v - i) % 0x1_0000_0000 == 0
    ensures ToI64(v) == j <==> (v - j) % 0x1_0000_0000_0000_0000 == 0
  {
  }

  // ----- Literal messages -----

  lemma SmallVarint(v: nat)
    requires v < 128
    ensures EncodeVarint(v) == [v]
  {
  }

  /** The bytes of a record with a one-byte tag and a one-byte number or length. */
  lemma SmallRecord(number: FieldNumber, v: u64, d: bytes)
    requires number < 16 && v < 128 && |d| < 128
    ensures EncodeRecord(Record(number, Varint(v))) == [8 * number, v]
    ensures EncodeRecord(Record(number, Len(d))) == [8 * number + 2, |d|] + d
  {
    SmallVarint(8 * number);
    SmallVarint(8 * number + 2);
    SmallVarint(v);
    SmallVarint(|d|);
  }

  lemma TwoRecords(r: Record, rs: seq<Record>)
    ensures EncodeRecords([r] + rs) == EncodeRecord(r) + EncodeRecords(rs)
  {
    assert ([r] + rs)[1..] == rs;
  }

  /** The person of the varint demo, id 100000, is the four bytes it prints. */
  lemma DemoId()
    ensures PersonBytes(NO_PERSON.(id := 100000)) == [0x10, 0xA0, 0x8D, 0x06]
  {
    var r := Record(2, Varint(100000));
    assert PersonRecords(NO_PERSON.(id := 100000)) == [r];
    OneRecord(r);
    SmallVarint(16);
    SmallVarint(6);
    assert EncodeVarint(781) == [0x8D] + EncodeVarint(6);
    assert EncodeVarint(100000) == [0xA0] + EncodeVarint(781);
  }

  const PHONE := PhoneNumber([0x31], 2, [])
  const TIME := Timestamp(5, 7, [])
  const PERSON := Person([0x41], 1, [0x42], [PHONE], Some(TIME), 0x3FE0_0000, 0x3FF0_0000_0000_0000, [])

  lemma PhoneLiteral()
    ensures PhoneBytes(PHONE) == [0x0A, 0x01, 0x31, 0x10, 0x02]
  {
    var r1, r2 := Record(1, Len([0x31])), Record(2, Varint(2));
    assert PhoneRecords(PHONE) == [r1] + [r2];
    TwoRecords(r1, [r2]);
    OneRecord(r2);
    SmallRecord(1, 0, [0x31]);
    SmallRecord(2, 2, []);
  }

  lemma TimeLiteral()
    ensures TimeBytes(TIME) == [0x08, 0x05, 0x10, 0x07]
  {
    var r1, r2 := Record(1, Varint(5)), Record(2, Varint(7));
    assert TimeRecords(TIME) == [r1] + [r2];
    TwoRecords(r1, [r2]);
    OneRecord(r2);
    SmallRecord(1, 5, []);
    SmallRecord(2, 7, []);
  }

  /** 1.75 as a float. */
  lemma FloatLiteral()
    ensures EncodeRecord(Record(6, Fixed32(0x3FE0_0000))) == [0x35] + [0x00, 0x00, 0xE0, 0x3F]
  {
    SmallVarint(0x35);
    assert EncodeFixed(0x3FE0, 2) == [0xE0, 0x3F];
    assert EncodeFixed(0x3FE0_0000, 4) == [0, 0] + EncodeFixed(0x3FE0, 2);
  }

  /** 1.0 as a double. */
  lemma DoubleLiteral()
    ensures EncodeRecord(Record(7, Fixed64(0x3FF0_0000_0000_0000))) ==
            [0x39] + [0x00, 0x00, 0x00, 0x00, 0x00, 0x00, 0xF0, 0x3F]
  {
    SmallVarint(0x39);
    assert EncodeFixed(0x3FF0, 2) == [0xF0, 0x3F];
    assert EncodeFixed(0x3FF0_0000, 4) == [0, 0] + EncodeFixed(0x3FF0, 2);
    assert EncodeFixed(0x3FF0_0000_0000, 6) == [0, 0] + EncodeFixed(0x3FF0_0000, 4);
    assert EncodeFixed(0x3FF0_0000_0000_0000, 8) == [0, 0] + EncodeFixed(0x3FF0_0000_0000, 6);
  }

  lemma PersonRecordList()
    ensures PersonRecords(PERSON) ==
            [Record(1, Len([0x41]))] + ([Record(2, Varint(1))] + ([Record(3, Len([0x42]))] +
            ([Record(4, Len(PhoneBytes(PHONE)))] + ([Record(5, Len(TimeBytes(TIME)))] +
            ([Record(6, Fixed32(0x3FE0_0000))] + [Record(7, Fixed64(0x3FF0_0000_0000_0000))])))))
  {
    hide PhoneBytes, TimeBytes;
    assert PhoneFields([PHONE]) == [Record(4, Len(PhoneBytes(PHONE)))] by { assert PhoneFields([]) == []; }
  }

  /** name, id, email, phones, last_updated, height, weight. */
  function PersonLiteral(): (b: bytes)
    ensures |b| == 0x23
  {
    ([0x0A, 0x01] + [0x41]) + ([0x10, 0x01] + (([0x1A, 0x01] + [0x42]) +
    (([0x22, 0x05] + [0x0A, 0x01, 0x31, 0x10, 0x02]) + (([0x2A, 0x04] + [0x08, 0x05, 0x10, 0x07]) +
    (([0x35] + [0x00, 0x00, 0xE0, 0x3F]) + ([0x39] + [0x00, 0x00, 0x00, 0x00, 0x00, 0x00, 0xF0, 0x3F]))))))
  }

  /** A person with every field set: each number, wire type, length and byte order. */
  lemma EveryFieldLiteral()
    ensures PersonBytes(PERSON) == PersonLiteral()
  {
    hide EncodeRecord, EncodeRecords, PhoneBytes, TimeBytes, PersonRecords;
    var r1, r2, r3 := Record(1, Len([0x41])), Record(2, Varint(1)), Record(3, Len([0x42]));
    var r4, r5 := Record(4, Len(PhoneBytes(PHONE))), Record(5, Len(TimeBytes(TIME)));
    var r6, r7 := Record(6, Fixed32(0x3FE0_0000)), Record(7, Fixed64(0x3FF0_0000_0000_0000));
    PhoneLiteral();
    TimeLiteral();
    FloatLiteral();
    DoubleLiteral();
    SmallRecord(1, 0, [0x41]);
    SmallRecord(2, 1, []);
    SmallRecord(3, 0, [0x42]);
    SmallRecord(4, 0, PhoneBytes(PHONE));
    SmallRecord(5, 0, TimeBytes(TIME));
    PersonRecordList();
    OneRecord(r7);
    TwoRecords(r6, [r7]);
    TwoRecords(r5, [r6] + [r7]);
    TwoRecords(r4, [r5] + ([r6] + [r7]));
    TwoRecords(r3, [r4] + ([r5] + ([r6] + [r7])));
    TwoRecords(r2, [r3] + ([r4] + ([r5] + ([r6] + [r7]))));
    TwoRecords(r1, [r2] + ([r3] + ([r4] + ([r5] + ([r6] + [r7])))));
  }

  lemma BookLiteral()
    ensures BookBytes(AddressBook([PERSON], [])) == [0x0A, 0x23] + PersonLiteral()
  {
    hide PersonBytes, EncodeRecord, PersonLiteral;
    EveryFieldLiteral();
    var b := Record(1, Len(PersonBytes(PERSON)));
    assert PersonFields([PERSON]) == [b] by { assert PersonFields([]) == []; }
    assert BookRecords(AddressBook([PERSON], [])) == [b];
    OneRecord(b);
    SmallRecord(1, 0, PersonBytes(PERSON));
  }
}
