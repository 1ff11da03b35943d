/** The protocol-buffer wire format: varints, tags, length-delimited and fixed-width
    payloads, and the record streams that messages are made of (Protocol Buffers
    Encoding, "Base 128 Varints", "Message Structure", "Length-Delimited Records"). */
module Wire {
  import opened Options
  import opened Sequences

  type byte = x: int | 0 <= x < 256
  type bytes = seq<byte>
  type u32 = x: int | 0 <= x < TWO_32
  type u64 = x: int | 0 <= x < TWO_64
  type i32 = x: int | -TWO_31 <= x < TWO_31
  type i64 = x: int | -TWO_63 <= x < TWO_63
  type FieldNumber = x: int | 1 <= x < 0x2000_0000 witness 1

  /** The longest varint a tag or a length may take, and the longest 64-bit one. */
  const SHORT_VARINT: nat := 5
  const LONG_VARINT: nat := 10

  const TWO_31 := 0x8000_0000
  const TWO_32 := 0x1_0000_0000
  const TWO_63 := 0x8000_0000_0000_0000
  const TWO_64 := 0x1_0000_0000_0000_0000

  /** The outcome of reading something off the front of a buffer. */
  datatype Parsed<+T> = Fail | Ok(value: T, size: nat)

  datatype Payload =
    | Varint(v: u64)
    | Fixed64(bits64: u64)
    | Len(data: bytes)
    | Fixed32(bits32: u32)

  datatype Record = Record(number: FieldNumber, payload: Payload)

  // ----- Two's complement -----

  /** The 64-bit pattern an int32 or an enum is sign-extended to before it is written. */
  function FromSigned(i: i64): u64 {
    if i < 0 then i + TWO_64 else i
  }

  /** The low 32 bits of a varint, read as a signed number. */
  function ToI32(v: u64): i32 {
    var low := v % 0x1_0000_0000;
    if low < TWO_31 then low else low - TWO_32
  }

  function ToI64(v: u64): i64 {
    if v < TWO_63 then v else v - TWO_64
  }

  lemma SignedRoundTrip(i: i64)
    ensures ToI64(FromSigned(i)) == i
    ensures -TWO_31 <= i < TWO_31 ==> ToI32(FromSigned(i)) == i
  {
  }

  // ----- Varints -----

  function VarintSize(v: nat): (n: nat)
    ensures n >= 1
  {
    if v < 128 then 1 else 1 + VarintSize(v / 128)
  }

  function EncodeVarint(v: nat): (b: bytes)
    ensures |b| == VarintSize(v)
  {
    if v < 128 then [v] else [128 + v % 128] + EncodeVarint(v / 128)
  }

  /** Reads a varint of at most `max` bytes; the value is not yet cut to a machine width. */
  function ReadVarint(b: bytes, max: nat): (r: Parsed<nat>)
    ensures r.Ok? ==> 1 <= r.size <= |b| && r.size <= max && VarintSize(r.value) <= r.size
  {
    if max == 0 || b == [] then Fail
    else if b[0] < 128 then Ok(b[0], 1)
    else
      match ReadVarint(b[1..], max - 1)
      case Fail => Fail
      case Ok(v, n) => Ok(b[0] - 128 + 128 * v, n + 1)
  }

  lemma {:induction false} VarintRoundTrip(v: nat, rest: bytes, max: nat)
    requires VarintSize(v) <= max
    ensures ReadVarint(EncodeVarint(v) + rest, max) == Ok(v, VarintSize(v))
  {
    if v >= 128 {
      VarintRoundTrip(v / 128, rest, max - 1);
      TailOfConcat(EncodeVarint(v), rest);
      assert EncodeVarint(v)[1..] == EncodeVarint(v / 128);
    }
  }

  lemma {:induction false} ReadVarintExtends(b: bytes, rest: bytes, max: nat)
    requires ReadVarint(b, max).Ok?
    ensures ReadVarint(b + rest, max) == ReadVarint(b, max)
  {
    if b[0] >= 128 {
      ReadVarintExtends(b[1..], rest, max - 1);
      TailOfConcat(b, rest);
    }
  }

  function Pow128(k: nat): (n: nat)
    ensures n >= 1
  {
    if k == 0 then 1 else 128 * Pow128(k - 1)
  }

  lemma {:induction false} VarintSizeBelow(v: nat, k: nat)
    requires k >= 1
    ensures VarintSize(v) <= k <==> v < Pow128(k)
  {
    if k == 1 {
      assert Pow128(1) == 128 * Pow128(0);
    } else if v >= 128 {
      VarintSizeBelow(v / 128, k - 1);
    } else {
      assert Pow128(k) >= 128;
    }
  }

  /** The limits of the readers: ten bytes hold any 64-bit value, five bytes any 32-bit one. */
  lemma VarintWidths(v: nat)
    ensures v < TWO_64 ==> VarintSize(v) <= 10
    ensures v < TWO_32 ==> VarintSize(v) <= 5
    ensures v >= 0x1000_0000 ==> VarintSize(v) >= 5
  {
    VarintSizeBelow(v, 10);
    VarintSizeBelow(v, 5);
    VarintSizeBelow(v, 4);
    assert Pow128(4) == 0x1000_0000 by { assert Pow128(2) == 0x4000; }
    assert Pow128(5) == 128 * Pow128(4);
    assert Pow128(10) > TWO_64 by {
      assert Pow128(7) == 128 * 128 * Pow128(5);
      assert Pow128(9) == 128 * 128 * Pow128(7);
    }
  }

  /** Sign extension makes every negative number take all ten bytes, an int32 included, and
      only those. */
  lemma TenBytesIffNegative(i: i64)
    ensures VarintSize(FromSigned(i)) == 10 <==> i < 0
  {
    VarintWidths(FromSigned(i));
    VarintSizeBelow(FromSigned(i), 9);
    assert Pow128(9) == TWO_63 by {
      assert Pow128(2) == 0x4000;
      assert Pow128(5) == 128 * 128 * 128 * Pow128(2);
      assert Pow128(7) == 128 * 128 * Pow128(5);
    }
  }

  lemma {:induction false} VarintSizeMonotone(a: nat, b: nat)
    requires a <= b
    ensures VarintSize(a) <= VarintSize(b)
  {
    if b >= 128 {
      VarintSizeMonotone(a / 128, b / 128);
    }
  }

  lemma {:induction false} VarintSizeDouble(a: nat)
    ensures VarintSize(2 * a + 1) <= VarintSize(a) + 1
  {
    if a >= 128 {
      VarintSizeDouble(a / 128);
      VarintSizeMonotone((2 * a + 1) / 128, 2 * (a / 128) + 1);
    } else if 2 * a + 1 >= 128 {
      assert (2 * a + 1) / 128 < 128;
    }
  }

  lemma VarintSizeSum(a: nat, b: nat)
    ensures VarintSize(a + b) <= VarintSize(a) + VarintSize(b)
  {
    var m := if a < b then b else a;
    VarintSizeDouble(m);
    VarintSizeMonotone(a + b, 2 * m + 1);
  }

  // ----- Fixed-width values, little-endian -----

  function EncodeFixed(v: nat, k: nat): (b: bytes)
    ensures |b| == k
  {
    if k == 0 then [] else [v % 256] + EncodeFixed(v / 256, k - 1)
  }

  function DecodeFixed(b: bytes): (v: nat)
    ensures v < Pow256(|b|)
  {
    if b == [] then 0 else b[0] + 256 * DecodeFixed(b[1..])
  }

  function Pow256(k: nat): nat {
    if k == 0 then 1 else 256 * Pow256(k - 1)
  }

  lemma {:induction false} FixedRoundTrip(v: nat, k: nat)
    requires v < Pow256(k)
    ensures DecodeFixed(EncodeFixed(v, k)) == v
  {
    if k > 0 {
      FixedRoundTrip(v / 256, k - 1);
      assert EncodeFixed(v, k)[1..] == EncodeFixed(v / 256, k - 1);
    }
  }

  lemma FixedWidths()
    ensures Pow256(4) == TWO_32 && Pow256(8) == TWO_64
  {
    assert Pow256(2) == 0x1_0000;
    assert Pow256(4) == 0x1_0000 * Pow256(2);
    assert Pow256(6) == 0x1_0000 * Pow256(4);
  }

  // ----- Records -----

  function WireType(p: Payload): (t: nat)
    ensures t < 8
  {
    match p
    case Varint(_) => 0
    case Fixed64(_) => 1
    case Len(_) => 2
    case Fixed32(_) => 5
  }

  function Tag(r: Record): u32 {
    8 * r.number + WireType(r.payload)
  }

  function EncodePayload(p: Payload): bytes {
    match p
    case Varint(v) => EncodeVarint(v)
    case Fixed64(v) => EncodeFixed(v, 8)
    case Len(d) => EncodeVarint(|d|) + d
    case Fixed32(v) => EncodeFixed(v, 4)
  }

  function EncodeRecord(r: Record): bytes {
    EncodeVarint(Tag(r)) + EncodePayload(r.payload)
  }

  function EncodeRecords(rs: seq<Record>): bytes {
    if rs == [] then [] else EncodeRecord(rs[0]) + EncodeRecords(rs[1..])
  }

  /** The reader's own limit on a declared length. */
  predicate Fits(r: Record) {
    r.payload.Len? ==> |r.payload.data| < TWO_31
  }

  predicate AllFit(rs: seq<Record>) {
    forall r <- rs :: Fits(r)
  }

  function ReadTag(b: bytes): (r: Parsed<u32>)
    ensures r.Ok? ==> 1 <= r.size <= |b| && VarintSize(r.value) <= r.size
  {
    match ReadVarint(b, SHORT_VARINT)
    case Fail => Fail
    case Ok(v, n) =>
      VarintSizeMonotone(v % 0x1_0000_0000, v);
      Ok(v % 0x1_0000_0000, n)
  }

  function ReadVarint64(b: bytes): (r: Parsed<u64>)
    ensures r.Ok? ==> 1 <= r.size <= |b| && VarintSize(r.value) <= r.size
  {
    match ReadVarint(b, LONG_VARINT)
    case Fail => Fail
    case Ok(v, n) =>
      VarintSizeMonotone(v % 0x1_0000_0000_0000_0000, v);
      Ok(v % 0x1_0000_0000_0000_0000, n)
  }

  /** A length-delimited payload: the declared length must lie inside the buffer. */
  function ReadLen(b: bytes): (r: Parsed<bytes>)
    ensures r.Ok? ==> |r.value| < TWO_31 && |r.value| + VarintSize(|r.value|) <= r.size <= |b|
    ensures r.Ok? ==> r.value == b[r.size - |r.value|..r.size]
  {
    match ReadVarint(b, SHORT_VARINT)
    case Fail => Fail
    case Ok(v, n) => if v < TWO_31 && v <= |b| - n then Ok(b[n..n + v], n + v) else Fail
  }

  function ReadFixed32(b: bytes): (r: Parsed<u32>)
    ensures r.Ok? ==> r.size == 4 <= |b|
  {
    FixedWidths();
    if |b| < 4 then Fail else Ok(DecodeFixed(b[..4]), 4)
  }

  function ReadFixed64(b: bytes): (r: Parsed<u64>)
    ensures r.Ok? ==> r.size == 8 <= |b|
  {
    FixedWidths();
    if |b| < 8 then Fail else Ok(DecodeFixed(b[..8]), 8)
  }

  /** Groups (wire types 3 and 4) and the unassigned wire types are rejected. */
  function ReadPayload(wireType: nat, b: bytes): (r: Parsed<Payload>)
    ensures r.Ok? ==> r.size <= |b| && |EncodePayload(r.value)| <= r.size && WireType(r.value) == wireType
    ensures r.Ok? && r.value.Len? ==> |r.value.data| < TWO_31
  {
    match wireType
    case 0 => (match ReadVarint64(b) case Fail => Fail case Ok(v, n) => Ok(Varint(v), n))
    case 1 => (match ReadFixed64(b) case Fail => Fail case Ok(v, n) => Ok(Fixed64(v), n))
    case 2 => (match ReadLen(b) case Fail => Fail case Ok(d, n) => Ok(Len(d), n))
    case 5 => (match ReadFixed32(b) case Fail => Fail case Ok(v, n) => Ok(Fixed32(v), n))
    case _ => Fail
  }

  /** The record whose tag has just been read. Field number 0 is illegal. */
  function ReadTagged(tag: u32, b: bytes): (r: Parsed<Record>)
    ensures r.Ok? ==> r.size <= |b| && Tag(r.value) == tag && |EncodePayload(r.value.payload)| <= r.size && Fits(r.value)
  {
    if tag / 8 == 0 then Fail
    else
      match ReadPayload(tag % 8, b)
      case Fail => Fail
      case Ok(p, n) => Ok(Record(tag / 8, p), n)
  }

  function ReadRecord(b: bytes): (r: Parsed<Record>)
    ensures r.Ok? ==> 1 <= r.size <= |b| && |EncodeRecord(r.value)| <= r.size && Fits(r.value)
  {
    match ReadTag(b)
    case Fail => Fail
    case Ok(tag, n) =>
      match ReadTagged(tag, b[n..])
      case Fail => Fail
      case Ok(r, k) => Ok(r, n + k)
  }

  function ReadRecords(b: bytes): Option<seq<Record>> {
    if b == [] then Some([])
    else
      match ReadRecord(b)
      case Fail => None
      case Ok(r, n) =>
        match ReadRecords(b[n..])
        case None => None
        case Some(rs) => Some([r] + rs)
  }

  /** What is read obeys the length limit and never needs more bytes than it was read from. */
  lemma {:induction false} ReadRecordsCanonical(b: bytes)
    requires ReadRecords(b).Some?
    ensures AllFit(ReadRecords(b).value) && |EncodeRecords(ReadRecords(b).value)| <= |b|
  {
    if b != [] {
      var r := ReadRecord(b);
      ReadRecordsCanonical(b[r.size..]);
      assert ReadRecords(b).value[1..] == ReadRecords(b[r.size..]).value;
    }
  }

  // ----- The printer and the reader undo each other -----

  lemma LenRoundTrip(d: bytes, rest: bytes)
    requires |d| < TWO_31
    ensures ReadLen(EncodeVarint(|d|) + d + rest) == Ok(d, VarintSize(|d|) + |d|)
  {
    var b, n := EncodeVarint(|d|) + d + rest, VarintSize(|d|);
    VarintWidths(|d|);
    VarintRoundTrip(|d|, d + rest, SHORT_VARINT);
    Assoc(EncodeVarint(|d|), d, rest);
    assert b[n..n + |d|] == d;
  }

  lemma Fixed32RoundTrip(v: u32, rest: bytes)
    ensures ReadFixed32(EncodeFixed(v, 4) + rest) == Ok(v, 4)
  {
    FixedWidths();
    FixedRoundTrip(v, 4);
    assert (EncodeFixed(v, 4) + rest)[..4] == EncodeFixed(v, 4);
  }

  lemma Fixed64RoundTrip(v: u64, rest: bytes)
    ensures ReadFixed64(EncodeFixed(v, 8) + rest) == Ok(v, 8)
  {
    FixedWidths();
    FixedRoundTrip(v, 8);
    assert (EncodeFixed(v, 8) + rest)[..8] == EncodeFixed(v, 8);
  }

  lemma PayloadRoundTrip(p: Payload, rest: bytes)
    requires p.Len? ==> |p.data| < TWO_31
    ensures ReadPayload(WireType(p), EncodePayload(p) + rest) == Ok(p, |EncodePayload(p)|)
  {
    match p
    case Varint(v) =>
      VarintWidths(v);
      VarintRoundTrip(v, rest, LONG_VARINT);
    case Fixed64(v) => Fixed64RoundTrip(v, rest);
    case Len(d) => LenRoundTrip(d, rest);
    case Fixed32(v) => Fixed32RoundTrip(v, rest);
  }

  /** A printed tag is read back, and splits into the number and the wire type it was made of. */
  lemma TagRoundTrip(r: Record, rest: bytes)
    ensures var tag := Tag(r);
            && ReadTag(EncodeVarint(tag) + rest) == Ok(tag, VarintSize(tag))
            && tag / 8 == r.number && tag % 8 == WireType(r.payload)
  {
    hide EncodeVarint, ReadVarint, VarintSize;
    var tag := Tag(r);
    VarintWidths(tag);
    VarintRoundTrip(tag, rest, SHORT_VARINT);
  }

  lemma RecordRoundTrip(r: Record, rest: bytes)
    requires Fits(r)
    ensures ReadRecord(EncodeRecord(r) + rest) == Ok(r, |EncodeRecord(r)|)
  {
    var tag := Tag(r);
    TagRoundTrip(r, EncodePayload(r.payload) + rest);
    DropPrefix(EncodeVarint(tag), EncodePayload(r.payload) + rest);
    Assoc(EncodeVarint(tag), EncodePayload(r.payload), rest);
    PayloadRoundTrip(r.payload, rest);
  }

  /** Reading back what was printed gives the printed records, in order. */
  lemma {:induction false} RecordsRoundTrip(rs: seq<Record>)
    requires AllFit(rs)
    ensures ReadRecords(EncodeRecords(rs)) == Some(rs)
  {
    if rs != [] {
      RecordsRoundTrip(rs[1..]);
      RecordRoundTrip(rs[0], EncodeRecords(rs[1..]));
      DropPrefix(EncodeRecord(rs[0]), EncodeRecords(rs[1..]));
      HeadTail(rs);
    }
  }

  lemma {:induction false} EncodeRecordsConcat(a: seq<Record>, b: seq<Record>)
    ensures EncodeRecords(a + b) == EncodeRecords(a) + EncodeRecords(b)
  {
    if a == [] {
      assert a + b == b;
    } else {
      EncodeRecordsConcat(a[1..], b);
      TailOfConcat(a, b);
      Assoc(EncodeRecord(a[0]), EncodeRecords(a[1..]), EncodeRecords(b));
    }
  }

  // ----- Streams concatenate -----

  lemma ReadPayloadExtends(wireType: nat, b: bytes, rest: bytes)
    requires ReadPayload(wireType, b).Ok?
    ensures ReadPayload(wireType, b + rest) == ReadPayload(wireType, b)
  {
    match wireType
    case 0 => ReadVarintExtends(b, rest, LONG_VARINT);
    case 1 => SliceInside(b, rest, 0, 8);
    case 2 =>
      ReadVarintExtends(b, rest, SHORT_VARINT);
      var v := ReadVarint(b, SHORT_VARINT);
      SliceInside(b, rest, v.size, v.size + v.value);
    case 5 => SliceInside(b, rest, 0, 4);
    case _ =>
  }

  lemma ReadRecordExtends(b: bytes, rest: bytes)
    requires ReadRecord(b).Ok?
    ensures ReadRecord(b + rest) == ReadRecord(b)
  {
    ReadVarintExtends(b, rest, SHORT_VARINT);
    var t := ReadTag(b);
    DropInside(b, rest, t.size);
    ReadPayloadExtends(t.value % 8, b[t.size..], rest);
  }

  /** `first`, when both are well-formed, followed by `second`. */
  function Joined(first: Option<seq<Record>>, second: Option<seq<Record>>): Option<seq<Record>> {
    if first.Some? && second.Some? then Some(first.value + second.value) else None
  }

  lemma ReadRecordsStep(b: bytes, rest: bytes)
    requires ReadRecord(b).Ok?
    ensures ReadRecords(b + rest) == Joined(Some([ReadRecord(b).value]), ReadRecords(b[ReadRecord(b).size..] + rest))
  {
    ReadRecordExtends(b, rest);
    DropInside(b, rest, ReadRecord(b).size);
  }

  lemma JoinedAssoc(a: Option<seq<Record>>, b: Option<seq<Record>>, c: Option<seq<Record>>)
    ensures Joined(Joined(a, b), c) == Joined(a, Joined(b, c))
  {
    if a.Some? && b.Some? && c.Some? {
      Assoc(a.value, b.value, c.value);
    }
  }

  /** A well-formed stream followed by another reads as the two record lists joined. */
  lemma {:induction false} ReadRecordsConcat(a: bytes, b: bytes)
    requires ReadRecords(a).Some?
    ensures ReadRecords(a + b) == Joined(ReadRecords(a), ReadRecords(b))
  {
    if a == [] {
      assert a + b == b;
      if ReadRecords(b).Some? {
        Empty(ReadRecords(b).value);
      }
    } else {
      var first, rest := ReadRecord(a), a[ReadRecord(a).size..];
      ReadRecordsStep(a, b);
      ReadRecordsConcat(rest, b);
      assert ReadRecords(a) == Joined(Some([first.value]), ReadRecords(rest));
      JoinedAssoc(Some([first.value]), ReadRecords(rest), ReadRecords(b));
    }
  }
}
