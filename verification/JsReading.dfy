/** How a JavaScript reader loop goes through a range of bytes: record by record, as the C++
    loop does, but an end-group tag ends the message early and quietly where it makes the C++
    parse fail. */
module JsReading {
  import opened Options
  import opened Sequences
  import opened Wire
  import opened Messages
  import opened Codec

  predicate EndsGroup(tag: u32) {
    tag % 8 == 4
  }

  /** The records before the end of the range or the first end-group tag. */
  function JsStream(b: bytes): Option<seq<Record>> {
    if b == [] then Some([])
    else
      match ReadTag(b)
      case Fail => None
      case Ok(tag, n) =>
        if EndsGroup(tag) then Some([])
        else
          match ReadTagged(tag, b[n..])
          case Fail => None
          case Ok(r, k) =>
            match JsStream(b[n..][k..])
            case None => None
            case Some(rs) => Some([r] + rs)
  }

  /** Reads `b` on top of what `m` already holds; None when the reader throws. */
  function JsInto<M>(apply: (M, Record) -> Option<M>, m: M, b: bytes): Option<M> {
    match JsStream(b)
    case None => None
    case Some(rs) => Fold(apply, m, rs)
  }

  /** What is left to read once a tag has been read. */
  ghost function JsTagged<M>(apply: (M, Record) -> Option<M>, m: M, tag: u32, b: bytes): Option<M> {
    match ReadTagged(tag, b)
    case Fail => None
    case Ok(r, n) =>
      match apply(m, r)
      case None => None
      case Some(m') => JsInto(apply, m', b[n..])
  }

  /** Every stream that C++ accepts is the same stream in JavaScript. */
  lemma {:induction false} StreamsAgree(b: bytes)
    requires ReadRecords(b).Some?
    ensures JsStream(b) == ReadRecords(b)
  {
    hide EncodeVarint, VarintSize, EncodePayload;
    if b != [] {
      var tag, n := ReadTag(b).value, ReadTag(b).size;
      var k := ReadTagged(tag, b[n..]).size;
      assert b[n..][k..] == b[n + k..];
      StreamsAgree(b[n + k..]);
    }
  }

  lemma IntoAgrees<M>(apply: (M, Record) -> Option<M>, m: M, b: bytes)
    requires ReadRecords(b).Some?
    ensures JsInto(apply, m, b) == ParseInto(apply, m, b)
  {
    StreamsAgree(b);
  }

  lemma JsEmpty<M>(apply: (M, Record) -> Option<M>, m: M)
    ensures JsInto(apply, m, []) == Some(m)
  {
  }

  lemma JsStep<M>(apply: (M, Record) -> Option<M>, m: M, b: bytes, tag: u32, n: nat)
    requires b != [] && ReadTag(b) == Ok(tag, n)
    ensures JsInto(apply, m, b) == if EndsGroup(tag) then Some(m) else JsTagged(apply, m, tag, b[n..])
  {
    hide ReadTag, ReadTagged;
    if !EndsGroup(tag) && ReadTagged(tag, b[n..]).Ok? {
      var r, k := ReadTagged(tag, b[n..]).value, ReadTagged(tag, b[n..]).size;
      if JsStream(b[n..][k..]).Some? {
        var rs := JsStream(b).value;
        assert rs[0] == r && rs[1..] == JsStream(b[n..][k..]).value;
      }
    }
  }

  /** One turn of a reader's loop. */
  lemma JsHeader<M>(apply: (M, Record) -> Option<M>, m: M, buf: bytes, ptr: nat, limit: nat)
    requires ptr < limit <= |buf|
    ensures match ReadTag(buf[ptr..limit])
            case Fail => JsInto(apply, m, buf[ptr..limit]) == None
            case Ok(tag, n) =>
              && ptr + n <= limit
              && JsInto(apply, m, buf[ptr..limit]) ==
                 if EndsGroup(tag) then Some(m) else JsTagged(apply, m, tag, buf[ptr + n..limit])
  {
    hide ReadTagged, EndsGroup, JsTagged;
    match ReadTag(buf[ptr..limit])
    case Fail =>
    case Ok(tag, n) =>
      RangeTail(buf, ptr, limit, n);
      JsStep(apply, m, buf[ptr..limit], tag, n);
  }

  /** The rest of a message after the record `r` ending at `ptr`. */
  ghost function JsContinue<M>(apply: (M, Record) -> Option<M>, m: M, r: Record, buf: bytes, ptr: nat, limit: nat): Option<M>
    requires ptr <= limit <= |buf|
  {
    if apply(m, r).Some? then JsInto(apply, apply(m, r).value, buf[ptr..limit]) else None
  }

  lemma JsBody<M>(apply: (M, Record) -> Option<M>, m: M, tag: u32, buf: bytes, ptr: nat, limit: nat)
    requires ptr <= limit <= |buf|
    ensures match ReadTagged(tag, buf[ptr..limit])
            case Fail => JsTagged(apply, m, tag, buf[ptr..limit]) == None
            case Ok(r, n) =>
              && ptr + n <= limit
              && JsTagged(apply, m, tag, buf[ptr..limit]) == JsContinue(apply, m, r, buf, ptr + n, limit)
  {
    hide ReadTagged, JsInto;
    var r := ReadTagged(tag, buf[ptr..limit]);
    if r.Ok? {
      RangeTail(buf, ptr, limit, r.size);
    }
  }

  /** How the payload is read for each wire type, given the tag. */
  lemma JsLenBody<M>(apply: (M, Record) -> Option<M>, m: M, number: FieldNumber, buf: bytes, ptr: nat, limit: nat)
    requires ptr <= limit <= |buf| && number < 16
    ensures match ReadLen(buf[ptr..limit])
            case Fail => JsTagged(apply, m, 8 * number + 2, buf[ptr..limit]) == None
            case Ok(d, n) =>
              && ptr + n <= limit
              && JsTagged(apply, m, 8 * number + 2, buf[ptr..limit]) ==
                 JsContinue(apply, m, Record(number, Len(d)), buf, ptr + n, limit)
  {
    hide JsTagged, JsContinue, EncodePayload;
    JsBody(apply, m, 8 * number + 2, buf, ptr, limit);
  }

  lemma JsVarintBody<M>(apply: (M, Record) -> Option<M>, m: M, number: FieldNumber, buf: bytes, ptr: nat, limit: nat)
    requires ptr <= limit <= |buf| && number < 16
    ensures match ReadVarint64(buf[ptr..limit])
            case Fail => JsTagged(apply, m, 8 * number, buf[ptr..limit]) == None
            case Ok(v, n) =>
              && ptr + n <= limit
              && JsTagged(apply, m, 8 * number, buf[ptr..limit]) ==
                 JsContinue(apply, m, Record(number, Varint(v)), buf, ptr + n, limit)
  {
    hide JsTagged, JsContinue, EncodePayload;
    JsBody(apply, m, 8 * number, buf, ptr, limit);
  }

  lemma JsFixedBody<M>(apply: (M, Record) -> Option<M>, m: M, number: FieldNumber, buf: bytes, ptr: nat, limit: nat)
    requires ptr <= limit <= |buf| && number < 16
    ensures match ReadFixed32(buf[ptr..limit])
            case Fail => JsTagged(apply, m, 8 * number + 5, buf[ptr..limit]) == None
            case Ok(v, n) =>
              && ptr + n <= limit
              && JsTagged(apply, m, 8 * number + 5, buf[ptr..limit]) ==
                 JsContinue(apply, m, Record(number, Fixed32(v)), buf, ptr + n, limit)
    ensures match ReadFixed64(buf[ptr..limit])
            case Fail => JsTagged(apply, m, 8 * number + 1, buf[ptr..limit]) == None
            case Ok(v, n) =>
              && ptr + n <= limit
              && JsTagged(apply, m, 8 * number + 1, buf[ptr..limit]) ==
                 JsContinue(apply, m, Record(number, Fixed64(v)), buf, ptr + n, limit)
  {
    hide JsTagged, JsContinue, EncodePayload, DecodeFixed;
    JsBody(apply, m, 8 * number + 5, buf, ptr, limit);
    JsBody(apply, m, 8 * number + 1, buf, ptr, limit);
  }

  /** A known field number with another wire type makes the reader throw. */
  lemma WrongType<M>(apply: (M, Record) -> Option<M>, m: M, tag: u32, b: bytes)
    requires forall r: Record :: Tag(r) == tag ==> apply(m, r) == None
    ensures JsTagged(apply, m, tag, b) == None
  {
  }

  /** The same single byte: C++ refuses it, JavaScript takes it for an empty message. */
  lemma EndGroupEndsQuietly<M>(apply: (M, Record) -> Option<M>, m: M)
    ensures ParseInto(apply, m, [0x0C]) == None && JsInto(apply, m, [0x0C]) == Some(m)
  {
    assert ReadVarint([0x0C], SHORT_VARINT) == Ok(0x0C, 1);
    assert ReadTag([0x0C]) == Ok(0x0C, 1);
    JsStep(apply, m, [0x0C], 0x0C, 1);
  }
}
