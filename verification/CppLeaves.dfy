/** The C++ classes without sub-messages: PhoneNumber, and the Timestamp that Person embeds.
    Their fields are parsed into, merged, cleared and printed in place; every method is proved
    against the values and functions of Messages. */
module CppLeaves {
  import opened Options
  import opened Sequences
  import opened Wire
  import opened Scalars
  import opened Codec
  import opened Printing
  import opened ParseCases
  import opened CppRuntime
  import M = Messages

  class PhoneNumber {
    var number: bytes
    var kind: i32
    var unknown: seq<Record>
    var cachedSize: i32

    ghost function Value(): M.PhoneNumber
      reads this`number, this`kind, this`unknown
    {
      M.PhoneNumber(number, kind, unknown)
    }

    ghost predicate Cached()
      reads this
    {
      cachedSize == ToCachedSize(|M.PhoneBytes(Value())|)
    }

    constructor ()
      ensures Value() == M.NO_PHONE
    {
      number, kind, unknown, cachedSize := [], 0, [], 0;
    }

    method Clear()
      modifies this
      ensures Value() == M.NO_PHONE
    {
      number, kind, unknown := [], 0, [];
    }

    method InternalParse(buf: bytes, start: nat, limit: nat) returns (outcome: Outcome, ptr: nat)
      requires start <= limit <= |buf|
      modifies this
      ensures Agrees(outcome, M.ParseInto(M.ApplyPhone, old(Value()), buf[start..limit]), Value())
      ensures start <= ptr <= limit && (outcome.Done? ==> ptr == limit)
    {
      hide M.ParseInto, ParseTagged, ReadTag, ReadTagged, ReadLen, ReadVarint64, EncodePayload, ValidUtf8;
      ghost var expected := M.ParseInto(M.ApplyPhone, Value(), buf[start..limit]);
      ptr := start;
      while ptr < limit
        invariant start <= ptr <= limit
        invariant M.ParseInto(M.ApplyPhone, Value(), buf[ptr..limit]) == expected
      {
        ParseHeader(M.ApplyPhone, Value(), buf, ptr, limit);
        var tag;
        match ReadTag(buf[ptr..limit]) {
          case Fail => return Failed, ptr;
          case Ok(t, n) => tag, ptr := t, ptr + n;
        }
        if tag / 8 == 1 && tag % 256 == 10 {
          LenBody(M.ApplyPhone, Value(), 1, buf, ptr, limit);
          match ReadText(buf[ptr..limit]) {
            case Fail => return Failed, ptr;
            case Ok(text, n) => number, ptr := text, ptr + n;
          }
        } else if tag / 8 == 2 && tag % 256 == 16 {
          VarintBody(M.ApplyPhone, Value(), 2, buf, ptr, limit);
          match ReadVarint64(buf[ptr..limit]) {
            case Fail => return Failed, ptr;
            case Ok(v, n) => kind, ptr := ToI32(v), ptr + n;
          }
        } else if tag % 8 == 4 || tag == 0 {
          EndTagFails(M.ApplyPhone, Value(), tag, buf[ptr..limit]);
          return Stopped(tag), ptr;
        } else {
          ParseBody(M.ApplyPhone, Value(), tag, buf, ptr, limit);
          match ReadTagged(tag, buf[ptr..limit]) {
            case Fail => return Failed, ptr;
            case Ok(r, n) => unknown, ptr := unknown + [r], ptr + n;
          }
        }
      }
      EmptyParse(M.ApplyPhone, Value());
      assert buf[ptr..limit] == [];
      return Done, ptr;
    }

    /** Reads a length and parses exactly that many bytes. */
    method ParseMessage(buf: bytes, start: nat, limit: nat) returns (ok: bool, ptr: nat)
      requires start <= limit <= |buf|
      modifies this
      ensures var len := ReadLen(buf[start..limit]);
              if ok then len.Ok? && ptr == start + len.size && M.ParseInto(M.ApplyPhone, old(Value()), len.value) == Some(Value())
              else len.Fail? || M.ParseInto(M.ApplyPhone, old(Value()), len.value) == None
    {
      hide ReadLen, M.ParseInto;
      match ReadLen(buf[start..limit])
      case Fail => return false, start;
      case Ok(d, n) =>
        LenRange(buf, start, limit);
        var outcome, p := InternalParse(buf, start + n - |d|, start + n);
        return outcome.Done?, p;
    }

    method ByteSizeLong() returns (total: nat)
      modifies this`cachedSize
      ensures total == |M.PhoneBytes(Value())| && Cached()
    {
      PhoneSize(Value());
      total := 0;
      if |number| > 0 {
        OneRecord(Record(1, Len(number)));
        LenSize(1, number);
        total := total + 1 + (VarintSize(|number|) + |number|);
      }
      if kind != 0 {
        OneRecord(Record(2, Varint(FromSigned(kind))));
        total := total + 1 + VarintSize(FromSigned(kind));
      }
      total := total + |EncodeRecords(unknown)|;
      cachedSize := ToCachedSize(total);
    }

    method InternalSerialize(out: OutputStream)
      modifies out
      ensures out.data == old(out.data) + M.PhoneBytes(Value())
    {
      ghost var begin := out.data;
      if |number| > 0 {
        out.WriteRecord(Record(1, Len(number)));
        OneRecord(Record(1, Len(number)));
      }
      Empty(begin);
      assert out.data == begin + EncodeRecords(M.TextField(1, number));
      if kind != 0 {
        out.WriteRecord(Record(2, Varint(FromSigned(kind))));
        OneRecord(Record(2, Varint(FromSigned(kind))));
      }
      Printed(begin, M.TextField(1, number), M.IntField(2, kind));
      assert out.data == begin + EncodeRecords(M.TextField(1, number) + M.IntField(2, kind));
      out.WriteUnknown(unknown);
      Printed(begin, M.TextField(1, number) + M.IntField(2, kind), unknown);
    }

    method MergeFrom(from: PhoneNumber)
      requires from != this
      modifies this
      ensures Value() == M.MergePhone(old(Value()), from.Value())
    {
      unknown := unknown + from.unknown;
      if |from.number| > 0 { number := from.number; }
      if from.kind != 0 { kind := from.kind; }
    }

    method CopyFrom(from: PhoneNumber)
      modifies this
      ensures Value() == old(from.Value()) && from.Value() == old(from.Value())
    {
      if from == this { return; }
      Clear();
      MergeFrom(from);
      Empty(from.unknown);
    }
  }

  class Timestamp {
    var seconds: i64
    var nanos: i32
    var unknown: seq<Record>
    var cachedSize: i32

    ghost function Value(): M.Timestamp
      reads this`seconds, this`nanos, this`unknown
    {
      M.Timestamp(seconds, nanos, unknown)
    }

    ghost predicate Cached()
      reads this
    {
      cachedSize == ToCachedSize(|M.TimeBytes(Value())|)
    }

    constructor ()
      ensures Value() == M.NO_TIME
    {
      seconds, nanos, unknown, cachedSize := 0, 0, [], 0;
    }

    constructor Copy(from: Timestamp)
      ensures Value() == from.Value()
    {
      seconds, nanos, unknown, cachedSize := from.seconds, from.nanos, from.unknown, 0;
    }

    method Clear()
      modifies this
      ensures Value() == M.NO_TIME
    {
      seconds, nanos, unknown := 0, 0, [];
    }

    method InternalParse(buf: bytes, start: nat, limit: nat) returns (outcome: Outcome, ptr: nat)
      requires start <= limit <= |buf|
      modifies this
      ensures Agrees(outcome, M.ParseInto(M.ApplyTime, old(Value()), buf[start..limit]), Value())
      ensures start <= ptr <= limit && (outcome.Done? ==> ptr == limit)
    {
      hide M.ParseInto, ParseTagged, ReadTag, ReadTagged, ReadVarint64, EncodePayload;
      ghost var expected := M.ParseInto(M.ApplyTime, Value(), buf[start..limit]);
      ptr := start;
      while ptr < limit
        invariant start <= ptr <= limit
        invariant M.ParseInto(M.ApplyTime, Value(), buf[ptr..limit]) == expected
      {
        ParseHeader(M.ApplyTime, Value(), buf, ptr, limit);
        var tag;
        match ReadTag(buf[ptr..limit]) {
          case Fail => return Failed, ptr;
          case Ok(t, n) => tag, ptr := t, ptr + n;
        }
        if tag / 8 == 1 && tag % 256 == 8 {
          VarintBody(M.ApplyTime, Value(), 1, buf, ptr, limit);
          match ReadVarint64(buf[ptr..limit]) {
            case Fail => return Failed, ptr;
            case Ok(v, n) => seconds, ptr := ToI64(v), ptr + n;
          }
        } else if tag / 8 == 2 && tag % 256 == 16 {
          VarintBody(M.ApplyTime, Value(), 2, buf, ptr, limit);
          match ReadVarint64(buf[ptr..limit]) {
            case Fail => return Failed, ptr;
            case Ok(v, n) => nanos, ptr := ToI32(v), ptr + n;
          }
        } else if tag % 8 == 4 || tag == 0 {
          EndTagFails(M.ApplyTime, Value(), tag, buf[ptr..limit]);
          return Stopped(tag), ptr;
        } else {
          ParseBody(M.ApplyTime, Value(), tag, buf, ptr, limit);
          match ReadTagged(tag, buf[ptr..limit]) {
            case Fail => return Failed, ptr;
            case Ok(r, n) => unknown, ptr := unknown + [r], ptr + n;
          }
        }
      }
      EmptyParse(M.ApplyTime, Value());
      assert buf[ptr..limit] == [];
      return Done, ptr;
    }

    /** Reads a length and parses exactly that many bytes. */
    method ParseMessage(buf: bytes, start: nat, limit: nat) returns (ok: bool, ptr: nat)
      requires start <= limit <= |buf|
      modifies this
      ensures var len := ReadLen(buf[start..limit]);
              if ok then len.Ok? && ptr == start + len.size && M.ParseInto(M.ApplyTime, old(Value()), len.value) == Some(Value())
              else len.Fail? || M.ParseInto(M.ApplyTime, old(Value()), len.value) == None
    {
      hide ReadLen, M.ParseInto;
      match ReadLen(buf[start..limit])
      case Fail => return false, start;
      case Ok(d, n) =>
        LenRange(buf, start, limit);
        var outcome, p := InternalParse(buf, start + n - |d|, start + n);
        return outcome.Done?, p;
    }

    method ByteSizeLong() returns (total: nat)
      modifies this`cachedSize
      ensures total == |M.TimeBytes(Value())| && Cached()
    {
      TimeSize(Value());
      total := 0;
      if seconds != 0 {
        OneRecord(Record(1, Varint(FromSigned(seconds))));
        total := total + 1 + VarintSize(FromSigned(seconds));
      }
      if nanos != 0 {
        OneRecord(Record(2, Varint(FromSigned(nanos))));
        total := total + 1 + VarintSize(FromSigned(nanos));
      }
      total := total + |EncodeRecords(unknown)|;
      cachedSize := ToCachedSize(total);
    }

    method InternalSerialize(out: OutputStream)
      modifies out
      ensures out.data == old(out.data) + M.TimeBytes(Value())
    {
      ghost var begin := out.data;
      if seconds != 0 {
        out.WriteRecord(Record(1, Varint(FromSigned(seconds))));
        OneRecord(Record(1, Varint(FromSigned(seconds))));
      }
      Empty(begin);
      assert out.data == begin + EncodeRecords(M.IntField(1, seconds));
      if nanos != 0 {
        out.WriteRecord(Record(2, Varint(FromSigned(nanos))));
        OneRecord(Record(2, Varint(FromSigned(nanos))));
      }
      Printed(begin, M.IntField(1, seconds), M.IntField(2, nanos));
      assert out.data == begin + EncodeRecords(M.IntField(1, seconds) + M.IntField(2, nanos));
      out.WriteUnknown(unknown);
      Printed(begin, M.IntField(1, seconds) + M.IntField(2, nanos), unknown);
    }

    method MergeFrom(from: Timestamp)
      requires from != this
      modifies this
      ensures Value() == M.MergeTime(old(Value()), from.Value())
    {
      unknown := unknown + from.unknown;
      if from.seconds != 0 { seconds := from.seconds; }
      if from.nanos != 0 { nanos := from.nanos; }
    }

    method CopyFrom(from: Timestamp)
      modifies this
      ensures Value() == old(from.Value()) && from.Value() == old(from.Value())
    {
      if from == this { return; }
      Clear();
      MergeFrom(from);
      Empty(from.unknown);
    }
  }
}
