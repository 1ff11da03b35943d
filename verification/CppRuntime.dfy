/** What the C++ message classes share: parse outcomes, the size cache, and the output stream. */
module CppRuntime {
  import opened Options
  import opened Sequences
  import opened Wire
  import opened Codec

  /** How a parse loop ends. `Stopped` is the early exit on an end-group tag or a zero tag,
      which the caller rejects because the message did not end at its limit. */
  datatype Outcome = Failed | Stopped(lastTag: u32) | Done

  /** Parsed outcome against the specification of the remaining input. */
  ghost predicate Agrees<T>(outcome: Outcome, expected: Option<T>, actual: T) {
    if outcome.Done? then expected == Some(actual) else expected == None
  }

  /** The conversion of a size_t to the int kept in the size cache. */
  function ToCachedSize(size: nat): i32 {
    ToI32(size % 0x1_0000_0000_0000_0000)
  }

  /** The bytes written for a cached size used as a length prefix. */
  function CachedPrefix(cached: i32): bytes {
    EncodeVarint(if cached < 0 then cached + TWO_32 else cached)
  }

  lemma CachedSizeExact(size: nat)
    requires size < TWO_31
    ensures ToCachedSize(size) == size
  {
  }

  lemma CachedPrefixExact(size: nat)
    requires size < TWO_31
    ensures CachedPrefix(ToCachedSize(size)) == EncodeVarint(size)
  {
    hide EncodeVarint, VarintSize, ToCachedSize;
    CachedSizeExact(size);
  }

  /** An embedded message: tag, cached size, contents. */
  lemma EmbeddedRecord(before: bytes, number: FieldNumber, cached: i32, d: bytes)
    requires number < 16 && |d| < TWO_31 && cached == ToCachedSize(|d|)
    ensures before + EncodeVarint(8 * number + 2) + CachedPrefix(cached) + d == before + EncodeRecord(Record(number, Len(d)))
  {
    hide EncodeVarint, VarintSize, ToCachedSize, CachedPrefix;
    CachedPrefixExact(|d|);
    var tag, prefix := EncodeVarint(8 * number + 2), EncodeVarint(|d|);
    Assoc(before, tag, prefix);
    Assoc(before, tag + prefix, d);
    Assoc(tag, prefix, d);
  }

  /** The stream a message is printed to. */
  class OutputStream {
    var data: bytes

    constructor ()
      ensures data == []
    {
      data := [];
    }

    method WriteRaw(b: bytes)
      modifies this
      ensures data == old(data) + b
    {
      data := data + b;
    }

    method WriteRecord(r: Record)
      modifies this
      ensures data == old(data) + EncodeRecord(r)
    {
      data := data + EncodeRecord(r);
    }

    method WriteUnknown(us: seq<Record>)
      modifies this
      ensures data == old(data) + EncodeRecords(us)
    {
      for i := 0 to |us|
        invariant data == old(data) + EncodeRecords(us[..i])
      {
        WriteRecord(us[i]);
        assert us[..i + 1] == us[..i] + [us[i]];
        EncodeRecordsConcat(us[..i], [us[i]]);
        OneRecord(us[i]);
        Assoc(old(data), EncodeRecords(us[..i]), EncodeRecord(us[i]));
      }
      assert us[..|us|] == us;
    }
  }
}
