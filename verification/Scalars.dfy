/** Text and floating-point values as they appear on the wire: UTF-8 byte strings and
    IEEE 754 bit patterns. */
module Scalars {
  import opened Wire

  // ----- UTF-8 (section 4 of RFC 3629) -----

  predicate Continuation(x: byte) {
    0x80 <= x < 0xC0
  }

  /** The length of the encoded character at the front of `b`, or 0 if there is none. */
  function CharacterLength(b: bytes): (n: nat)
    requires b != []
    ensures n <= |b|
  {
    var x := b[0];
    if x < 0x80 then 1
    else if 0xC2 <= x < 0xE0 && |b| >= 2 && Continuation(b[1]) then 2
    else if 0xE0 <= x < 0xF0 && |b| >= 3 && Continuation(b[1]) && Continuation(b[2])
            && (x == 0xE0 ==> b[1] >= 0xA0) && (x == 0xED ==> b[1] < 0xA0) then 3
    else if 0xF0 <= x < 0xF5 && |b| >= 4 && Continuation(b[1]) && Continuation(b[2]) && Continuation(b[3])
            && (x == 0xF0 ==> b[1] >= 0x90) && (x == 0xF4 ==> b[1] < 0x90) then 4
    else 0
  }

  predicate ValidUtf8(b: bytes)
    decreases |b|
  {
    b == [] || (CharacterLength(b) > 0 && ValidUtf8(b[CharacterLength(b)..]))
  }

  /** A length-delimited string field, rejected when it is not UTF-8. */
  function ReadText(b: bytes): (r: Parsed<bytes>)
    ensures r.Ok? ==> r.size <= |b|
  {
    match ReadLen(b)
    case Fail => Fail
    case Ok(text, n) => if ValidUtf8(text) then Ok(text, n) else Fail
  }

  // ----- IEEE 754 patterns -----

  function Magnitude32(bits: u32): u32 { bits % 0x8000_0000 }
  function Magnitude64(bits: u64): u64 { bits % 0x8000_0000_0000_0000 }
  predicate IsNaN32(bits: u32) { Magnitude32(bits) > 0x7F80_0000 }
  predicate IsNaN64(bits: u64) { Magnitude64(bits) > 0x7FF0_0000_0000_0000 }

  // Comparisons with zero: both are false of a NaN, and both signed zeros equal zero.

  predicate AtMostZero32(bits: u32) {
    !IsNaN32(bits) && (bits >= TWO_31 || Magnitude32(bits) == 0)
  }

  predicate AtLeastZero32(bits: u32) {
    !IsNaN32(bits) && (bits < TWO_31 || Magnitude32(bits) == 0)
  }

  predicate AtMostZero64(bits: u64) {
    !IsNaN64(bits) && (bits >= TWO_63 || Magnitude64(bits) == 0)
  }

  predicate AtLeastZero64(bits: u64) {
    !IsNaN64(bits) && (bits < TWO_63 || Magnitude64(bits) == 0)
  }

  /** The C++ presence test of a float: not (x <= 0 and x >= 0). */
  predicate Present32(bits: u32)
    ensures Present32(bits) <==> bits != 0 && bits != TWO_31
  {
    !(AtMostZero32(bits) && AtLeastZero32(bits))
  }

  predicate Present64(bits: u64)
    ensures Present64(bits) <==> bits != 0 && bits != TWO_63
  {
    !(AtMostZero64(bits) && AtLeastZero64(bits))
  }
}
