/** Which byte strings the text check accepts: exactly the code points written one after the
    other, each in the one to four bytes that section 3 of RFC 3629 gives it. */
module Utf8 {
  import opened Sequences
  import opened Wire
  import opened Scalars

  /** Unicode's scalar values: surrogates are not among them. */
  type CodePoint = c: nat | c <= 0x10FFFF && !(0xD800 <= c <= 0xDFFF)

  function Encoded(c: CodePoint): (b: bytes)
    ensures 1 <= |b| <= 4
  {
    if c < 0x80 then [c]
    else if c < 0x800 then [0xC0 + c / 64, 0x80 + c % 64]
    else if c < 0x1_0000 then [0xE0 + c / 4096, 0x80 + c / 64 % 64, 0x80 + c % 64]
    else [0xF0 + c / 0x4_0000, 0x80 + c / 4096 % 64, 0x80 + c / 64 % 64, 0x80 + c % 64]
  }

  /** The number that the payload bits of one to four bytes spell. */
  function Spelled(b: bytes): int
    requires 1 <= |b| <= 4
  {
    var x: int := b[0];
    if |b| == 1 then x
    else
      var y: int := b[1];
      if |b| == 2 then (x - 0xC0) * 64 + (y - 0x80)
      else
        var z: int := b[2];
        if |b| == 3 then (x - 0xE0) * 4096 + (y - 0x80) * 64 + (z - 0x80)
        else
          var w: int := b[3];
          (x - 0xF0) * 0x4_0000 + (y - 0x80) * 4096 + (z - 0x80) * 64 + (w - 0x80)
  }

  function Text(cs: seq<CodePoint>): bytes {
    if cs == [] then [] else Encoded(cs[0]) + Text(cs[1..])
  }

  /** The check takes an encoded code point whole, whatever follows it. */
  lemma EncodedIsTaken(c: CodePoint, rest: bytes)
    ensures Encoded(c) + rest != [] && CharacterLength(Encoded(c) + rest) == |Encoded(c)|
  {
    var b := Encoded(c) + rest;
    assert forall i :: 0 <= i < |Encoded(c)| ==> b[i] == Encoded(c)[i];
  }

  /** What the check takes is an encoded code point. */
  lemma TakenIsEncoded(b: bytes) returns (c: CodePoint)
    requires b != [] && CharacterLength(b) > 0
    ensures Encoded(c) == b[..CharacterLength(b)]
  {
    var n := CharacterLength(b);
    var taken := b[..n];
    assert forall i :: 0 <= i < n ==> taken[i] == b[i];
    var x: int := b[0];
    if n == 2 {
      Digits(0, 0, x - 0xC0, b[1] as int - 0x80);
    } else if n == 3 {
      Digits(0, x - 0xE0, b[1] as int - 0x80, b[2] as int - 0x80);
    } else if n == 4 {
      Digits(x - 0xF0, b[1] as int - 0x80, b[2] as int - 0x80, b[3] as int - 0x80);
    }
    c := Spelled(taken);
  }

  /** Base-64 digits can be read off a number. */
  lemma Digits(p: int, q: int, r: int, t: int)
    requires 0 <= q < 64 && 0 <= r < 64 && 0 <= t < 64 && 0 <= p
    ensures var c := p * 0x4_0000 + q * 4096 + r * 64 + t;
            c % 64 == t && c / 64 % 64 == r && c / 4096 % 64 == q && c / 0x4_0000 == p
            && c / 64 == p * 4096 + q * 64 + r && c / 4096 == p * 64 + q
  {
    var c := p * 0x4_0000 + q * 4096 + r * 64 + t;
    assert c / 64 == p * 4096 + q * 64 + r;
    assert c / 4096 == p * 64 + q;
  }

  lemma {:induction false} TextIsValid(cs: seq<CodePoint>)
    ensures ValidUtf8(Text(cs))
  {
    if cs != [] {
      EncodedIsTaken(cs[0], Text(cs[1..]));
      DropPrefix(Encoded(cs[0]), Text(cs[1..]));
      TextIsValid(cs[1..]);
    }
  }

  lemma {:induction false} ValidIsText(b: bytes) returns (cs: seq<CodePoint>)
    requires ValidUtf8(b)
    ensures b == Text(cs)
    decreases |b|
  {
    if b == [] {
      cs := [];
    } else {
      var n := CharacterLength(b);
      var c := TakenIsEncoded(b);
      var rest := ValidIsText(b[n..]);
      cs := [c] + rest;
      assert cs[1..] == rest && b == b[..n] + b[n..];
    }
  }

  /** The text check accepts exactly the encodings of sequences of code points: no overlong form,
      no surrogate, nothing above 0x10FFFF, and all of ASCII. */
  lemma ValidIffText(b: bytes)
    ensures ValidUtf8(b) <==> exists cs: seq<CodePoint> :: b == Text(cs)
  {
    if ValidUtf8(b) {
      var cs := ValidIsText(b);
    }
    forall cs: seq<CodePoint> | b == Text(cs)
      ensures ValidUtf8(b)
    {
      TextIsValid(cs);
    }
  }

  /** A text is the encoding of one sequence only. */
  lemma {:induction false} TextIsInjective(cs: seq<CodePoint>, ds: seq<CodePoint>)
    requires Text(cs) == Text(ds)
    ensures cs == ds
  {
    if cs != [] && ds != [] {
      EncodedIsTaken(cs[0], Text(cs[1..]));
      EncodedIsTaken(ds[0], Text(ds[1..]));
      DropPrefix(Encoded(cs[0]), Text(cs[1..]));
      DropPrefix(Encoded(ds[0]), Text(ds[1..]));
      assert Text(cs)[..|Encoded(cs[0])|] == Encoded(cs[0]);
      assert Text(ds)[..|Encoded(ds[0])|] == Encoded(ds[0]);
      EncodedIsInjective(cs[0], ds[0]);
      TextIsInjective(cs[1..], ds[1..]);
      HeadTail(cs);
      HeadTail(ds);
    }
  }

  lemma EncodedIsInjective(c: CodePoint, d: CodePoint)
    requires Encoded(c) == Encoded(d)
    ensures c == d
  {
    EncodedSpells(c);
    EncodedSpells(d);
  }

  lemma EncodedSpells(c: CodePoint)
    ensures Spelled(Encoded(c)) == c
  {
    assert c / 64 == c / 4096 * 64 + c / 64 % 64;
    assert c / 4096 == c / 0x4_0000 * 64 + c / 4096 % 64;
  }
}
