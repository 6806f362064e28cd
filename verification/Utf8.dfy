/** UTF-8, section 3 of RFC 3629: Unicode scalar values as one to four bytes. */
module Utf8 {
  import opened Wrappers
  import opened Bytes

  /** A code point that is no surrogate. */
  type Scalar = c: int | 0 <= c < 0xD800 || 0xE000 <= c < 0x11_0000

  predicate IsScalar(c: int) { 0 <= c < 0xD800 || 0xE000 <= c < 0x11_0000 }

  function EncodeOne(c: Scalar): (b: Octets)
    ensures 1 <= |b| <= 4
  {
    if c < 0x80 then [c]
    else if c < 0x800 then [0xC0 + c / 64, 0x80 + c % 64]
    else if c < 0x1_0000 then [0xE0 + c / 4096, 0x80 + c / 64 % 64, 0x80 + c % 64]
    else [0xF0 + c / 262144, 0x80 + c / 4096 % 64, 0x80 + c / 64 % 64, 0x80 + c % 64]
  }

  function Encode(text: seq<Scalar>): Octets {
    if text == [] then [] else EncodeOne(text[0]) + Encode(text[1..])
  }

  predicate IsTail(b: Byte) { 0x80 <= b < 0xC0 }

  /** What a byte carries above the marker bits. */
  function Above(b: Byte, marker: int): int { (b as int) - marker }

  function Two(a: Byte, b: Byte): int { Above(a, 0xC0) * 64 + Above(b, 0x80) }

  function Three(a: Byte, b: Byte, c: Byte): int {
    Above(a, 0xE0) * 4096 + Above(b, 0x80) * 64 + Above(c, 0x80)
  }

  function Four(a: Byte, b: Byte, c: Byte, d: Byte): int {
    Above(a, 0xF0) * 262144 + Above(b, 0x80) * 4096 + Above(c, 0x80) * 64 + Above(d, 0x80)
  }

  /** The scalar at the start and its length; overlong forms, surrogates and stray bytes fail. */
  function DecodeOne(b: Octets): (r: Option<(Scalar, nat)>)
    requires b != []
    ensures r.Some? ==> 1 <= r.value.1 <= |b|
  {
    if b[0] < 0x80 then Some((b[0], 1))
    else if 0xC2 <= b[0] < 0xE0 && |b| >= 2 && IsTail(b[1]) then Some((Two(b[0], b[1]), 2))
    else if 0xE0 <= b[0] < 0xF0 && |b| >= 3 && IsTail(b[1]) && IsTail(b[2]) then
      var c := Three(b[0], b[1], b[2]);
      if c >= 0x800 && IsScalar(c) then Some((c, 3)) else None
    else if 0xF0 <= b[0] < 0xF5 && |b| >= 4 && IsTail(b[1]) && IsTail(b[2]) && IsTail(b[3]) then
      var c := Four(b[0], b[1], b[2], b[3]);
      if c >= 0x1_0000 && IsScalar(c) then Some((c, 4)) else None
    else None
  }

  function Decode(b: Octets): Option<seq<Scalar>>
    decreases |b|
  {
    if b == [] then Some([])
    else
      var first := DecodeOne(b);
      if first.None? then None
      else
        var rest := Decode(b[first.value.1..]);
        if rest.None? then None else Some([first.value.0] + rest.value)
  }

  lemma TwoUndoes(c: int)
    requires 0x80 <= c < 0x800
    ensures 2 <= c / 64 < 32 && c == c / 64 * 64 + c % 64
  {
  }

  lemma ThreeUndoes(c: int)
    requires 0x800 <= c < 0x1_0000
    ensures 0 <= c / 4096 < 16 && c == c / 4096 * 4096 + c / 64 % 64 * 64 + c % 64
  {
    assert c / 4096 == c / 64 / 64;
  }

  lemma FourUndoes(c: int)
    requires 0x1_0000 <= c < 0x11_0000
    ensures 0 <= c / 262144 < 5
    ensures c == c / 262144 * 262144 + c / 4096 % 64 * 4096 + c / 64 % 64 * 64 + c % 64
  {
    assert c / 4096 == c / 64 / 64 && c / 262144 == c / 64 / 64 / 64;
  }

  lemma DecodeOneUndoes(c: Scalar, rest: Octets)
    ensures DecodeOne(EncodeOne(c) + rest) == Some((c, |EncodeOne(c)|))
  {
    var e := EncodeOne(c);
    var b := e + rest;
    assert b[0] == e[0];
    if 0x80 <= c < 0x800 {
      TwoUndoes(c);
      assert b[1] == e[1];
    } else if 0x800 <= c < 0x1_0000 {
      ThreeUndoes(c);
      assert b[1] == e[1] && b[2] == e[2];
    } else if 0x1_0000 <= c {
      FourUndoes(c);
      assert b[1] == e[1] && b[2] == e[2] && b[3] == e[3];
    }
  }

  lemma DecodeStep(e: Octets, c: Scalar, rest: Octets, decoded: seq<Scalar>)
    requires e != [] && DecodeOne(e + rest) == Some((c, |e|)) && Decode(rest) == Some(decoded)
    ensures Decode(e + rest) == Some([c] + decoded)
  {
    assert (e + rest)[|e|..] == rest;
  }

  /** Every text survives. */
  lemma {:induction false} RoundTrip(text: seq<Scalar>)
    ensures Decode(Encode(text)) == Some(text)
  {
    if text == [] {
    } else {
      var rest := Encode(text[1..]);
      RoundTrip(text[1..]);
      DecodeOneUndoes(text[0], rest);
      DecodeStep(EncodeOne(text[0]), text[0], rest, text[1..]);
      assert text == [text[0]] + text[1..];
    }
  }

  /** Only the empty text has no bytes. */
  lemma EncodeEmptyIff(text: seq<Scalar>)
    ensures Encode(text) == [] <==> text == []
  {
  }
}
