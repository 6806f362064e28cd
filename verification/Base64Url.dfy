/**
 Unpadded base64url, RFC 4648 section 5. Decoding follows the lenient decoder of the language
 library: the two alphabets are accepted together, other ASCII characters are skipped, and
 complete padding ends the input.
 */
module Base64Url {
  import opened Wrappers
  import opened Bytes

  type Sextet = n: int | 0 <= n < 64

  function Encode6(n: Sextet): char {
    if n < 26 then ('A' as int + n) as char
    else if n < 52 then ('a' as int + n - 26) as char
    else if n < 62 then ('0' as int + n - 52) as char
    else if n == 62 then '-' else '_'
  }

  function Decode6(c: char): Option<Sextet> {
    if 'A' <= c <= 'Z' then Some(c as int - 'A' as int)
    else if 'a' <= c <= 'z' then Some(c as int - 'a' as int + 26)
    else if '0' <= c <= '9' then Some(c as int - '0' as int + 52)
    else if c == '-' || c == '+' then Some(62)
    else if c == '_' || c == '/' then Some(63)
    else None
  }

  /** The padded form: every three bytes as four characters. */
  function EncodePadded(b: Octets): string {
    if |b| == 0 then ""
    else if |b| == 1 then [Encode6(b[0] / 4), Encode6(b[0] % 4 * 16), '=', '=']
    else if |b| == 2 then
      [Encode6(b[0] / 4), Encode6(b[0] % 4 * 16 + b[1] / 16), Encode6(b[1] % 16 * 4), '=']
    else
      [Encode6(b[0] / 4), Encode6(b[0] % 4 * 16 + b[1] / 16), Encode6(b[1] % 16 * 4 + b[2] / 64), Encode6(b[2] % 64)]
      + EncodePadded(b[3..])
  }

  function StripPadding(s: string): string {
    if s != "" && s[|s| - 1] == '=' then StripPadding(s[..|s| - 1]) else s
  }

  function Encode(b: Octets): string { StripPadding(EncodePadded(b)) }

  /** Equal signs that bring the length up to a multiple of four. */
  function Repadded(token: string): string { token + seq(PadLength(|token|, 4), i => '=') }

  /** What the decoder remembers: place in the group of four, bits left over, equal signs seen. */
  datatype Decoder = Decoder(place: nat, left: nat, pads: nat)

  predicate Sound(d: Decoder) {
    || d.place == 0
    || (d.place == 1 && d.left < 64)
    || (d.place == 2 && d.left < 16)
    || (d.place == 3 && d.left < 4)
  }

  const START := Decoder(0, 0, 0)

  /** The byte that the next six bits complete. */
  function ByteOf(d: Decoder, v: Sextet): Byte
    requires Sound(d) && d.place > 0
  {
    if d.place == 1 then d.left * 4 + v / 16
    else if d.place == 2 then d.left * 16 + v / 4
    else d.left * 64 + v
  }

  /** The decoder after six more bits. */
  function Next(d: Decoder, v: Sextet): (d': Decoder)
    requires Sound(d)
    ensures Sound(d')
  {
    if d.place == 0 then Decoder(1, v, 0)
    else if d.place == 1 then Decoder(2, v % 16, 0)
    else if d.place == 2 then Decoder(3, v % 4, 0)
    else Decoder(0, 0, 0)
  }

  function Prepend(b: Byte, t: Option<Octets>): Option<Octets> {
    if t.None? then None else Some([b] + t.value)
  }

  function DecodeFrom(s: string, d: Decoder): Option<Octets>
    requires Sound(d)
    decreases |s|
  {
    if s == "" then (if d.place == 0 then Some([]) else None)
    else
      var rest := s[1..];
      if s[0] == '=' then
        if d.place >= 2 then
          if d.place + d.pads + 1 >= 4 then Some([]) else DecodeFrom(rest, d.(pads := d.pads + 1))
        else DecodeFrom(rest, d)
      else match Decode6(s[0])
        case None => DecodeFrom(rest, d)
        case Some(v) =>
          if d.place == 0 then DecodeFrom(rest, Next(d, v))
          else Prepend(ByteOf(d, v), DecodeFrom(rest, Next(d, v)))
  }

  predicate AsciiText(s: string) { forall i | 0 <= i < |s| :: (s[i] as int) < 128 }

  /** None where decoding raises: a character outside ASCII, or an incomplete group. */
  function Decode(token: string): Option<Octets> {
    if !AsciiText(token) then None else DecodeFrom(Repadded(token), START)
  }

  // ---- Decoding undoes encoding ----------------------------------------------------------

  /** The text of the unpadded form. */
  predicate TokenText(s: string) { forall i | 0 <= i < |s| :: IsTokenChar(s[i]) }

  predicate IsTokenChar(c: char) {
    'A' <= c <= 'Z' || 'a' <= c <= 'z' || '0' <= c <= '9' || c == '-' || c == '_'
  }

  lemma SextetRoundTrip(n: Sextet)
    ensures Decode6(Encode6(n)) == Some(n) && IsTokenChar(Encode6(n))
  {
  }

  lemma DecodeStep(n: Sextet, rest: string, d: Decoder)
    requires Sound(d)
    ensures DecodeFrom([Encode6(n)] + rest, d) ==
            if d.place == 0 then DecodeFrom(rest, Next(d, n))
            else Prepend(ByteOf(d, n), DecodeFrom(rest, Next(d, n)))
  {
    SextetRoundTrip(n);
    assert ([Encode6(n)] + rest)[1..] == rest;
  }

  /** A whole group of four characters. */
  lemma GroupStep(w: Sextet, x: Sextet, y: Sextet, z: Sextet, rest: string)
    ensures DecodeFrom([Encode6(w), Encode6(x), Encode6(y), Encode6(z)] + rest, START)
            == Prepend(ByteOf(Decoder(1, w, 0), x),
                 Prepend(ByteOf(Decoder(2, x % 16, 0), y),
                   Prepend(ByteOf(Decoder(3, y % 4, 0), z), DecodeFrom(rest, START))))
  {
    var s3 := [Encode6(z)] + rest;
    var s2 := [Encode6(y)] + s3;
    var s1 := [Encode6(x)] + s2;
    assert [Encode6(w), Encode6(x), Encode6(y), Encode6(z)] + rest == [Encode6(w)] + s1;
    DecodeStep(w, s1, START);
    DecodeStep(x, s2, Decoder(1, w, 0));
    DecodeStep(y, s3, Decoder(2, x % 16, 0));
    DecodeStep(z, rest, Decoder(3, y % 4, 0));
  }

  /** The four six-bit values of three bytes. */
  function Sextets(b0: Byte, b1: Byte, b2: Byte): (Sextet, Sextet, Sextet, Sextet) {
    (b0 / 4, b0 % 4 * 16 + b1 / 16, b1 % 16 * 4 + b2 / 64, b2 % 64)
  }

  lemma Bits(b0: Byte, b1: Byte, b2: Byte)
    ensures var (w, x, y, z) := Sextets(b0, b1, b2);
            && ByteOf(Decoder(1, w, 0), x) == b0
            && ByteOf(Decoder(2, x % 16, 0), y) == b1
            && ByteOf(Decoder(3, y % 4, 0), z) == b2
            && (b2 == 0 ==> y % 4 == 0) && (b1 == 0 ==> x % 16 == 0)
  {
  }

  /** Complete padding ends the input with nothing more. */
  lemma PaddingEnds()
    ensures DecodeFrom(['='], Decoder(3, 0, 0)) == Some([])
    ensures DecodeFrom(['=', '='], Decoder(2, 0, 0)) == Some([])
  {
    assert ['=', '='][1..] == ['='];
    assert DecodeFrom(['='], Decoder(2, 0, 1)) == Some([]);
  }

  lemma OneByteDecodes(b0: Byte)
    ensures DecodeFrom(EncodePadded([b0]), START) == Some([b0])
  {
    var (w, x, y, z) := Sextets(b0, 0, 0);
    Bits(b0, 0, 0);
    PaddingEnds();
    assert EncodePadded([b0]) == [Encode6(w)] + ([Encode6(x)] + ['=', '=']);
    DecodeStep(w, [Encode6(x)] + ['=', '='], START);
    DecodeStep(x, ['=', '='], Decoder(1, w, 0));
    assert x % 16 == 0 && [b0] + [] == [b0];
  }

  lemma TwoBytesDecode(b0: Byte, b1: Byte)
    ensures DecodeFrom(EncodePadded([b0, b1]), START) == Some([b0, b1])
  {
    var (w, x, y, z) := Sextets(b0, b1, 0);
    Bits(b0, b1, 0);
    PaddingEnds();
    assert EncodePadded([b0, b1]) == [Encode6(w)] + ([Encode6(x)] + ([Encode6(y)] + ['=']));
    DecodeStep(w, [Encode6(x)] + ([Encode6(y)] + ['=']), START);
    DecodeStep(x, [Encode6(y)] + ['='], Decoder(1, w, 0));
    DecodeStep(y, ['='], Decoder(2, x % 16, 0));
    assert [b0] + ([b1] + []) == [b0, b1];
  }

  lemma ThreeBytesDecode(b0: Byte, b1: Byte, b2: Byte, rest: string, decoded: Octets)
    requires DecodeFrom(rest, START) == Some(decoded)
    ensures var (w, x, y, z) := Sextets(b0, b1, b2);
            DecodeFrom([Encode6(w), Encode6(x), Encode6(y), Encode6(z)] + rest, START) == Some([b0, b1, b2] + decoded)
  {
    var (w, x, y, z) := Sextets(b0, b1, b2);
    Bits(b0, b1, b2);
    GroupStep(w, x, y, z, rest);
    assert [b0] + ([b1] + ([b2] + decoded)) == [b0, b1, b2] + decoded;
  }

  lemma GroupRoundTrip(b0: Byte, b1: Byte, b2: Byte, rest: Octets)
    requires DecodeFrom(EncodePadded(rest), START) == Some(rest)
    ensures DecodeFrom(EncodePadded([b0, b1, b2] + rest), START) == Some([b0, b1, b2] + rest)
  {
    var b := [b0, b1, b2] + rest;
    assert b[3..] == rest;
    ThreeBytesDecode(b0, b1, b2, EncodePadded(rest), rest);
  }

  lemma GroupLength(b: Octets)
    requires |b| >= 3
    ensures |EncodePadded(b)| == 4 + |EncodePadded(b[3..])|
  {
  }

  lemma {:induction false} PaddedLength(b: Octets)
    ensures |EncodePadded(b)| % 4 == 0
    decreases |b|
  {
    if |b| < 3 {
      assert |EncodePadded(b)| == if b == [] then 0 else 4;
    } else {
      PaddedLength(b[3..]);
      GroupLength(b);
    }
  }

  lemma {:induction false} PaddedRoundTrip(b: Octets)
    ensures DecodeFrom(EncodePadded(b), START) == Some(b)
    decreases |b|
  {
    if |b| == 1 {
      assert b == [b[0]];
      OneByteDecodes(b[0]);
    } else if |b| == 2 {
      assert b == [b[0], b[1]];
      TwoBytesDecode(b[0], b[1]);
    } else if |b| >= 3 {
      PaddedRoundTrip(b[3..]);
      GroupRoundTrip(b[0], b[1], b[2], b[3..]);
      assert b == [b[0], b[1], b[2]] + b[3..];
    }
  }

  /** The padded form is token text followed by at most two equal signs. */
  lemma {:induction false} PaddedShape(b: Octets) returns (token: string, pads: nat)
    ensures pads <= 2 && TokenText(token) && EncodePadded(b) == token + seq(pads, i => '=')
    decreases |b|
  {
    if |b| == 0 {
      token, pads := "", 0;
    } else if |b| <= 2 {
      pads := 3 - |b|;
      token := EncodePadded(b)[..4 - pads];
      SextetRoundTrip(b[0] / 4);
      if |b| == 1 {
        SextetRoundTrip(b[0] % 4 * 16);
      } else {
        SextetRoundTrip(b[0] % 4 * 16 + b[1] / 16);
        SextetRoundTrip(b[1] % 16 * 4);
      }
    } else {
      var rest;
      rest, pads := PaddedShape(b[3..]);
      var x, y := b[0] % 4 * 16 + b[1] / 16, b[1] % 16 * 4 + b[2] / 64;
      SextetRoundTrip(b[0] / 4);
      SextetRoundTrip(x);
      SextetRoundTrip(y);
      SextetRoundTrip(b[2] % 64);
      token := [Encode6(b[0] / 4), Encode6(x), Encode6(y), Encode6(b[2] % 64)] + rest;
    }
  }

  lemma {:induction false} StripPaddingExact(token: string, pads: nat)
    requires TokenText(token)
    ensures StripPadding(token + seq(pads, i => '=')) == token
  {
    var s := token + seq(pads, i => '=');
    if pads == 0 {
      assert s == token;
      if token != "" { assert IsTokenChar(token[|token| - 1]); }
    } else {
      assert s[..|s| - 1] == token + seq(pads - 1, i => '=');
      StripPaddingExact(token, pads - 1);
    }
  }

  lemma PadUnique(n: nat, k: nat)
    requires k < 4 && (n + k) % 4 == 0
    ensures PadLength(n, 4) == k
  {
  }

  /** Re-padding by length restores exactly the padding that was removed. */
  lemma RepaddingExact(b: Octets)
    ensures Repadded(Encode(b)) == EncodePadded(b) && TokenText(Encode(b))
  {
    var token, pads := PaddedShape(b);
    StripPaddingExact(token, pads);
    PaddedLength(b);
    PadUnique(|token|, pads);
  }

  /** Every byte string survives encoding and decoding. */
  lemma RoundTrip(b: Octets)
    ensures Decode(Encode(b)) == Some(b)
  {
    RepaddingExact(b);
    PaddedRoundTrip(b);
    forall i | 0 <= i < |Encode(b)| ensures (Encode(b)[i] as int) < 128 { assert IsTokenChar(Encode(b)[i]); }
  }

  /** A token carries some bytes exactly when the bytes are not empty. */
  lemma EncodeEmptyIff(b: Octets)
    ensures Encode(b) == "" <==> b == []
  {
    RoundTrip(b);
    assert Decode("") == Some([]) by { assert Repadded("") == ""; }
  }
}
