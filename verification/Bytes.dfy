/** Positional numerals: fixed width, shortest, and padded, with their value. */
module Numerals {

  function Pow(b: nat, w: nat): nat { if w == 0 then 1 else b * Pow(b, w - 1) }

  function Value(ds: seq<nat>, b: nat): nat {
    if ds == [] then 0 else Value(ds[..|ds| - 1], b) * b + ds[|ds| - 1]
  }

  ghost predicate Below(ds: seq<nat>, b: nat) { forall i | 0 <= i < |ds| :: ds[i] < b }

  /** The `w` low digits of `n`, most significant first. */
  function Fixed(n: nat, b: nat, w: nat): (ds: seq<nat>)
    requires b >= 2
    ensures |ds| == w && Below(ds, b)
  {
    if w == 0 then [] else Fixed(n / b, b, w - 1) + [n % b]
  }

  /** `n` without leading zeros; zero is one digit. */
  function Shortest(n: nat, b: nat): (ds: seq<nat>)
    requires b >= 2
    ensures ds != [] && Below(ds, b)
    decreases n
  {
    if n < b then [n] else Quotient(n, b); Shortest(n / b, b) + [n % b]
  }

  function Zeros(k: nat): (z: seq<nat>)
    ensures |z| == k && forall i | 0 <= i < |z| :: z[i] == 0
  {
    seq(k, i => 0)
  }

  /** `n` with leading zeros up to width `w`, longer when it does not fit. */
  function ZeroPadded(n: nat, b: nat, w: nat): (ds: seq<nat>)
    requires b >= 2
    ensures Below(ds, b)
  {
    var ds := Shortest(n, b);
    (if |ds| < w then Zeros(w - |ds|) else []) + ds
  }

  lemma Times(q: int, b: nat)
    requires b >= 1
    ensures q >= 1 ==> q * b >= b
    ensures q <= -1 ==> q * b + b <= 0
    ensures q == 0 ==> q * b == 0
    ensures q >= 1 && b >= 2 ==> q < q * b
  {
  }

  lemma Quotient(n: nat, b: nat)
    requires b >= 2
    ensures n == (n / b) * b + n % b && 0 <= n % b < b
    ensures n >= b ==> 0 < n / b < n
    ensures n < b ==> n / b == 0 && n % b == n
  {
    Times(n / b, b);
  }

  lemma QuotientBound(n: nat, b: nat, p: nat)
    requires b >= 2
    ensures n < b * p <==> n / b < p
  {
    Quotient(n, b);
    var q := n / b;
    Times(p - q, b);
    assert b * p - q * b == (p - q) * b;
  }

  lemma {:induction false} FixedValue(n: nat, b: nat, w: nat)
    requires b >= 2 && n < Pow(b, w)
    ensures Value(Fixed(n, b, w), b) == n
  {
    if w == 0 {
    } else {
      Quotient(n, b);
      QuotientBound(n, b, Pow(b, w - 1));
      FixedValue(n / b, b, w - 1);
      assert Fixed(n, b, w)[..w - 1] == Fixed(n / b, b, w - 1);
    }
  }

  lemma {:induction false} ShortestValue(n: nat, b: nat)
    requires b >= 2
    ensures Value(Shortest(n, b), b) == n
    decreases n
  {
    Quotient(n, b);
    if n < b {
      assert Shortest(n, b)[..0] == [];
    } else {
      ShortestValue(n / b, b);
      var high := Shortest(n / b, b);
      assert Shortest(n, b)[..|high|] == high;
    }
  }

  /** A number takes at most `w` digits exactly when it is below the power of its base. */
  lemma {:induction false} ShortestLength(n: nat, b: nat, w: nat)
    requires b >= 2 && w >= 1
    ensures |Shortest(n, b)| <= w <==> n < Pow(b, w)
    decreases n
  {
    Quotient(n, b);
    PowPositive(b, w - 1);
    if n < b {
      assert b * Pow(b, w - 1) >= b;
    } else {
      QuotientBound(n, b, Pow(b, w - 1));
      if w > 1 { ShortestLength(n / b, b, w - 1); }
    }
  }

  lemma {:induction false} PowPositive(b: nat, w: nat)
    requires b >= 1
    ensures Pow(b, w) >= 1
  {
    if w == 0 {
    } else {
      PowPositive(b, w - 1);
      assert b * Pow(b, w - 1) >= 1;
    }
  }

  lemma {:induction false} LeadingZeros(z: seq<nat>, ds: seq<nat>, b: nat)
    requires forall i | 0 <= i < |z| :: z[i] == 0
    ensures Value(z + ds, b) == Value(ds, b)
    decreases |ds|, |z|
  {
    if ds == [] {
      assert z + ds == z;
      if z != [] {
        LeadingZeros(z[..|z| - 1], [], b);
        assert z[..|z| - 1] + [] == z[..|z| - 1];
      }
    } else {
      assert (z + ds)[..|z + ds| - 1] == z + ds[..|ds| - 1];
      LeadingZeros(z, ds[..|ds| - 1], b);
    }
  }

  /** The padded numeral keeps its value, and its width exactly when the number fits. */
  lemma ZeroPaddedValue(n: nat, b: nat, w: nat)
    requires b >= 2 && w >= 1
    ensures Value(ZeroPadded(n, b, w), b) == n
    ensures |ZeroPadded(n, b, w)| == w <==> n < Pow(b, w)
  {
    var ds := Shortest(n, b);
    ShortestValue(n, b);
    ShortestLength(n, b, w);
    if |ds| < w { LeadingZeros(Zeros(w - |ds|), ds, b); } else { assert [] + ds == ds; }
  }
}

/** Bytes, and the number fields the package formats write with them. */
module Bytes {
  import opened Wrappers
  import opened Numerals

  type Byte = b: int | 0 <= b < 256
  type Octets = seq<Byte>

  const NUL: Byte := 0
  const NEWLINE: Byte := 10
  const SPACE: Byte := 32
  const SLASH: Byte := 47

  function Filled(k: nat, b: Byte): (s: Octets)
    ensures |s| == k && forall x | x in s :: x == b
  {
    seq(k, i => b)
  }

  predicate Ascii(s: Octets) { forall b | b in s :: b < 128 }

  /** `s` padded on the right to at least `w` bytes. */
  function LeftJustified(s: Octets, w: nat, b: Byte): (r: Octets)
    ensures |r| == if |s| < w then w else |s|
    ensures s <= r && forall i | |s| <= i < |r| :: r[i] == b
  {
    if |s| < w then s + Filled(w - |s|, b) else s
  }

  function PadLength(n: nat, m: nat): (k: nat)
    requires m > 0
    ensures k < m && (n + k) % m == 0
  {
    PadFits(n, m);
    (m - n % m) % m
  }

  lemma PadFits(n: nat, m: nat)
    requires m > 0
    ensures (m - n % m) % m < m && (n + (m - n % m) % m) % m == 0
  {
    var r := n % m;
    var q := n / m;
    assert n == q * m + r;
    if r == 0 {
      assert m % m == 0;
    } else {
      assert (m - r) % m == m - r;
      assert n + (m - r) == (q + 1) * m;
      Multiple(q + 1, m);
    }
  }

  lemma Multiple(q: nat, m: nat)
    requires m > 0
    ensures (q * m) % m == 0
  {
    var p := q * m;
    assert (q - p / m) * m == p % m;
    Times(q - p / m, m);
  }

  function HexChar(d: nat): Byte
    requires d < 16
  {
    if d < 10 then 48 + d else 55 + d
  }

  function HexDigit(c: Byte): Option<nat> {
    if 48 <= c <= 57 then Some(c - 48)
    else if 65 <= c <= 70 then Some(c - 55)
    else None
  }

  function HexText(ds: seq<nat>): (s: Octets)
    requires Below(ds, 16)
    ensures |s| == |ds|
  {
    seq(|ds|, i requires 0 <= i < |ds| => HexChar(ds[i]))
  }

  /** The digits of an upper-case hexadecimal text, if it is one. */
  function HexDigits(s: Octets): Option<seq<nat>> {
    if s == [] then Some([])
    else
      var high := HexDigits(s[..|s| - 1]);
      var low := HexDigit(s[|s| - 1]);
      if high.Some? && low.Some? then Some(high.value + [low.value]) else None
  }

  function ParseHex(s: Octets): Option<nat> {
    var ds := HexDigits(s);
    if ds.Some? && s != [] then Some(Value(ds.value, 16)) else None
  }

  /** Eight upper-case hexadecimal digits, more when the number needs them. */
  function Hex8(n: nat): Octets { HexText(ZeroPadded(n, 16, 8)) }

  lemma {:induction false} HexDigitsOfText(ds: seq<nat>)
    requires Below(ds, 16)
    ensures HexDigits(HexText(ds)) == Some(ds)
    decreases |ds|
  {
    if ds == [] {
    } else {
      var init := ds[..|ds| - 1];
      assert HexText(ds)[..|ds| - 1] == HexText(init);
      HexDigitsOfText(init);
      assert ds == init + [ds[|ds| - 1]];
    }
  }

  lemma Pow16x8()
    ensures Pow(16, 8) == 0x1_0000_0000
  {
    assert Pow(16, 2) == 256;
    assert Pow(16, 4) == 65536;
    assert Pow(16, 6) == 16777216;
  }

  lemma Hex8RoundTrip(n: nat)
    ensures ParseHex(Hex8(n)) == Some(n)
    ensures |Hex8(n)| == 8 <==> n < 0x1_0000_0000
  {
    Pow16x8();
    ZeroPaddedValue(n, 16, 8);
    HexDigitsOfText(ZeroPadded(n, 16, 8));
  }

  /** A 32-bit big-endian integer; larger numbers cannot be packed. */
  function Be32(n: nat): (s: Octets)
    ensures |s| == 4
  {
    Fixed(n, 256, 4)
  }

  function ReadBe32(s: Octets): nat
    requires |s| == 4
  {
    Value(s, 256)
  }

  lemma Be32RoundTrip(n: nat)
    requires n < 0x1_0000_0000
    ensures ReadBe32(Be32(n)) == n
  {
    assert Pow(256, 2) == 65536;
    assert Pow(256, 4) == 0x1_0000_0000;
    FixedValue(n, 256, 4);
  }

  function DecimalText(n: nat): (s: Octets)
    ensures s != [] && forall i | 0 <= i < |s| :: 48 <= s[i] <= 57
  {
    var ds := Shortest(n, 10);
    seq<Byte>(|ds|, i requires 0 <= i < |ds| => 48 + ds[i])
  }

  function DecimalDigits(s: Octets): seq<nat>
    requires forall i | 0 <= i < |s| :: 48 <= s[i] <= 57
  {
    seq<nat>(|s|, i requires 0 <= i < |s| => s[i] - 48)
  }

  function ParseDecimal(s: Octets): Option<nat> {
    if s == [] || exists i | 0 <= i < |s| :: !(48 <= s[i] <= 57) then None
    else Some(Value(DecimalDigits(s), 10))
  }

  lemma DecimalRoundTrip(n: nat)
    ensures ParseDecimal(DecimalText(n)) == Some(n)
  {
    var ds := Shortest(n, 10);
    var s := DecimalText(n);
    ShortestValue(n, 10);
    assert DecimalDigits(s) == ds;
  }

  /** The index of the first `b` in `s`, or its length. */
  function IndexOf(s: Octets, b: Byte): (i: nat)
    ensures i <= |s| && forall k | 0 <= k < i :: s[k] != b
    ensures i < |s| ==> s[i] == b
  {
    if s == [] then 0 else if s[0] == b then 0
    else
      var i := IndexOf(s[1..], b);
      assert forall k | 0 < k <= i :: s[k] == s[1..][k - 1];
      1 + i
  }

  lemma IndexOfFirst(s: Octets, b: Byte, i: nat)
    requires i < |s| && s[i] == b && forall k | 0 <= k < i :: s[k] != b
    ensures IndexOf(s, b) == i
  {
    var j := IndexOf(s, b);
    assert !(j > i);
    assert !(j < i);
  }

  function Flatten(parts: seq<Octets>): Octets {
    if parts == [] then [] else parts[0] + Flatten(parts[1..])
  }

  lemma {:induction false} FlattenAppend(a: seq<Octets>, b: seq<Octets>)
    ensures Flatten(a + b) == Flatten(a) + Flatten(b)
  {
    if a == [] {
      assert a + b == b;
    } else {
      assert (a + b)[1..] == a[1..] + b;
      FlattenAppend(a[1..], b);
    }
  }

  lemma FlattenSnoc(parts: seq<Octets>, i: nat)
    requires i < |parts|
    ensures Flatten(parts[..i + 1]) == Flatten(parts[..i]) + parts[i]
  {
    assert parts[..i + 1] == parts[..i] + [parts[i]];
    FlattenAppend(parts[..i], [parts[i]]);
    assert Flatten([parts[i]]) == parts[i] + Flatten([parts[i]][1..]);
  }

  /** Field `i` of a record whose fields all have width `w`. */
  lemma {:induction false} FieldAt(parts: seq<Octets>, w: nat, i: nat)
    requires forall p | p in parts :: |p| == w
    requires i < |parts|
    ensures |Flatten(parts)| == w * |parts| && 0 <= w * i <= w * i + w <= w * |parts|
    ensures Flatten(parts)[w * i..w * i + w] == parts[i]
  {
    var rest := parts[1..];
    assert w * |parts| == w + w * |rest|;
    if i == 0 {
      if rest != [] { FieldAt(rest, w, 0); } else { assert Flatten(rest) == []; assert w * |rest| == 0; }
    } else {
      FieldAt(rest, w, i - 1);
      assert w * i == w + w * (i - 1);
    }
  }
}
