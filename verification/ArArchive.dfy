/**
 The ar archive a .deb is made of: members with a 60-byte text header and even alignment,
 as written by the package builder and as read back from the format description in deb(5).
 */
module ArArchive {
  import opened Wrappers
  import opened Bytes
  import Numerals

  const MAGIC: Octets := [33, 60, 97, 114, 99, 104, 62, 10] // "!<arch>\n"
  const HEADER_END: Octets := [96, 10]                      // "`\n"
  const ZERO: Octets := [48]
  const FILE_MODE: Octets := [49, 48, 48, 54, 52, 52]       // "100644"

  datatype Member = Member(name: Octets, data: Octets)

  function Padded(s: Octets, w: nat): Octets { LeftJustified(s, w, SPACE) }

  /** The name field: a slash ends the name, and the field is cut at 16 bytes. */
  function NameField(name: Octets): (f: Octets)
    ensures |f| == 16
  {
    var named := name + [SLASH];
    Padded(if |named| > 16 then named[..16] else named, 16)
  }

  function Header(m: Member): Octets {
    NameField(m.name) + Padded(ZERO, 12) + Padded(ZERO, 6) + Padded(ZERO, 6) + Padded(FILE_MODE, 8)
    + Padded(DecimalText(|m.data|), 10) + HEADER_END
  }

  /** One member; None where the builder raises (a name outside ASCII, or a header off size). */
  function Write(m: Member): Option<Octets> {
    if !Ascii(m.name) || |Header(m)| != 60 then None
    else Some(Header(m) + m.data + (if |m.data| % 2 == 1 then [NEWLINE] else []))
  }

  /** Concatenate the parts, or fail where one of them does. */
  function Joined(parts: seq<Option<Octets>>): Option<Octets> {
    if parts == [] then Some([])
    else
      var rest := Joined(parts[1..]);
      if parts[0].None? || rest.None? then None else Some(parts[0].value + rest.value)
  }

  function Parts(ms: seq<Member>): (parts: seq<Option<Octets>>)
    ensures |parts| == |ms| && forall i | 0 <= i < |ms| :: parts[i] == Write(ms[i])
  {
    seq(|ms|, i requires 0 <= i < |ms| => Write(ms[i]))
  }

  function WriteAll(ms: seq<Member>): Option<Octets> { Joined(Parts(ms)) }

  function Archive(ms: seq<Member>): Option<Octets> {
    var body := WriteAll(ms);
    if body.None? then None else Some(MAGIC + body.value)
  }

  // ---- Reading ---------------------------------------------------------------------------

  predicate Blank(s: Octets) { forall i | 0 <= i < |s| :: s[i] == SPACE }

  /** A name runs to its slash; only spaces may follow. */
  function ReadName(f: Octets): Option<Octets> {
    var i := IndexOf(f, SLASH);
    if i < |f| && Blank(f[i + 1..]) then Some(f[..i]) else None
  }

  function ReadSize(f: Octets): Option<nat> {
    var i := IndexOf(f, SPACE);
    if Blank(f[i..]) then ParseDecimal(f[..i]) else None
  }

  /** The data after a header, its padding, and what follows the member. */
  function ReadBody(name: Octets, size: nat, t: Octets): Option<(Member, Octets)> {
    var pad := size % 2;
    if |t| < size + pad || (pad == 1 && t[size] != NEWLINE) then None
    else Some((Member(name, t[..size]), t[size + pad..]))
  }

  /** One member and what follows it. */
  function Read(s: Octets): Option<(Member, Octets)> {
    if |s| < 60 || s[58..60] != HEADER_END then None
    else
      var name, size := ReadName(s[..16]), ReadSize(s[48..58]);
      if name.None? || size.None? then None else ReadBody(name.value, size.value, s[60..])
  }

  function ReadAll(s: Octets): Option<seq<Member>>
    decreases |s|
  {
    if s == [] then Some([])
    else
      var first := Read(s);
      if first.None? then None
      else
        var rest := ReadAll(first.value.1);
        if rest.None? then None else Some([first.value.0] + rest.value)
  }

  function ReadArchive(s: Octets): Option<seq<Member>> {
    if MAGIC <= s then ReadAll(s[8..]) else None
  }

  // ---- The reader undoes the writer ------------------------------------------------------

  predicate NameFits(name: Octets) { |name| <= 15 && SLASH !in name }

  /** The member is written exactly when its name is ASCII and its size has ten digits. */
  lemma WriteSucceedsIff(m: Member)
    ensures Write(m).Some? <==> Ascii(m.name) && |m.data| < 10_000_000_000
  {
    var n := |m.data|;
    assert Numerals.Pow(10, 5) == 100_000;
    assert Numerals.Pow(10, 10) == 10_000_000_000;
    Numerals.ShortestLength(n, 10, 10);
    assert |DecimalText(n)| == |Numerals.Shortest(n, 10)|;
  }

  lemma Fields(m: Member)
    requires |Header(m)| == 60
    ensures var h := Header(m);
            && h[..16] == NameField(m.name)
            && h[48..58] == Padded(DecimalText(|m.data|), 10)
            && h[58..60] == HEADER_END
  {
    var h := Header(m);
    var front := NameField(m.name) + Padded(ZERO, 12) + Padded(ZERO, 6) + Padded(ZERO, 6) + Padded(FILE_MODE, 8);
    assert |front| == 48;
    assert h == front + (Padded(DecimalText(|m.data|), 10) + HEADER_END);
  }

  /** Reading looks at the header and the rest separately. */
  lemma ReadAt(h: Octets, t: Octets)
    requires |h| == 60 && h[58..60] == HEADER_END
    ensures Read(h + t) ==
            var name, size := ReadName(h[..16]), ReadSize(h[48..58]);
            if name.None? || size.None? then None else ReadBody(name.value, size.value, t)
  {
    var s := h + t;
    assert s[..16] == h[..16] && s[48..58] == h[48..58] && s[58..60] == h[58..60] && s[60..] == t;
  }

  lemma SizeReadsBack(n: nat)
    ensures ReadSize(Padded(DecimalText(n), 10)) == Some(n)
  {
    var d := DecimalText(n);
    var f := Padded(d, 10);
    if |d| < 10 {
      IndexOfFirst(f, SPACE, |d|);
    } else {
      var i := IndexOf(f, SPACE);
      assert i == |f|;
    }
    assert f[..|d|] == d;
    DecimalRoundTrip(n);
  }

  lemma NameReadsBackIff(name: Octets)
    ensures ReadName(NameField(name)) == Some(name) <==> NameFits(name)
  {
    var f := NameField(name);
    var i := IndexOf(f, SLASH);
    if NameFits(name) {
      assert f[..|name|] == name && f[|name|] == SLASH;
      IndexOfFirst(f, SLASH, |name|);
    }
  }

  lemma BodyReadsBack(name: Octets, data: Octets, tail: Octets)
    ensures var t := data + (if |data| % 2 == 1 then [NEWLINE] else []) + tail;
            ReadBody(name, |data|, t) == Some((Member(name, data), tail))
  {
    var pad := if |data| % 2 == 1 then [NEWLINE] else [];
    var t := data + pad + tail;
    assert t[..|data|] == data && t[|data| + |pad|..] == tail;
  }

  /** The decimal size always parses back, so only the name can be lost. */
  lemma ReadUndoesWriteIff(m: Member, tail: Octets)
    requires Write(m).Some?
    ensures Read(Write(m).value + tail) == Some((m, tail)) <==> NameFits(m.name)
  {
    var h, rest := Header(m), m.data + (if |m.data| % 2 == 1 then [NEWLINE] else []) + tail;
    assert Write(m).value + tail == h + rest;
    Fields(m);
    ReadAt(h, rest);
    SizeReadsBack(|m.data|);
    NameReadsBackIff(m.name);
    BodyReadsBack(m.name, m.data, tail);
  }

  lemma {:induction false} ReadAllUndoesJoined(parts: seq<Option<Octets>>, ms: seq<Member>)
    requires |parts| == |ms| && Joined(parts).Some?
    requires forall i | 0 <= i < |ms| && parts[i].Some? :: parts[i].value != []
    requires forall i, tail | 0 <= i < |ms| && parts[i].Some? :: Read(parts[i].value + tail) == Some((ms[i], tail))
    ensures ReadAll(Joined(parts).value) == Some(ms)
  {
    if ms == [] {
    } else {
      var first, rest := parts[0].value, Joined(parts[1..]).value;
      assert Read(first + rest) == Some((ms[0], rest));
      ReadAllUndoesJoined(parts[1..], ms[1..]);
      assert [ms[0]] + ms[1..] == ms;
    }
  }

  /** Parsing the blob yields the members it was built from. */
  lemma ArchiveRoundTrip(ms: seq<Member>)
    requires forall m | m in ms :: Ascii(m.name) && NameFits(m.name) && |m.data| < 10_000_000_000
    ensures Archive(ms).Some? && ReadArchive(Archive(ms).value) == Some(ms)
  {
    forall m | m in ms ensures Write(m).Some? { WriteSucceedsIff(m); }
    AllJoined(Parts(ms));
    forall i, tail | 0 <= i < |ms| ensures Read(Write(ms[i]).value + tail) == Some((ms[i], tail)) {
      ReadUndoesWriteIff(ms[i], tail);
    }
    ReadAllUndoesJoined(Parts(ms), ms);
    assert Archive(ms).value[8..] == WriteAll(ms).value;
  }

  lemma {:induction false} AllJoined(parts: seq<Option<Octets>>)
    ensures Joined(parts).Some? <==> forall i | 0 <= i < |parts| :: parts[i].Some?
  {
    if parts == [] {
    } else {
      AllJoined(parts[1..]);
      assert forall i | 0 < i < |parts| :: parts[i] == parts[1..][i - 1];
    }
  }

  lemma {:induction false} JoinedSplits(parts: seq<Option<Octets>>, i: nat)
    requires Joined(parts).Some? && i <= |parts|
    requires forall k | 0 <= k < |parts| :: parts[k].Some? && |parts[k].value| % 2 == 0
    ensures Joined(parts[..i]).Some? && Joined(parts[i..]).Some?
    ensures Joined(parts).value == Joined(parts[..i]).value + Joined(parts[i..]).value
    ensures |Joined(parts[..i]).value| % 2 == 0
  {
    if i > 0 {
      JoinedSplits(parts[1..], i - 1);
      assert parts[..i][1..] == parts[1..][..i - 1] && parts[1..][i - 1..] == parts[i..];
    } else {
      assert parts[0..] == parts;
    }
  }

  lemma WrittenIsEven(m: Member)
    requires Write(m).Some?
    ensures |Write(m).value| % 2 == 0
  {
  }

  /** Every member of an archive starts at an even offset. */
  lemma MembersStartEven(ms: seq<Member>, i: nat)
    requires Archive(ms).Some? && i < |ms|
    ensures WriteAll(ms[..i]).Some? && WriteAll(ms[i..]).Some?
    ensures var before := MAGIC + WriteAll(ms[..i]).value;
            |before| % 2 == 0 && Archive(ms).value == before + WriteAll(ms[i..]).value
  {
    AllJoined(Parts(ms));
    PartsEven(ms);
    JoinedSplits(Parts(ms), i);
    PartsSlice(ms, i);
    AfterMagic(WriteAll(ms[..i]).value, WriteAll(ms[i..]).value);
  }

  lemma AfterMagic(a: Octets, b: Octets)
    requires |a| % 2 == 0
    ensures |MAGIC + a| % 2 == 0 && MAGIC + (a + b) == (MAGIC + a) + b
  {
  }

  lemma PartsEven(ms: seq<Member>)
    ensures forall k | 0 <= k < |ms| && Parts(ms)[k].Some? :: |Parts(ms)[k].value| % 2 == 0
  {
    forall k | 0 <= k < |ms| && Parts(ms)[k].Some? ensures |Parts(ms)[k].value| % 2 == 0 { WrittenIsEven(ms[k]); }
  }

  lemma PartsSlice(ms: seq<Member>, i: nat)
    requires i <= |ms|
    ensures Parts(ms[..i]) == Parts(ms)[..i] && Parts(ms[i..]) == Parts(ms)[i..]
  {
  }

  const DEBIAN_BINARY: Octets := [100, 101, 98, 105, 97, 110, 45, 98, 105, 110, 97, 114, 121]
  const CONTROL_TAR: Octets := [99, 111, 110, 116, 114, 111, 108, 46, 116, 97, 114, 46, 103, 122]
  const DATA_TAR: Octets := [100, 97, 116, 97, 46, 116, 97, 114, 46, 103, 122]

  /** The .deb blob over a control and a data archive, and its format version "2.0\n". */
  function DebMembers(control: Octets, data: Octets): seq<Member> {
    [Member(DEBIAN_BINARY, [50, 46, 48, 10]), Member(CONTROL_TAR, control), Member(DATA_TAR, data)]
  }

  /** A .deb is written, and read back whole, exactly when both archives fit the size field. */
  lemma DebRoundTripIff(control: Octets, data: Octets)
    ensures var ms := DebMembers(control, data);
            && (Archive(ms).Some? <==> |control| < 10_000_000_000 && |data| < 10_000_000_000)
            && (Archive(ms).Some? ==> ReadArchive(Archive(ms).value) == Some(ms))
  {
    var ms := DebMembers(control, data);
    DebNamesFit();
    AllJoined(Parts(ms));
    forall m | m in ms ensures Write(m).Some? <==> |m.data| < 10_000_000_000 { WriteSucceedsIff(m); }
    if |control| < 10_000_000_000 && |data| < 10_000_000_000 {
      ArchiveRoundTrip(ms);
    } else if |control| >= 10_000_000_000 {
      assert ms[1] in ms && Parts(ms)[1].None?;
    } else {
      assert ms[2] in ms && Parts(ms)[2].None?;
    }
  }

  lemma DebNamesFit()
    ensures forall n | n in {DEBIAN_BINARY, CONTROL_TAR, DATA_TAR} :: Ascii(n) && NameFits(n)
  {
  }
}
