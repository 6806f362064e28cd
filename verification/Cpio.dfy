/**
 The SVR4 "newc" cpio archive inside an RPM: entries with an ASCII hexadecimal header, each
 part padded to four bytes, closed by an entry named TRAILER!!!.
 */
module Cpio {
  import opened Wrappers
  import opened Bytes

  datatype Entry = Entry(name: Octets, mode: nat, data: Octets)

  const MAGIC: Octets := [48, 55, 48, 55, 48, 49] // "070701"
  const TRAILER: Octets := [84, 82, 65, 73, 76, 69, 82, 33, 33, 33]
  const LIMIT := 0x1_0000_0000

  /** The thirteen numbers of a header, in order. */
  function Numbers(mode: nat, size: nat, nameSize: nat): seq<nat> {
    [0, mode, 0, 0, 1, 0, size, 0, 0, 0, 0, nameSize, 0]
  }

  function HexFields(ns: seq<nat>): (fs: seq<Octets>)
    ensures |fs| == |ns| && forall i | 0 <= i < |ns| :: fs[i] == Hex8(ns[i])
  {
    seq(|ns|, i requires 0 <= i < |ns| => Hex8(ns[i]))
  }

  function Header(mode: nat, size: nat, nameSize: nat): Octets {
    MAGIC + Flatten(HexFields(Numbers(mode, size, nameSize)))
  }

  function NulPad(n: nat): (p: Octets)
    ensures |p| == PadLength(n, 4)
  {
    Filled(PadLength(n, 4), NUL)
  }

  /** One entry: header and name padded together, then the data padded by its own length. */
  function Write(e: Entry): Octets {
    var header := Header(e.mode, |e.data|, |e.name| + 1);
    var nameField := e.name + [NUL];
    header + nameField + NulPad(|header| + |nameField|) + e.data + NulPad(|e.data|)
  }

  function Parts(es: seq<Entry>): (parts: seq<Octets>)
    ensures |parts| == |es| && forall i | 0 <= i < |es| :: parts[i] == Write(es[i])
  {
    seq(|es|, i requires 0 <= i < |es| => Write(es[i]))
  }

  function Trailer(): Octets { Write(Entry(TRAILER, 0, [])) }

  function Archive(es: seq<Entry>): Octets { Flatten(Parts(es)) + Trailer() }

  /** The payload builder: entries appended one by one, the trailer last. */
  method BuildArchive(es: seq<Entry>) returns (cpio: Octets)
    ensures cpio == Archive(es)
  {
    cpio := [];
    for i := 0 to |es|
      invariant cpio == Flatten(Parts(es)[..i])
    {
      FlattenSnoc(Parts(es), i);
      cpio := cpio + Write(es[i]);
    }
    assert Parts(es)[..|es|] == Parts(es);
    cpio := cpio + Write(Entry(TRAILER, 0, []));
  }

  // ---- Reading ---------------------------------------------------------------------------

  /** The number in field `i` of a header. */
  function Number(header: Octets, i: nat): Option<nat>
    requires |header| == 110 && i < 13
  {
    ParseHex(header[6..][8 * i..8 * i + 8])
  }

  /** Name and data behind a header, with their padding; a name ends at its only NUL. */
  function ReadBody(mode: nat, size: nat, nameSize: nat, t: Octets): Option<(Entry, Octets)> {
    if nameSize == 0 || |t| < nameSize then None
    else if IndexOf(t[..nameSize], NUL) != nameSize - 1 then None
    else
      var start := nameSize + PadLength(110 + nameSize, 4);
      var end := start + size + PadLength(size, 4);
      if |t| < end then None
      else Some((Entry(t[..nameSize - 1], mode, t[start..start + size]), t[end..]))
  }

  function Read(s: Octets): (r: Option<(Entry, Octets)>)
    ensures r.Some? ==> |r.value.1| < |s|
  {
    if |s| < 110 || s[..6] != MAGIC then None
    else
      var mode, size, nameSize := Number(s[..110], 1), Number(s[..110], 6), Number(s[..110], 11);
      if mode.None? || size.None? || nameSize.None? then None
      else ReadBody(mode.value, size.value, nameSize.value, s[110..])
  }

  /** Entries up to the trailer; what follows the trailer is ignored. */
  function ReadArchive(s: Octets): Option<seq<Entry>>
    decreases |s|
  {
    var first := Read(s);
    if first.None? then None
    else if first.value.0.name == TRAILER then Some([])
    else
      var rest := ReadArchive(first.value.1);
      if rest.None? then None else Some([first.value.0] + rest.value)
  }

  // ---- The reader undoes the writer ------------------------------------------------------

  /** What the eight-digit fields can carry. */
  predicate Fits(e: Entry) { e.mode < LIMIT && |e.data| < LIMIT && |e.name| + 1 < LIMIT }

  lemma HeaderNumbers(mode: nat, size: nat, nameSize: nat)
    requires mode < LIMIT && size < LIMIT && nameSize < LIMIT
    ensures var h := Header(mode, size, nameSize);
            && |h| == 110 && h[..6] == MAGIC
            && Number(h, 1) == Some(mode) && Number(h, 6) == Some(size) && Number(h, 11) == Some(nameSize)
  {
    var ns := Numbers(mode, size, nameSize);
    NumberAt(ns, 1);
    NumberAt(ns, 6);
    NumberAt(ns, 11);
  }

  lemma NumberAt(ns: seq<nat>, i: nat)
    requires |ns| == 13 && i < 13 && forall k | 0 <= k < 13 :: ns[k] < LIMIT
    ensures var h := MAGIC + Flatten(HexFields(ns));
            |h| == 110 && h[..6] == MAGIC && Number(h, i) == Some(ns[i])
  {
    var fs := HexFields(ns);
    forall k | 0 <= k < 13 ensures |fs[k]| == 8 { Hex8RoundTrip(ns[k]); }
    FieldAt(fs, 8, i);
    Hex8RoundTrip(ns[i]);
    assert (MAGIC + Flatten(fs))[6..] == Flatten(fs);
  }

  /** Reading looks at the header and the rest separately. */
  lemma ReadAt(h: Octets, t: Octets)
    requires |h| == 110 && h[..6] == MAGIC
    ensures Read(h + t) ==
            var mode, size, nameSize := Number(h, 1), Number(h, 6), Number(h, 11);
            if mode.None? || size.None? || nameSize.None? then None
            else ReadBody(mode.value, size.value, nameSize.value, t)
  {
    var s := h + t;
    assert s[..110] == h && s[110..] == t && s[..6] == h[..6];
  }

  function Body(e: Entry, tail: Octets): Octets {
    e.name + [NUL] + NulPad(110 + |e.name| + 1) + e.data + NulPad(|e.data|) + tail
  }

  lemma BodyReadsBackIff(e: Entry, tail: Octets)
    ensures NUL !in e.name ==> ReadBody(e.mode, |e.data|, |e.name| + 1, Body(e, tail)) == Some((e, tail))
    ensures NUL in e.name ==> ReadBody(e.mode, |e.data|, |e.name| + 1, Body(e, tail)) == None
  {
    var t, n := Body(e, tail), |e.name| + 1;
    var named := e.name + [NUL];
    assert t[..n] == named;
    if NUL !in e.name {
      IndexOfFirst(named, NUL, n - 1);
      var front := named + NulPad(110 + n);
      assert t == front + (e.data + (NulPad(|e.data|) + tail));
      assert t[..n - 1] == e.name && t[|front|..|front| + |e.data|] == e.data;
      var whole := front + e.data + NulPad(|e.data|);
      assert t == whole + tail;
    } else {
      var k :| 0 <= k < |e.name| && e.name[k] == NUL;
      assert named[k] == NUL;
    }
  }

  lemma HeaderThenBody(e: Entry, h: Octets, tail: Octets)
    requires h == Header(e.mode, |e.data|, |e.name| + 1) && |h| == 110
    ensures Write(e) + tail == h + Body(e, tail)
  {
    var named := e.name + [NUL];
    var pad, end := NulPad(110 + |e.name| + 1), NulPad(|e.data|);
    assert |h| + |named| == 110 + |e.name| + 1;
    assert Write(e) == h + named + pad + e.data + end;
    Regroup(h, named, pad, e.data, end, tail);
  }

  lemma Regroup(a: Octets, b: Octets, c: Octets, d: Octets, e: Octets, f: Octets)
    ensures a + b + c + d + e + f == a + (b + c + d + e + f)
  {
  }

  /** An entry reads back exactly when its name has no NUL. */
  lemma ReadUndoesWriteIff(e: Entry, tail: Octets)
    requires Fits(e)
    ensures NUL !in e.name ==> Read(Write(e) + tail) == Some((e, tail))
    ensures NUL in e.name ==> Read(Write(e) + tail) == None
  {
    var h := Header(e.mode, |e.data|, |e.name| + 1);
    HeaderNumbers(e.mode, |e.data|, |e.name| + 1);
    HeaderThenBody(e, h, tail);
    ReadAt(h, Body(e, tail));
    BodyReadsBackIff(e, tail);
  }

  /** Padding inside an entry is computed from the entry alone, yet stays right in an archive. */
  lemma EntryAligned(e: Entry)
    ensures |Write(e)| % 4 == 0
  {
  }

  lemma {:induction false} FlattenAligned(parts: seq<Octets>)
    requires forall k | 0 <= k < |parts| :: |parts[k]| % 4 == 0
    ensures |Flatten(parts)| % 4 == 0
  {
    if parts == [] {
    } else {
      FlattenAligned(parts[1..]);
    }
  }

  lemma PartsAligned(parts: seq<Octets>, trailer: Octets, i: nat)
    requires i <= |parts| && forall k | 0 <= k < |parts| :: |parts[k]| % 4 == 0
    ensures |Flatten(parts[..i])| % 4 == 0
    ensures Flatten(parts) + trailer == Flatten(parts[..i]) + (Flatten(parts[i..]) + trailer)
  {
    FlattenAligned(parts[..i]);
    FlattenAppend(parts[..i], parts[i..]);
    assert parts[..i] + parts[i..] == parts;
  }

  /** Every entry of an archive, and the trailer, starts at a multiple of four. */
  lemma EntriesStartAligned(es: seq<Entry>, i: nat)
    requires i <= |es|
    ensures |Flatten(Parts(es)[..i])| % 4 == 0
    ensures Archive(es) == Flatten(Parts(es)[..i]) + (Flatten(Parts(es)[i..]) + Trailer())
  {
    forall k | 0 <= k < |es| ensures |Parts(es)[k]| % 4 == 0 { EntryAligned(es[k]); }
    PartsAligned(Parts(es), Trailer(), i);
  }

  predicate NameSurvives(name: Octets) { NUL !in name && name != TRAILER }

  ghost predicate ReadsBack(part: Octets, e: Entry) {
    forall tail :: Read(part + tail) == if NUL in e.name then None else Some((e, tail))
  }

  lemma EntryReadBackIff(s: Octets, part: Octets, rest: Octets, es: seq<Entry>)
    requires s == part + rest && es != [] && ReadsBack(part, es[0])
    ensures ReadArchive(s) == Some(es) <==> NameSurvives(es[0].name) && ReadArchive(rest) == Some(es[1..])
  {
    assert Read(part + rest) == if NUL in es[0].name then None else Some((es[0], rest));
    assert es == [es[0]] + es[1..];
    if NUL !in es[0].name && es[0].name != TRAILER && ReadArchive(rest).Some? {
      assert ([es[0]] + ReadArchive(rest).value)[1..] == ReadArchive(rest).value;
    }
  }

  ghost predicate AllReadBack(parts: seq<Octets>, es: seq<Entry>)
    requires |parts| == |es|
  {
    es == [] || (ReadsBack(parts[0], es[0]) && AllReadBack(parts[1..], es[1..]))
  }

  predicate AllSurvive(es: seq<Entry>) { es == [] || (NameSurvives(es[0].name) && AllSurvive(es[1..])) }

  lemma {:induction false} AllSurviveIff(es: seq<Entry>)
    ensures AllSurvive(es) <==> forall e | e in es :: NameSurvives(e.name)
  {
    if es == [] {
    } else {
      AllSurviveIff(es[1..]);
      assert es == [es[0]] + es[1..];
    }
  }

  lemma FirstPartFirst(parts: seq<Octets>, trailer: Octets)
    requires parts != []
    ensures Flatten(parts) + trailer == parts[0] + (Flatten(parts[1..]) + trailer)
  {
  }

  /** Reading back, given what each part reads back to. */
  lemma {:induction false} PartsReadBackIff(parts: seq<Octets>, es: seq<Entry>, trailer: Octets)
    requires |parts| == |es| && AllReadBack(parts, es)
    requires ReadArchive(trailer) == Some([])
    ensures ReadArchive(Flatten(parts) + trailer) == Some(es) <==> AllSurvive(es)
  {
    if es == [] {
      assert Flatten(parts) + trailer == trailer;
    } else {
      PartsReadBackIff(parts[1..], es[1..], trailer);
      FirstPartFirst(parts, trailer);
      EntryReadBackIff(Flatten(parts) + trailer, parts[0], Flatten(parts[1..]) + trailer, es);
    }
  }

  lemma {:induction false} WrittenReadBack(es: seq<Entry>)
    requires forall e | e in es :: Fits(e)
    ensures AllReadBack(Parts(es), es)
  {
    if es == [] {
    } else {
      assert Parts(es)[1..] == Parts(es[1..]);
      WrittenReadBack(es[1..]);
      forall tail ensures Read(Parts(es)[0] + tail) == if NUL in es[0].name then None else Some((es[0], tail)) {
        ReadUndoesWriteIff(es[0], tail);
      }
    }
  }

  /**
   Parsing an archive returns exactly the entries it was built from, precisely when no name
   contains a NUL or is the trailer's.
   */
  lemma ArchiveRoundTripIff(es: seq<Entry>)
    requires forall e | e in es :: Fits(e)
    ensures ReadArchive(Archive(es)) == Some(es) <==> forall e | e in es :: NameSurvives(e.name)
  {
    WrittenReadBack(es);
    AllSurviveIff(es);
    TrailerReads();
    PartsReadBackIff(Parts(es), es, Trailer());
  }

  lemma TrailerReads()
    ensures Read(Trailer()) == Some((Entry(TRAILER, 0, []), []))
  {
    ReadUndoesWriteIff(Entry(TRAILER, 0, []), []);
    assert Trailer() + [] == Trailer();
  }
}
