/**
 The RPM file: a 96-byte lead, a signature header padded to eight bytes, the main header and
 the compressed payload.
 */
module RpmFile {
  import opened Wrappers
  import opened Bytes
  import H = RpmHeader

  const HEADER_MAGIC: Octets := [0x8E, 0xAD, 0xE8, 0x01]
  const LEAD_MAGIC: Octets := [0xED, 0xAB, 0xEE, 0xDB]
  const SIGTAG_SIZE := 1000
  const SIGTAG_PAYLOADSIZE := 1007
  const LEAD_SIZE := 96

  function Be16(n: nat): (s: Octets)
    requires n < 0x1_0000
    ensures |s| == 2
  {
    [n / 256, n % 256]
  }

  /** The lead; None where the package name is not ASCII. */
  function Lead(fullName: Octets): (r: Option<Octets>)
    ensures r.Some? <==> Ascii(fullName)
    ensures r.Some? ==> |r.value| == LEAD_SIZE
  {
    if !Ascii(fullName) then None
    else
      var cut := if |fullName| > 66 then fullName[..66] else fullName;
      Some(LEAD_MAGIC + [3, 0] + Be16(0) + Be16(1) + LeftJustified(cut, 66, NUL) + Be16(1) + Be16(5) + Filled(16, NUL))
  }

  /** A header section: magic, counts, index and store. */
  function Section(n: nat, index: Octets, store: Octets): Octets {
    HEADER_MAGIC + Be32(0) + Be32(n) + Be32(|store|) + index + store
  }

  /** The section over some entries; None where a number does not fit its field. */
  function HeaderOf(entries: seq<H.Entry>): Option<Octets> {
    var es := H.Sorted(entries);
    if !H.Packable(es) || |entries| >= H.LIMIT || |H.Store(es)| >= H.LIMIT then None
    else Some(Section(|entries|, H.Index(es), H.Store(es)))
  }

  function SignatureEntries(headerSize: nat, payloadSize: nat): seq<H.Entry> {
    [H.Entry(SIGTAG_SIZE, H.INT32, Be32(headerSize + payloadSize)),
     H.Entry(SIGTAG_PAYLOADSIZE, H.INT32, Be32(payloadSize))]
  }

  function PaddedSignature(sig: Octets): Octets { sig + Filled(PadLength(|sig|, 8), NUL) }

  /** The whole file; None where the writer raises. */
  function File(fullName: Octets, entries: seq<H.Entry>, payload: Octets): Option<Octets> {
    var lead, header := Lead(fullName), HeaderOf(entries);
    if lead.None? || header.None? || |header.value| + |payload| >= H.LIMIT then None
    else
      var sig := HeaderOf(SignatureEntries(|header.value|, |payload|));
      if sig.None? then None
      else Some(lead.value + PaddedSignature(sig.value) + header.value + payload)
  }

  // ---- Reading ---------------------------------------------------------------------------

  datatype Parsed = Parsed(count: nat, index: Octets, store: Octets, rest: Octets)

  function ReadSection(s: Octets): Option<Parsed> {
    if |s| < 16 || s[..4] != HEADER_MAGIC then None
    else
      var n, size := ReadBe32(s[8..12]), ReadBe32(s[12..16]);
      if |s| < 16 + 16 * n + size then None
      else Some(Parsed(n, s[16..16 + 16 * n], s[16 + 16 * n..16 + 16 * n + size], s[16 + 16 * n + size..]))
  }

  /** Where the main header starts: after the lead and the padded signature. */
  function HeaderStart(sig: Parsed): nat {
    var n := 16 + |sig.index| + |sig.store|;
    LEAD_SIZE + n + PadLength(n, 8)
  }

  function ReadFile(s: Octets): Option<(Parsed, Parsed)> {
    if |s| < LEAD_SIZE || s[..4] != LEAD_MAGIC then None
    else
      var sig := ReadSection(s[LEAD_SIZE..]);
      if sig.None? || HeaderStart(sig.value) > |s| then None
      else
        var header := ReadSection(s[HeaderStart(sig.value)..]);
        if header.None? then None else Some((sig.value, header.value))
  }

  lemma SectionReadsBack(n: nat, index: Octets, store: Octets, rest: Octets)
    requires |index| == 16 * n && n < H.LIMIT && |store| < H.LIMIT
    ensures ReadSection(Section(n, index, store) + rest) == Some(Parsed(n, index, store, rest))
  {
    var prefix := HEADER_MAGIC + Be32(0) + Be32(n) + Be32(|store|);
    var s := Section(n, index, store) + rest;
    assert |prefix| == 16 && prefix[..4] == HEADER_MAGIC && prefix[8..12] == Be32(n) && prefix[12..16] == Be32(|store|);
    Be32RoundTrip(n);
    Be32RoundTrip(|store|);
    SplitSection(prefix, index, store, rest);
    assert s == prefix + index + store + rest;
  }

  lemma SplitSection(prefix: Octets, index: Octets, store: Octets, rest: Octets)
    requires |prefix| == 16
    ensures var s := prefix + index + store + rest;
            && s[..4] == prefix[..4] && s[8..12] == prefix[8..12] && s[12..16] == prefix[12..16]
            && s[16..16 + |index|] == index
            && s[16 + |index|..16 + |index| + |store|] == store
            && s[16 + |index| + |store|..] == rest
  {
  }

  lemma HeaderReadsBack(entries: seq<H.Entry>, rest: Octets)
    requires HeaderOf(entries).Some?
    ensures var es := H.Sorted(entries);
            && |H.Index(es)| == 16 * |entries|
            && |HeaderOf(entries).value| == 16 + 16 * |entries| + |H.Store(es)|
            && ReadSection(HeaderOf(entries).value + rest) == Some(Parsed(|entries|, H.Index(es), H.Store(es), rest))
  {
    var es := H.Sorted(entries);
    H.SortedLength(entries);
    if es != [] { H.IndexRecord(es, 0); } else { assert H.Index(es) == []; }
    SectionReadsBack(|entries|, H.Index(es), H.Store(es), rest);
  }

  /** A reader that skips a lead and a padded signature finds the main header behind them. */
  lemma ReadFileAt(lead: Octets, sig: Octets, pad: Octets, tail: Octets, first: Parsed, second: Parsed)
    requires |lead| == LEAD_SIZE && lead[..4] == LEAD_MAGIC
    requires ReadSection(sig + (pad + tail)) == Some(first) && ReadSection(tail) == Some(second)
    requires HeaderStart(first) == LEAD_SIZE + |sig| + |pad|
    ensures ReadFile(lead + (sig + pad) + tail) == Some((first, second))
    ensures |lead + (sig + pad) + tail| - HeaderStart(first) == |tail|
  {
    var s := lead + (sig + pad) + tail;
    assert s == lead + (sig + (pad + tail));
    assert s[..4] == lead[..4] && s[LEAD_SIZE..] == sig + (pad + tail);
    assert s[LEAD_SIZE + |sig| + |pad|..] == tail;
  }

  lemma LeadStarts(fullName: Octets)
    requires Ascii(fullName)
    ensures |Lead(fullName).value| == LEAD_SIZE && Lead(fullName).value[..4] == LEAD_MAGIC
  {
  }

  /** The section a reader should find for some entries. */
  function PartOf(entries: seq<H.Entry>, rest: Octets): Parsed {
    var es := H.Sorted(entries);
    Parsed(|entries|, H.Index(es), H.Store(es), rest)
  }

  lemma PartSize(entries: seq<H.Entry>, rest: Octets)
    requires HeaderOf(entries).Some?
    ensures 16 + |PartOf(entries, rest).index| + |PartOf(entries, rest).store| == |HeaderOf(entries).value|
    ensures ReadSection(HeaderOf(entries).value + rest) == Some(PartOf(entries, rest))
  {
    HeaderReadsBack(entries, rest);
  }

  /** Any two sections put together like a signature and a header are found again. */
  lemma Assembled(lead: Octets, sig: Octets, header: Octets, payload: Octets, first: Parsed, second: Parsed)
    requires |lead| == LEAD_SIZE && lead[..4] == LEAD_MAGIC
    requires 16 + |first.index| + |first.store| == |sig|
    requires ReadSection(sig + (Filled(PadLength(|sig|, 8), NUL) + (header + payload))) == Some(first)
    requires ReadSection(header + payload) == Some(second)
    ensures var s := lead + PaddedSignature(sig) + header + payload;
            && ReadFile(s) == Some((first, second))
            && HeaderStart(first) % 8 == 0
            && |s| - HeaderStart(first) == |header| + |payload|
  {
    ReadFileAt(lead, sig, Filled(PadLength(|sig|, 8), NUL), header + payload, first, second);
    assert lead + PaddedSignature(sig) + header + payload == lead + PaddedSignature(sig) + (header + payload);
    HeadersEven(|sig|);
  }

  lemma HeadersEven(n: nat)
    ensures (LEAD_SIZE + n + PadLength(n, 8)) % 8 == 0
  {
  }

  /** The parts of a file written around any signature entries are found again. */
  lemma PartsFound(fullName: Octets, sigEntries: seq<H.Entry>, entries: seq<H.Entry>, payload: Octets)
    returns (tail: Octets)
    requires Ascii(fullName) && HeaderOf(sigEntries).Some? && HeaderOf(entries).Some?
    ensures var header := HeaderOf(entries).value;
            var s := Lead(fullName).value + PaddedSignature(HeaderOf(sigEntries).value) + header + payload;
            var sig := PartOf(sigEntries, tail);
            && ReadFile(s) == Some((sig, PartOf(entries, payload)))
            && HeaderStart(sig) % 8 == 0
            && |s| - HeaderStart(sig) == |header| + |payload|
  {
    var sig, header := HeaderOf(sigEntries).value, HeaderOf(entries).value;
    tail := Filled(PadLength(|sig|, 8), NUL) + (header + payload);
    LeadStarts(fullName);
    PartSize(sigEntries, tail);
    PartSize(entries, payload);
    Assembled(Lead(fullName).value, sig, header, payload, PartOf(sigEntries, tail), PartOf(entries, payload));
  }

  /** The number a reader finds under an INT32 tag of the signature. */
  function SignatureNumber(sig: Parsed, i: nat): Option<(nat, nat)> {
    var e := H.ReadEntry(sig.index, sig.store, i);
    if e.Some? && e.value.typ == H.INT32 && |e.value.data| == 4 then Some((e.value.tag, ReadBe32(e.value.data)))
    else None
  }

  lemma SignatureSorted(headerSize: nat, payloadSize: nat)
    ensures H.Sorted(SignatureEntries(headerSize, payloadSize)) == SignatureEntries(headerSize, payloadSize)
  {
    var es := SignatureEntries(headerSize, payloadSize);
    assert es[..1] == [es[0]] && es[..1][..0] == [];
    assert H.Sorted([es[0]]) == [es[0]];
  }

  lemma SignatureReadsBack(headerSize: nat, payloadSize: nat, tail: Octets)
    requires headerSize + payloadSize < H.LIMIT && HeaderOf(SignatureEntries(headerSize, payloadSize)).Some?
    ensures Records(PartOf(SignatureEntries(headerSize, payloadSize), tail), headerSize, payloadSize)
  {
    var es := SignatureEntries(headerSize, payloadSize);
    SignatureSorted(headerSize, payloadSize);
    H.EntryReadsBackIff(es, 0);
    H.EntryReadsBackIff(es, 1);
    Be32RoundTrip(headerSize + payloadSize);
    Be32RoundTrip(payloadSize);
  }

  /** Every entry of the header part reads back. */
  predicate EntriesFound(part: Parsed, entries: seq<H.Entry>) {
    && part.count == |entries| == |H.Sorted(entries)|
    && forall i | 0 <= i < |entries| ::
         H.ReadEntry(part.index, part.store, i) == Some(H.Meaning(H.Sorted(entries)[i]))
  }

  lemma EntriesAreFound(entries: seq<H.Entry>, rest: Octets)
    requires H.Packable(H.Sorted(entries)) && forall e | e in entries :: H.Readable(e)
    ensures EntriesFound(PartOf(entries, rest), entries)
  {
    H.HeaderRoundTrip(entries);
    H.SortedLength(entries);
  }

  /** The numbers the signature must record for a header and a payload of these sizes. */
  predicate Records(sig: Parsed, headerSize: nat, payloadSize: nat) {
    && SignatureNumber(sig, 0) == Some((SIGTAG_SIZE, headerSize + payloadSize))
    && SignatureNumber(sig, 1) == Some((SIGTAG_PAYLOADSIZE, payloadSize))
  }

  /**
   What a reader should make of a file: the main header at a multiple of eight, a SIZE equal to
   the bytes from there to the end, the payload and its size, and every entry of the header.
   */
  predicate ReadsAs(s: Octets, entries: seq<H.Entry>, payload: Octets) {
    var parsed := ReadFile(s);
    && parsed.Some?
    && var (sig, header) := parsed.value;
    && HeaderStart(sig) % 8 == 0 && HeaderStart(sig) + |payload| <= |s|
    && Records(sig, |s| - HeaderStart(sig) - |payload|, |payload|)
    && header.rest == payload && EntriesFound(header, entries)
  }

  lemma ReadsAsWith(fullName: Octets, sigEntries: seq<H.Entry>, entries: seq<H.Entry>, payload: Octets)
    requires Ascii(fullName) && HeaderOf(sigEntries).Some? && HeaderOf(entries).Some?
    requires forall e | e in entries :: H.Readable(e)
    requires forall tail :: Records(PartOf(sigEntries, tail), |HeaderOf(entries).value|, |payload|)
    ensures ReadsAs(Lead(fullName).value + PaddedSignature(HeaderOf(sigEntries).value)
                    + HeaderOf(entries).value + payload, entries, payload)
  {
    var tail := PartsFound(fullName, sigEntries, entries, payload);
    assert Records(PartOf(sigEntries, tail), |HeaderOf(entries).value|, |payload|);
    EntriesAreFound(entries, payload);
  }

  lemma FileRoundTrip(fullName: Octets, entries: seq<H.Entry>, payload: Octets)
    requires File(fullName, entries, payload).Some? && forall e | e in entries :: H.Readable(e)
    ensures ReadsAs(File(fullName, entries, payload).value, entries, payload)
  {
    var size := |HeaderOf(entries).value|;
    var sigEntries := SignatureEntries(size, |payload|);
    forall tail ensures Records(PartOf(sigEntries, tail), size, |payload|) {
      SignatureReadsBack(size, |payload|, tail);
    }
    ReadsAsWith(fullName, sigEntries, entries, payload);
  }

  /** The bytes of the main header, by the sizes of what goes into it. */
  function HeaderSize(entries: seq<H.Entry>): nat { 16 + 16 * |entries| + |H.Store(H.Sorted(entries))| }

  /**
   A file is written exactly when the name is ASCII, all tags and types fit 32 bits, and so
   does the size of header and payload together.
   */
  lemma FileWrittenIff(fullName: Octets, entries: seq<H.Entry>, payload: Octets)
    ensures File(fullName, entries, payload).Some? <==>
              Ascii(fullName) && H.SmallTags(entries) && HeaderSize(entries) + |payload| < H.LIMIT
  {
    if |H.Store(H.Sorted(entries))| < H.LIMIT && |entries| < H.LIMIT {
      HeaderWrittenIff(entries);
      if HeaderOf(entries).Some? { SignaturePacks(|HeaderOf(entries).value|, |payload|); }
    }
  }

  lemma HeaderWrittenIff(entries: seq<H.Entry>)
    requires |H.Store(H.Sorted(entries))| < H.LIMIT && |entries| < H.LIMIT
    ensures HeaderOf(entries).Some? <==> H.SmallTags(entries)
    ensures HeaderOf(entries).Some? ==> |HeaderOf(entries).value| == HeaderSize(entries)
  {
    H.PackableIff(H.Sorted(entries));
    H.SortedTags(entries);
    H.SortedLength(entries);
    H.IndexSize(H.Sorted(entries));
  }

  lemma SignaturePacks(headerSize: nat, payloadSize: nat)
    ensures HeaderOf(SignatureEntries(headerSize, payloadSize)).Some?
  {
    SignatureSorted(headerSize, payloadSize);
    TwoIntegersPack(SignatureEntries(headerSize, payloadSize));
  }

  lemma TwoIntegersPack(es: seq<H.Entry>)
    requires |es| == 2 && forall i | 0 <= i < 2 :: es[i].typ == H.INT32 && |es[i].data| == 4 && es[i].tag < H.LIMIT
    ensures H.Packable(es) && |H.Store(es)| == 8
  {
    assert es[..0] == [];
    H.LayoutStep(es, 0);
    H.LayoutStep(es, 1);
    assert es[..2] == es;
    assert H.Offset(es, 0) == 0;
    assert |H.Layout(es[..1])| == 4;
    assert H.Offset(es, 1) == 4;
    assert H.FitUpTo(es, 0) && H.RecordFits(es, 0) && H.RecordFits(es, 1);
    assert H.FitUpTo(es, 1);
  }
}
