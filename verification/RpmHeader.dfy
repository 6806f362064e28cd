/**
 The RPM header structure: an index of 16-byte records over a store of values, as described
 in "Package File Format" of the Linux Standard Base Core specification.
 */
module RpmHeader {
  import opened Wrappers
  import opened Bytes

  const INT32 := 4
  const STRING := 6
  const BIN := 7
  const STRING_ARRAY := 8
  const I18NSTRING := 9
  const LIMIT := 0x1_0000_0000

  datatype Entry = Entry(tag: nat, typ: nat, data: Octets)

  // ---- Sorting by tag --------------------------------------------------------------------

  /** Insert after every entry whose tag is not greater, as a stable sort does. */
  function Insert(e: Entry, es: seq<Entry>): seq<Entry> {
    if es == [] then [e]
    else if es[|es| - 1].tag <= e.tag then es + [e]
    else Insert(e, es[..|es| - 1]) + [es[|es| - 1]]
  }

  function Sorted(es: seq<Entry>): seq<Entry> {
    if es == [] then [] else Insert(es[|es| - 1], Sorted(es[..|es| - 1]))
  }

  predicate Ascending(es: seq<Entry>) {
    forall i, j | 0 <= i < j < |es| :: es[i].tag <= es[j].tag
  }

  function WithTag(es: seq<Entry>, tag: nat): seq<Entry> {
    if es == [] then []
    else WithTag(es[..|es| - 1], tag) + (if es[|es| - 1].tag == tag then [es[|es| - 1]] else [])
  }

  lemma {:induction false} InsertKeepsEntries(e: Entry, es: seq<Entry>)
    ensures multiset(Insert(e, es)) == multiset(es) + multiset{e}
    decreases |es|
  {
    if es == [] || es[|es| - 1].tag <= e.tag {
    } else {
      InsertKeepsEntries(e, es[..|es| - 1]);
      assert es == es[..|es| - 1] + [es[|es| - 1]];
    }
  }

  lemma {:induction false} InsertKeepsOrder(e: Entry, es: seq<Entry>)
    requires Ascending(es)
    ensures Ascending(Insert(e, es))
    decreases |es|
  {
    if es == [] || es[|es| - 1].tag <= e.tag {
    } else {
      var init, last := es[..|es| - 1], es[|es| - 1];
      InsertKeepsOrder(e, init);
      InsertKeepsEntries(e, init);
      var r := Insert(e, init);
      forall i | 0 <= i < |r| ensures r[i].tag <= last.tag {
        assert r[i] in multiset(r);
        assert r[i] == e || r[i] in multiset(init);
      }
    }
  }

  lemma WithTagSnoc(es: seq<Entry>, e: Entry, tag: nat)
    ensures WithTag(es + [e], tag) == WithTag(es, tag) + (if e.tag == tag then [e] else [])
  {
    assert (es + [e])[..|es|] == es;
  }

  lemma {:induction false} InsertIsStable(e: Entry, es: seq<Entry>, tag: nat)
    ensures WithTag(Insert(e, es), tag) == WithTag(es, tag) + (if e.tag == tag then [e] else [])
    decreases |es|
  {
    if es == [] {
      WithTagSnoc([], e, tag);
      assert [] + [e] == [e];
    } else {
      var init, last := es[..|es| - 1], es[|es| - 1];
      assert es == init + [last];
      if last.tag <= e.tag {
        WithTagSnoc(es, e, tag);
      } else {
        InsertIsStable(e, init, tag);
        WithTagSnoc(Insert(e, init), last, tag);
      }
    }
  }

  lemma {:induction false} SortedInOrder(es: seq<Entry>)
    ensures Ascending(Sorted(es)) && multiset(Sorted(es)) == multiset(es)
    decreases |es|
  {
    if es == [] {
    } else {
      var init, last := es[..|es| - 1], es[|es| - 1];
      SortedInOrder(init);
      InsertKeepsEntries(last, Sorted(init));
      InsertKeepsOrder(last, Sorted(init));
      assert es == init + [last];
    }
  }

  lemma {:induction false} SortedIsStable(es: seq<Entry>, tag: nat)
    ensures WithTag(Sorted(es), tag) == WithTag(es, tag)
    decreases |es|
  {
    if es == [] {
    } else {
      SortedIsStable(es[..|es| - 1], tag);
      InsertIsStable(es[|es| - 1], Sorted(es[..|es| - 1]), tag);
    }
  }

  /** Sorting keeps the entries, orders them by tag, and keeps the order within a tag. */
  lemma SortedProperties(es: seq<Entry>, tag: nat)
    ensures Ascending(Sorted(es)) && multiset(Sorted(es)) == multiset(es)
    ensures WithTag(Sorted(es), tag) == WithTag(es, tag)
  {
    SortedInOrder(es);
    SortedIsStable(es, tag);
  }

  lemma SortedLength(es: seq<Entry>)
    ensures |Sorted(es)| == |es|
  {
    SortedProperties(es, 0);
    assert |multiset(Sorted(es))| == |multiset(es)|;
  }

  // ---- Layout ----------------------------------------------------------------------------

  predicate IsText(typ: nat) { typ == STRING || typ == STRING_ARRAY || typ == I18NSTRING }

  /** The bytes an entry puts in the store; text is closed by a NUL it may already carry. */
  function Stored(e: Entry): Octets {
    if IsText(e.typ) && !(e.data != [] && e.data[|e.data| - 1] == NUL) then e.data + [NUL] else e.data
  }

  function Count(e: Entry): nat { if e.typ == BIN then |e.data| else 1 }

  function Aligned(store: Octets, typ: nat): Octets {
    if typ == INT32 then store + Filled(PadLength(|store|, 4), NUL) else store
  }

  /** The store before its final padding. */
  function Layout(es: seq<Entry>): Octets {
    if es == [] then []
    else Aligned(Layout(es[..|es| - 1]), es[|es| - 1].typ) + Stored(es[|es| - 1])
  }

  function Offset(es: seq<Entry>, i: nat): nat
    requires i < |es|
  {
    |Aligned(Layout(es[..i]), es[i].typ)|
  }

  function Record(tag: nat, typ: nat, offset: nat, count: nat): (r: Octets)
    ensures |r| == 16
  {
    Be32(tag) + Be32(typ) + Be32(offset) + Be32(count)
  }

  /** One record an entry, in the order of the entries. */
  function Records(es: seq<Entry>): (rs: seq<Octets>)
    ensures |rs| == |es|
    ensures forall i | 0 <= i < |es| :: rs[i] == Record(es[i].tag, es[i].typ, Offset(es, i), Count(es[i]))
  {
    seq(|es|, i requires 0 <= i < |es| => Record(es[i].tag, es[i].typ, Offset(es, i), Count(es[i])))
  }

  function Index(es: seq<Entry>): Octets { Flatten(Records(es)) }

  function Store(es: seq<Entry>): Octets {
    var s := Layout(es);
    s + Filled(PadLength(|s|, 8), NUL)
  }

  predicate RecordFits(es: seq<Entry>, i: nat)
    requires i < |es|
  {
    es[i].tag < LIMIT && es[i].typ < LIMIT && Offset(es, i) < LIMIT && Count(es[i]) < LIMIT
  }

  predicate FitUpTo(es: seq<Entry>, n: nat)
    requires n <= |es|
  {
    n == 0 || (FitUpTo(es, n - 1) && RecordFits(es, n - 1))
  }

  /** Numbers that a 32-bit field can carry; packing anything else raises. */
  predicate Packable(es: seq<Entry>) { FitUpTo(es, |es|) }

  lemma {:induction false} FitsEverywhere(es: seq<Entry>, n: nat, i: nat)
    requires i < n <= |es| && FitUpTo(es, n)
    ensures RecordFits(es, i) && FitUpTo(es, i + 1)
  {
    if i == n - 1 {
    } else {
      FitsEverywhere(es, n - 1, i);
    }
  }

  /** The writer's loops: align, append, record; then pad the store. None when packing raises. */
  method HeaderStore(entries: seq<Entry>) returns (r: Option<(Octets, Octets)>)
    ensures r.Some? <==> Packable(Sorted(entries))
    ensures r.Some? ==> r.value == (Index(Sorted(entries)), Store(Sorted(entries)))
  {
    var es := Sorted(entries);
    var store: Octets, index: Octets := [], [];
    for i := 0 to |es|
      invariant store == Layout(es[..i]) && index == Flatten(Records(es)[..i])
      invariant FitUpTo(es, i)
    {
      var next := PackNext(es, i, index, store);
      if next.None? {
        if Packable(es) { FitsEverywhere(es, |es|, i); }
        return None;
      }
      index, store := next.value.0, next.value.1;
    }
    assert es[..|es|] == es && Records(es)[..|es|] == Records(es);
    store := PadTo(store, 8);
    r := Some((index, store));
  }

  /** One turn of the loop: the data of an entry, and its record if the numbers fit. */
  method PackNext(es: seq<Entry>, i: nat, index: Octets, store: Octets) returns (r: Option<(Octets, Octets)>)
    requires i < |es| && store == Layout(es[..i]) && index == Flatten(Records(es)[..i])
    ensures r.Some? <==> RecordFits(es, i)
    ensures r.Some? ==> r.value == (Flatten(Records(es)[..i + 1]), Layout(es[..i + 1]))
  {
    var e := es[i];
    var longer, offset, count := AppendEntry(store, e);
    LayoutStep(es, i);
    FitsNow(es, i, offset, count);
    if e.tag >= LIMIT || e.typ >= LIMIT || offset >= LIMIT || count >= LIMIT { return None; }
    FlattenSnoc(Records(es), i);
    r := Some((index + Record(e.tag, e.typ, offset, count), longer));
  }

  lemma FitsNow(es: seq<Entry>, i: nat, offset: nat, count: nat)
    requires i < |es| && offset == Offset(es, i) && count == Count(es[i])
    ensures RecordFits(es, i) <==> es[i].tag < LIMIT && es[i].typ < LIMIT && offset < LIMIT && count < LIMIT
  {
  }

  /** One turn of the writer: align an integer, close a text, and note where the data went. */
  method AppendEntry(before: Octets, e: Entry) returns (store: Octets, offset: nat, count: nat)
    ensures store == Aligned(before, e.typ) + Stored(e)
    ensures offset == |Aligned(before, e.typ)| && count == Count(e)
  {
    store := before;
    if e.typ == INT32 { store := PadTo(store, 4); }
    offset, count := |store|, 1;
    var data := e.data;
    if IsText(e.typ) {
      if data == [] || data[|data| - 1] != NUL { data := data + [NUL]; }
    } else if e.typ == BIN {
      count := |data|;
    }
    store := store + data;
  }

  /** Append NULs one at a time until the length is a multiple of `m`. */
  method PadTo(s: Octets, m: nat) returns (r: Octets)
    requires m == 4 || m == 8
    ensures r == s + Filled(PadLength(|s|, m), NUL)
  {
    r := s;
    ghost var k := 0;
    while |r| % m != 0
      invariant |r| == |s| + k && k <= PadLength(|s|, m)
      invariant s <= r && forall i | |s| <= i < |r| :: r[i] == NUL
      decreases PadLength(|s|, m) - k
    {
      ShortPad(|s|, k, m);
      r, k := r + [NUL], k + 1;
    }
    PadIsLeast(|s|, k, m);
    assert r == s + Filled(k, NUL);
  }

  /** Padding one byte at a time stops at the least multiple. */
  lemma PadIsLeast(n: nat, k: nat, m: nat)
    requires (m == 4 || m == 8) && k <= PadLength(n, m) && (n + k) % m == 0
    ensures k == PadLength(n, m)
  {
  }

  lemma ShortPad(n: nat, k: nat, m: nat)
    requires (m == 4 || m == 8) && k <= PadLength(n, m) && (n + k) % m != 0
    ensures k < PadLength(n, m)
  {
  }

  lemma LayoutStep(es: seq<Entry>, i: nat)
    requires i < |es|
    ensures Layout(es[..i + 1]) == Aligned(Layout(es[..i]), es[i].typ) + Stored(es[i])
  {
    assert es[..i + 1][..i] == es[..i];
  }

  // ---- What the layout promises ----------------------------------------------------------

  /** The first `i` entries are laid out the same whatever follows. */
  lemma {:induction false} LayoutPrefix(es: seq<Entry>, i: nat)
    requires i <= |es|
    ensures |Layout(es[..i])| <= |Layout(es)| && Layout(es)[..|Layout(es[..i])|] == Layout(es[..i])
    decreases |es|
  {
    if i == |es| {
      assert es[..i] == es;
    } else {
      var init := es[..|es| - 1];
      LayoutPrefix(init, i);
      assert init[..i] == es[..i];
    }
  }

  /** Where entry `i` is recorded, its bytes are in the store. */
  lemma EntryInStore(es: seq<Entry>, i: nat)
    requires i < |es|
    ensures Offset(es, i) + |Stored(es[i])| <= |Store(es)|
    ensures Store(es)[Offset(es, i)..Offset(es, i) + |Stored(es[i])|] == Stored(es[i])
  {
    EntryInLayout(es, i);
    RegionInStore(Aligned(Layout(es[..i]), es[i].typ), Stored(es[i]), es);
  }

  lemma RegionInStore(a: Octets, b: Octets, es: seq<Entry>)
    requires |a + b| <= |Layout(es)| && Layout(es)[..|a + b|] == a + b
    ensures |a| + |b| <= |Store(es)| && Store(es)[|a|..|a| + |b|] == b
  {
    InPrefix(a, b, Layout(es), Filled(PadLength(|Layout(es)|, 8), NUL));
  }

  lemma EntryInLayout(es: seq<Entry>, i: nat)
    requires i < |es|
    ensures var ab := Aligned(Layout(es[..i]), es[i].typ) + Stored(es[i]);
            |ab| <= |Layout(es)| && Layout(es)[..|ab|] == ab
  {
    LayoutStep(es, i);
    LayoutPrefix(es, i + 1);
  }

  lemma InPrefix(a: Octets, b: Octets, whole: Octets, tail: Octets)
    requires |a + b| <= |whole| && whole[..|a + b|] == a + b
    ensures (whole + tail)[|a|..|a| + |b|] == b
  {
    assert (whole + tail)[..|a + b|] == a + b;
    assert (a + b)[|a|..] == b;
  }

  lemma IntegersAligned(es: seq<Entry>, i: nat)
    requires i < |es| && es[i].typ == INT32
    ensures Offset(es, i) % 4 == 0
  {
  }

  lemma NextStartsLater(es: seq<Entry>, i: nat)
    requires i + 1 < |es|
    ensures Offset(es, i) + |Stored(es[i])| <= Offset(es, i + 1)
  {
    LayoutStep(es, i);
  }

  /** Where the region of entry `i` ends. */
  function End(es: seq<Entry>, i: nat): nat
    requires i < |es|
  {
    Offset(es, i) + |Stored(es[i])|
  }

  /** Regions end in index order. */
  lemma {:induction false} EndsOrdered(es: seq<Entry>, i: nat, j: nat)
    requires i <= j < |es|
    ensures End(es, i) <= End(es, j)
    decreases j
  {
    if i == j {
    } else {
      EndsOrdered(es, i, j - 1);
      NextStartsLater(es, j - 1);
    }
  }

  lemma RegionsOrdered(es: seq<Entry>, i: nat, j: nat)
    requires i < j < |es|
    ensures Offset(es, i) + |Stored(es[i])| <= Offset(es, j)
  {
    EndsOrdered(es, i, j - 1);
    NextStartsLater(es, j - 1);
  }

  lemma StoreAligned(es: seq<Entry>)
    ensures |Store(es)| % 8 == 0
  {
  }

  // ---- Reading ---------------------------------------------------------------------------

  /** The value an index record points at. Only the types the writer knows can be read. */
  function ReadValue(store: Octets, typ: nat, offset: nat, count: nat): Option<Octets> {
    if offset > |store| then None
    else
      var s := store[offset..];
      if IsText(typ) then
        var end := IndexOf(s, NUL);
        if count == 1 && end < |s| then Some(s[..end]) else None
      else if typ == INT32 then (if 4 * count <= |s| then Some(s[..4 * count]) else None)
      else if typ == BIN then (if count <= |s| then Some(s[..count]) else None)
      else None
  }

  function ReadEntry(index: Octets, store: Octets, i: nat): Option<Entry> {
    if 16 * i + 16 > |index| then None
    else
      var r := index[16 * i..16 * i + 16];
      var typ := ReadBe32(r[4..8]);
      var value := ReadValue(store, typ, ReadBe32(r[8..12]), ReadBe32(r[12..16]));
      if value.None? then None else Some(Entry(ReadBe32(r[..4]), typ, value.value))
  }

  /** What reading an entry should give: text without its closing NUL. */
  function Meaning(e: Entry): Entry {
    if IsText(e.typ) && e.data != [] && e.data[|e.data| - 1] == NUL then e.(data := e.data[..|e.data| - 1]) else e
  }

  /** INT32 data of four bytes, text without inner NUL, any binary data. */
  predicate Readable(e: Entry) {
    if IsText(e.typ) then NUL !in Meaning(e).data
    else if e.typ == INT32 then |e.data| == 4
    else e.typ == BIN
  }

  lemma RecordReadsBack(tag: nat, typ: nat, offset: nat, count: nat)
    requires tag < LIMIT && typ < LIMIT && offset < LIMIT && count < LIMIT
    ensures var r := Record(tag, typ, offset, count);
            && |r| == 16 && ReadBe32(r[..4]) == tag && ReadBe32(r[4..8]) == typ
            && ReadBe32(r[8..12]) == offset && ReadBe32(r[12..16]) == count
  {
    var r := Record(tag, typ, offset, count);
    assert r[..4] == Be32(tag) && r[4..8] == Be32(typ) && r[8..12] == Be32(offset) && r[12..16] == Be32(count);
    Be32RoundTrip(tag);
    Be32RoundTrip(typ);
    Be32RoundTrip(offset);
    Be32RoundTrip(count);
  }

  lemma IndexRecord(es: seq<Entry>, i: nat)
    requires i < |es|
    ensures |Index(es)| == 16 * |es| && Index(es)[16 * i..16 * i + 16] == Records(es)[i]
  {
    FieldAt(Records(es), 16, i);
  }

  lemma TextReadsBackIff(store: Octets, e: Entry, offset: nat)
    requires IsText(e.typ) && offset + |Stored(e)| <= |store|
    requires store[offset..offset + |Stored(e)|] == Stored(e)
    ensures ReadValue(store, e.typ, offset, 1) == Some(Meaning(e).data) <==> NUL !in Meaning(e).data
  {
    var s, text := store[offset..], Meaning(e).data;
    assert Stored(e) == text + [NUL];
    assert s[..|text| + 1] == Stored(e);
    assert forall k | 0 <= k < |text| :: s[k] == Stored(e)[k] == text[k];
    assert s[|text|] == Stored(e)[|text|] == NUL;
    if NUL !in text {
      IndexOfFirst(s, NUL, |text|);
      assert s[..|text|] == text;
    } else {
      var k :| 0 <= k < |text| && text[k] == NUL;
      assert s[k] == NUL;
    }
  }

  lemma ValueReadsBackIff(store: Octets, e: Entry, offset: nat)
    requires offset + |Stored(e)| <= |store| && store[offset..offset + |Stored(e)|] == Stored(e)
    ensures ReadValue(store, e.typ, offset, Count(e)) == Some(Meaning(e).data) <==> Readable(e)
  {
    if IsText(e.typ) {
      TextReadsBackIff(store, e, offset);
    } else {
      var s := store[offset..];
      assert s[..|e.data|] == e.data;
    }
  }

  /** Entry `i` of the index reads back exactly when its data is what its type allows. */
  lemma EntryReadsBackIff(es: seq<Entry>, i: nat)
    requires i < |es| && Packable(es)
    ensures ReadEntry(Index(es), Store(es), i) == Some(Meaning(es[i])) <==> Readable(es[i])
  {
    FitsEverywhere(es, |es|, i);
    IndexRecord(es, i);
    RecordReadsBack(es[i].tag, es[i].typ, Offset(es, i), Count(es[i]));
    OffsetReadsBackIff(es, i, Store(es), Offset(es, i));
  }

  lemma OffsetReadsBackIff(es: seq<Entry>, i: nat, store: Octets, offset: nat)
    requires i < |es| && store == Store(es) && offset == Offset(es, i)
    ensures ReadValue(store, es[i].typ, offset, Count(es[i])) == Some(Meaning(es[i]).data) <==> Readable(es[i])
  {
    EntryInStore(es, i);
    ValueReadsBackIff(store, es[i], offset);
  }

  /** Tags and types that fit 32 bits. */
  predicate SmallTags(es: seq<Entry>) { forall i | 0 <= i < |es| :: es[i].tag < LIMIT && es[i].typ < LIMIT }

  lemma {:induction false} SmallEntriesFit(es: seq<Entry>, n: nat)
    requires n <= |es| && SmallTags(es) && |Store(es)| < LIMIT
    ensures FitUpTo(es, n)
  {
    if n == 0 {
    } else {
      SmallEntriesFit(es, n - 1);
      EntryInStore(es, n - 1);
    }
  }

  /** With a store below 32 bits, packing raises exactly for a tag or type that is not. */
  lemma PackableIff(es: seq<Entry>)
    requires |Store(es)| < LIMIT
    ensures Packable(es) <==> SmallTags(es)
  {
    if SmallTags(es) {
      SmallEntriesFit(es, |es|);
    } else if Packable(es) {
      forall i | 0 <= i < |es| ensures es[i].tag < LIMIT && es[i].typ < LIMIT { FitsEverywhere(es, |es|, i); }
    }
  }

  lemma SmallTagsCarry(a: seq<Entry>, b: seq<Entry>)
    requires multiset(a) == multiset(b) && SmallTags(a)
    ensures SmallTags(b)
  {
    forall i | 0 <= i < |b| ensures b[i].tag < LIMIT && b[i].typ < LIMIT {
      assert b[i] in multiset(b) && b[i] in multiset(a);
      var j :| 0 <= j < |a| && a[j] == b[i];
    }
  }

  lemma SortedTags(entries: seq<Entry>)
    ensures SmallTags(Sorted(entries)) <==> SmallTags(entries)
  {
    SortedInOrder(entries);
    if SmallTags(entries) {
      SmallTagsCarry(entries, Sorted(entries));
    } else if SmallTags(Sorted(entries)) {
      SmallTagsCarry(Sorted(entries), entries);
    }
  }

  lemma IndexSize(es: seq<Entry>)
    ensures |Index(es)| == 16 * |es|
  {
    if es == [] {
    } else {
      IndexRecord(es, 0);
    }
  }

  /** Reading a whole written header gives the entries in tag order, each with its value. */
  lemma HeaderRoundTrip(entries: seq<Entry>)
    requires Packable(Sorted(entries)) && forall e | e in entries :: Readable(e)
    ensures |Index(Sorted(entries))| == 16 * |entries| && |Store(Sorted(entries))| % 8 == 0
    ensures Ascending(Sorted(entries)) && multiset(Sorted(entries)) == multiset(entries)
    ensures forall i | 0 <= i < |entries| ::
              |Sorted(entries)| == |entries| &&
              ReadEntry(Index(Sorted(entries)), Store(Sorted(entries)), i) == Some(Meaning(Sorted(entries)[i]))
  {
    var es := Sorted(entries);
    SortedProperties(entries, 0);
    SortedLength(entries);
    StoreAligned(es);
    if es != [] { IndexRecord(es, 0); }
    forall i | 0 <= i < |es| ensures ReadEntry(Index(es), Store(es), i) == Some(Meaning(es[i])) {
      assert es[i] in multiset(es);
      EntryReadsBackIff(es, i);
    }
  }
}
