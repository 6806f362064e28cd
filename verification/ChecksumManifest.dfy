/**
 Checksum manifests: the text form (one "digest  label" line per file), the builder that
 writes it and the independent verifier that reads it back.
 */
module ManifestText {
  import opened Wrappers
  import opened Texts

  datatype Entry = Entry(name: string, digest: string)

  datatype ManifestError =
    | MissingInput | UnsafeLabel | Traversal | DuplicateLabel
    | InvalidLine | InvalidLabel | AbsoluteLabel | Conflict
    | MissingManifest | EmptyManifest | SelfListed | MissingTarget | Mismatch

  // ---- Lines -----------------------------------------------------------------------------

  /** The characters at which a text is cut into lines. */
  predicate IsBreak(c: char) {
    var n := c as int;
    10 <= n <= 13 || 28 <= n <= 30 || n == 0x85 || n == 0x2028 || n == 0x2029
  }

  predicate Unbroken(s: string) { forall i | 0 <= i < |s| :: !IsBreak(s[i]) }

  function FirstBreak(s: string): (i: nat)
    ensures i <= |s| && Unbroken(s[..i]) && (i < |s| ==> IsBreak(s[i]))
  {
    if s == "" || IsBreak(s[0]) then 0
    else
      var i := FirstBreak(s[1..]);
      assert s[..1 + i] == [s[0]] + s[1..][..i];
      1 + i
  }

  /** A carriage return and the line feed after it are one break; a final break ends no extra line. */
  function SplitLines(s: string): (lines: seq<string>)
    ensures forall i | 0 <= i < |lines| :: Unbroken(lines[i])
    decreases |s|
  {
    var i := FirstBreak(s);
    if s == "" then []
    else if i == |s| then [s[..i]]
    else
      var next := if s[i] == '\r' && i + 1 < |s| && s[i + 1] == '\n' then i + 2 else i + 1;
      [s[..i]] + SplitLines(s[next..])
  }

  /** The text of a manifest with the given lines. */
  function Text(lines: seq<string>): string {
    if lines == [] then "" else Join(lines, '\n') + "\n"
  }

  lemma FirstBreakAt(a: string, c: char, b: string)
    requires Unbroken(a) && IsBreak(c)
    ensures FirstBreak(a + [c] + b) == |a|
  {
    var s := a + [c] + b;
    var i := FirstBreak(s);
    assert s[|a|] == c;
    assert forall k | 0 <= k < |a| :: s[k] == a[k];
    assert forall k | 0 <= k < i :: s[k] == s[..i][k];
  }

  lemma {:induction false} SplitUndoesText(lines: seq<string>)
    requires forall i | 0 <= i < |lines| :: Unbroken(lines[i])
    ensures SplitLines(Text(lines)) == lines
  {
    if lines == [] {
    } else {
      var first, rest := lines[0], lines[1..];
      var s := Text(lines);
      assert s == first + ['\n'] + Text(rest);
      FirstBreakAt(first, '\n', Text(rest));
      assert s[..|first|] == first && s[|first| + 1..] == Text(rest);
      SplitUndoesText(rest);
    }
  }

  // ---- One line --------------------------------------------------------------------------

  predicate IsHex(c: char) { '0' <= c <= '9' || 'a' <= c <= 'f' || 'A' <= c <= 'F' }

  predicate Hex(s: string) { forall i | 0 <= i < |s| :: IsHex(s[i]) }

  /** What a SHA-256 digest looks like when it is written. */
  predicate IsDigest(s: string) {
    |s| == 64 && forall i | 0 <= i < |s| :: '0' <= s[i] <= '9' || 'a' <= s[i] <= 'f'
  }

  function Line(e: Entry): string { e.digest + "  " + e.name }

  function Lines(es: seq<Entry>): seq<string> { seq(|es|, i requires 0 <= i < |es| => Line(es[i])) }

  /** The components of a relative path text. */
  function Parts(name: string): seq<string> { Proper(Split(name, '/')) }

  function Proper(parts: seq<string>): seq<string> {
    if parts == [] then []
    else (if parts[0] == "" || parts[0] == "." then [] else [parts[0]]) + Proper(parts[1..])
  }

  /** A leading asterisk before something else is a marker of the format, not a part of the label. */
  predicate Starred(t: string) { |t| > 1 && t[0] == '*' }

  /** Sixty-four hexadecimal digits, white space, an optional asterisk, and the label. */
  function MatchLine(s: string): Option<Entry> {
    if |s| > 64 && Hex(s[..64]) && IsSpace(s[64]) then
      var t := StripLeft(s[64..]);
      if t == "" then None
      else Some(Entry(Strip(if Starred(t) then t[1..] else t), Lower(s[..64])))
    else None
  }

  function Judge(e: Entry): Result<Option<Entry>, ManifestError> {
    if e.name == "" || e.name == "." || e.name == ".." then Err(InvalidLabel)
    else if e.name[0] == '/' || (|e.name| > 1 && e.name[1] == ':') then Err(AbsoluteLabel)
    else if ".." in Parts(e.name) then Err(Traversal)
    else Ok(Some(e))
  }

  /** A line yields an entry, nothing (blank or comment), or an error. */
  function ParseLine(raw: string): Result<Option<Entry>, ManifestError> {
    var s := Strip(raw);
    if s == "" || s[0] == '#' then Ok(None)
    else match MatchLine(s)
      case None => Err(InvalidLine)
      case Some(e) => Judge(e)
  }

  /** What the builder demands of a label. */
  predicate Safe(name: string) {
    && name != "" && name != "." && name != ".." && '\n' !in name && Strip(name) == name
    && ".." !in Parts(name)
  }

  /** The safe labels that also read back: what a caller has to check beforehand. */
  predicate Plain(name: string) {
    && Unbroken(name) && !Starred(name)
    && !(|name| > 0 && name[0] == '/') && !(|name| > 1 && name[1] == ':')
  }

  lemma LowerDigest(s: string)
    requires IsDigest(s)
    ensures Hex(s) && Lower(s) == s
  {
  }

  /** A written line is read as its own entry, except that a leading asterisk is lost. */
  lemma WrittenLine(e: Entry)
    requires IsDigest(e.digest) && Safe(e.name)
    ensures ParseLine(Line(e)) ==
            Judge(Entry(if Starred(e.name) then Strip(e.name[1..]) else e.name, e.digest))
  {
    var s := Line(e);
    LowerDigest(e.digest);
    StripResult(e.name);
    assert s[0] == e.digest[0] && IsHex(s[0]);
    assert s[|s| - 1] == e.name[|e.name| - 1];
    StripTrimmed(s);
    assert s[..64] == e.digest && s[64] == ' ' && s[64..] == "  " + e.name;
    StripLeftBlank("  ", e.name);
  }

  /** A label that was read consists of characters of its line. */
  lemma ParsedWithin(raw: string)
    ensures ParseLine(raw).Ok? && ParseLine(raw).value.Some? ==>
              forall c | c in ParseLine(raw).value.value.name :: c in raw
  {
    var s := Strip(raw);
    StripResult(raw);
    if |s| > 64 {
      StripLeftSuffix(s[64..]);
      var t := StripLeft(s[64..]);
      assert forall c | c in t :: c in s;
      StripResult(t);
      if |t| > 0 { StripResult(t[1..]); }
    }
  }

  // ---- The whole text --------------------------------------------------------------------

  /** The remaining lines, read on top of what was collected so far. */
  function ParseFrom(lines: seq<string>, found: map<string, string>): Result<map<string, string>, ManifestError> {
    if lines == [] then Ok(found)
    else match ParseLine(lines[0])
      case Err(e) => Err(e)
      case Ok(None) => ParseFrom(lines[1..], found)
      case Ok(Some(e)) =>
        if e.name in found && found[e.name] != e.digest then Err(Conflict)
        else ParseFrom(lines[1..], found[e.name := e.digest])
  }

  function Parse(text: string): Result<map<string, string>, ManifestError> { ParseFrom(SplitLines(text), map[]) }

  method ParseManifest(text: string) returns (r: Result<map<string, string>, ManifestError>)
    ensures r == Parse(text)
  {
    var lines := SplitLines(text);
    var found: map<string, string> := map[];
    for i := 0 to |lines|
      invariant Parse(text) == ParseFrom(lines[i..], found)
    {
      match ParseLine(lines[i])
      case Err(e) => return Err(e);
      case Ok(None) =>
      case Ok(Some(e)) =>
        if e.name in found && found[e.name] != e.digest { return Err(Conflict); }
        found := found[e.name := e.digest];
    }
    r := Ok(found);
  }

  ghost predicate Yields(line: string, name: string, digest: string) {
    ParseLine(line) == Ok(Some(Entry(name, digest)))
  }

  /** A successful parse read every line, kept what it had, and found only what some line says. */
  lemma {:induction false} ParseCollects(lines: seq<string>, found: map<string, string>)
    requires ParseFrom(lines, found).Ok?
    ensures var m := ParseFrom(lines, found).value;
            && (forall k | k in found :: k in m && m[k] == found[k])
            && (forall i | 0 <= i < |lines| :: ParseLine(lines[i]).Ok?)
            && (forall k | k in m && k !in found :: exists i :: 0 <= i < |lines| && Yields(lines[i], k, m[k]))
  {
    if lines == [] {
    } else {
      var next := match ParseLine(lines[0]) case Ok(Some(e)) => found[e.name := e.digest] case _ => found;
      ParseCollects(lines[1..], next);
      var m := ParseFrom(lines, found).value;
      forall k | k in m && k !in found ensures exists i :: 0 <= i < |lines| && Yields(lines[i], k, m[k]) {
        if k in next {
          assert Yields(lines[0], k, m[k]);
        } else {
          var i :| 0 <= i < |lines[1..]| && Yields(lines[1..][i], k, m[k]);
          assert Yields(lines[i + 1], k, m[k]);
        }
      }
      forall i | 0 <= i < |lines| ensures ParseLine(lines[i]).Ok? {
        if i > 0 { assert lines[i] == lines[1..][i - 1]; }
      }
    }
  }

  /** Lines that all agree with one map are accepted. */
  lemma {:induction false} ParseAccepts(es: seq<Entry>, found: map<string, string>, m: map<string, string>)
    requires forall i | 0 <= i < |es| :: ParseLine(Line(es[i])) == Ok(Some(es[i]))
    requires forall i | 0 <= i < |es| :: es[i].name in m && m[es[i].name] == es[i].digest
    requires forall k | k in found :: k in m && m[k] == found[k]
    ensures ParseFrom(Lines(es), found).Ok?
    ensures forall i | 0 <= i < |es| :: es[i].name in ParseFrom(Lines(es), found).value
  {
    if es == [] {
    } else {
      var next := found[es[0].name := es[0].digest];
      assert Lines(es)[1..] == Lines(es[1..]);
      ParseAccepts(es[1..], next, m);
      ParseCollects(Lines(es[1..]), next);
      forall i | 0 <= i < |es| ensures es[i].name in ParseFrom(Lines(es), found).value {
        if i > 0 { assert es[i] == es[1..][i - 1]; }
      }
    }
  }

  /** `m` is the label-to-digest map of the entries. */
  ghost predicate IsMapOf(m: map<string, string>, es: seq<Entry>) {
    && (forall i | 0 <= i < |es| :: es[i].name in m && m[es[i].name] == es[i].digest)
    && (forall k | k in m :: exists i :: 0 <= i < |es| && es[i].name == k)
  }

  ghost predicate Writable(es: seq<Entry>) {
    forall i | 0 <= i < |es| :: IsDigest(es[i].digest) && Safe(es[i].name)
  }

  lemma LineUnbroken(e: Entry)
    requires IsDigest(e.digest) && Unbroken(e.name)
    ensures Unbroken(Line(e))
  {
    var s := Line(e);
    forall i | 0 <= i < |s| ensures !IsBreak(s[i]) {
      if i >= 66 { assert s[i] == e.name[i - 66]; }
    }
  }

  lemma SplitWritten(es: seq<Entry>)
    requires Writable(es) && forall i | 0 <= i < |es| :: Unbroken(es[i].name)
    ensures SplitLines(Text(Lines(es))) == Lines(es)
  {
    forall i | 0 <= i < |es| ensures Unbroken(Lines(es)[i]) { LineUnbroken(es[i]); }
    SplitUndoesText(Lines(es));
  }

  lemma PlainLine(e: Entry)
    requires IsDigest(e.digest) && Safe(e.name) && Plain(e.name)
    ensures ParseLine(Line(e)) == Ok(Some(e))
  {
    WrittenLine(e);
  }

  /** A map found in the lines of these entries, with all their labels, is theirs. */
  lemma SameMap(es: seq<Entry>, m: map<string, string>, r: map<string, string>)
    requires IsMapOf(m, es)
    requires forall i | 0 <= i < |es| :: es[i].name in r
    requires forall k | k in r :: exists i :: 0 <= i < |es| && es[i] == Entry(k, r[k])
    ensures r == m
  {
    forall k | k in r ensures k in m && m[k] == r[k] {
      var i :| 0 <= i < |es| && es[i] == Entry(k, r[k]);
    }
    forall k | k in m ensures k in r {
      var i :| 0 <= i < |es| && es[i].name == k;
    }
  }

  lemma LinesReadBack(es: seq<Entry>, m: map<string, string>)
    requires IsMapOf(m, es) && forall i | 0 <= i < |es| :: ParseLine(Line(es[i])) == Ok(Some(es[i]))
    ensures ParseFrom(Lines(es), map[]) == Ok(m)
  {
    ParseAccepts(es, map[], m);
    ParseCollects(Lines(es), map[]);
    var r := ParseFrom(Lines(es), map[]).value;
    forall k | k in r ensures exists i :: 0 <= i < |es| && es[i] == Entry(k, r[k]) {
      var i :| 0 <= i < |Lines(es)| && Yields(Lines(es)[i], k, r[k]);
      assert ParseLine(Line(es[i])) == Ok(Some(Entry(k, r[k])));
    }
    SameMap(es, m, r);
  }

  lemma PlainReadsBack(es: seq<Entry>, m: map<string, string>)
    requires Writable(es) && IsMapOf(m, es) && forall i | 0 <= i < |es| :: Plain(es[i].name)
    ensures Parse(Text(Lines(es))) == Ok(m)
  {
    SplitWritten(es);
    forall i | 0 <= i < |es| ensures ParseLine(Line(es[i])) == Ok(Some(es[i])) { PlainLine(es[i]); }
    LinesReadBack(es, m);
  }

  lemma ReadLabelsUnbroken(text: string)
    requires Parse(text).Ok?
    ensures forall k | k in Parse(text).value :: Unbroken(k)
  {
    var lines := SplitLines(text);
    var m := Parse(text).value;
    ParseCollects(lines, map[]);
    forall k | k in m ensures Unbroken(k) {
      var i :| 0 <= i < |lines| && Yields(lines[i], k, m[k]);
      ParsedWithin(lines[i]);
      forall j | 0 <= j < |k| ensures !IsBreak(k[j]) { assert k[j] in k; }
    }
  }

  /** A starred label that was read came from a line with a longer starred label. */
  lemma StarFromLonger(e: Entry, name: string, digest: string)
    requires IsDigest(e.digest) && Safe(e.name) && Starred(name) && Yields(Line(e), name, digest)
    ensures Starred(e.name) && |e.name| > |name|
  {
    WrittenLine(e);
    StripResult(e.name[1..]);
  }

  /** When every starred label has a longer one behind it, there is none. */
  lemma {:induction false} NoneStarred(es: seq<Entry>, i: nat, longest: nat)
    requires i < |es| && forall j | 0 <= j < |es| && Starred(es[j].name) :: HasLonger(es, j)
    requires forall j | 0 <= j < |es| :: |es[j].name| <= longest
    ensures !Starred(es[i].name)
    decreases longest - |es[i].name|
  {
    if Starred(es[i].name) {
      assert HasLonger(es, i);
      var j :| 0 <= j < |es| && Starred(es[j].name) && |es[j].name| > |es[i].name|;
      NoneStarred(es, j, longest);
    }
  }

  ghost predicate HasLonger(es: seq<Entry>, i: nat)
    requires i < |es|
  {
    exists j :: 0 <= j < |es| && Starred(es[j].name) && |es[j].name| > |es[i].name|
  }

  lemma LongerWasRead(es: seq<Entry>, m: map<string, string>, i: nat)
    requires Writable(es) && IsMapOf(m, es) && ParseFrom(Lines(es), map[]) == Ok(m)
    requires i < |es| && Starred(es[i].name)
    ensures HasLonger(es, i)
  {
    ParseCollects(Lines(es), map[]);
    var k := es[i].name;
    var j :| 0 <= j < |Lines(es)| && Yields(Lines(es)[j], k, m[k]);
    StarFromLonger(es[j], k, m[k]);
  }

  /** What was read without a star is neither absolute nor drive-like. */
  lemma ReadIsRelative(e: Entry)
    requires IsDigest(e.digest) && Safe(e.name) && !Starred(e.name) && Unbroken(e.name)
    requires ParseLine(Line(e)).Ok?
    ensures Plain(e.name)
  {
    WrittenLine(e);
  }

  function Longest(es: seq<Entry>): (n: nat)
    ensures forall i | 0 <= i < |es| :: |es[i].name| <= n
  {
    if es == [] then 0
    else
      var n := Longest(es[1..]);
      assert forall i | 0 < i < |es| :: es[i] == es[1..][i - 1];
      if |es[0].name| > n then |es[0].name| else n
  }

  lemma ReadBackIsPlain(es: seq<Entry>, m: map<string, string>)
    requires Writable(es) && IsMapOf(m, es) && Parse(Text(Lines(es))) == Ok(m)
    ensures forall i | 0 <= i < |es| :: Plain(es[i].name)
  {
    ReadLabelsUnbroken(Text(Lines(es)));
    SplitWritten(es);
    ParseCollects(Lines(es), map[]);
    forall i | 0 <= i < |es| && Starred(es[i].name) ensures HasLonger(es, i) { LongerWasRead(es, m, i); }
    forall i | 0 <= i < |es| ensures Plain(es[i].name) {
      NoneStarred(es, i, Longest(es));
      assert Lines(es)[i] == Line(es[i]);
      ReadIsRelative(es[i]);
    }
  }

  /** The text of accepted labels reads back as exactly its map if and only if every label is plain. */
  lemma ReadBackIff(es: seq<Entry>, m: map<string, string>)
    requires Writable(es) && IsMapOf(m, es)
    ensures Parse(Text(Lines(es))) == Ok(m) <==> forall i | 0 <= i < |es| :: Plain(es[i].name)
  {
    if Parse(Text(Lines(es))) == Ok(m) {
      ReadBackIsPlain(es, m);
    } else if forall i | 0 <= i < |es| :: Plain(es[i].name) {
      PlainReadsBack(es, m);
    }
  }

  /** The label "*x" is accepted by the builder and not read back. */
  lemma StarIsLost(digest: string)
    requires IsDigest(digest)
    ensures Safe("*x") && Parse(Text(Lines([Entry("*x", digest)]))) != Ok(map["*x" := digest])
  {
    var es, m := [Entry("*x", digest)], map["*x" := digest];
    StripTrimmed("*x");
    assert Find("*x", '/') == 2;
    assert Parts("*x") == ["*x"];
    assert es[0].name in m && IsMapOf(m, es);
    assert Starred(es[0].name);
    ReadBackIff(es, m);
  }
}

module ChecksumManifest {
  import opened Wrappers
  import opened Texts
  import opened ManifestText

  /** An absolute path, component by component from the root directory. */
  type Path = seq<string>

  /** A file system: where a path leads, and the digest of every regular file. */
  datatype Disk = Disk(resolve: Path -> Path, files: map<Path, string>)

  predicate IsComponent(c: string) { c != "" && c != "." && c != ".." && '/' !in c }

  predicate Components(p: Path) { forall i | 0 <= i < |p| :: IsComponent(p[i]) }

  /** Paths resolve from left to right, into plain components; files are known by resolved paths. */
  ghost predicate WellFormed(d: Disk) {
    && (forall a: Path, b: Path :: d.resolve(a + b) == d.resolve(d.resolve(a) + b))
    && (forall p | p in d.files :: d.resolve(p) == p && Components(p) && IsDigest(d.files[p]))
  }

  function NameOf(p: Path): string { if p == [] then "" else p[|p| - 1] }

  function Parent(p: Path): Path { if p == [] then [] else p[..|p| - 1] }

  function Posix(parts: seq<string>): string { if parts == [] then "." else Join(parts, '/') }

  /** Relative to the root when the file lies under it, otherwise the bare file name. */
  function LabelFor(p: Path, root: Option<Path>, d: Disk): string {
    if root.Some? && d.resolve(root.value) <= d.resolve(p)
    then Posix(d.resolve(p)[|d.resolve(root.value)|..])
    else NameOf(p)
  }

  predicate IsOutput(p: Path, out: Option<Path>, d: Disk) {
    out.Some? && (
      || d.resolve(p) == d.resolve(out.value)
      || (NameOf(p) == NameOf(out.value) && d.resolve(Parent(p)) == d.resolve(Parent(out.value))))
  }

  // ---- What the builder produces ---------------------------------------------------------

  /** The files the inputs stand for, whatever their order or repetition. */
  ghost function Kept(paths: seq<Path>, out: Option<Path>, d: Disk): set<Path> {
    set p | p in paths && !IsOutput(p, out, d) :: d.resolve(p)
  }

  function EntryOf(p: Path, root: Option<Path>, d: Disk): Entry
    requires p in d.files
  {
    Entry(LabelFor(p, root, d), d.files[p])
  }

  ghost predicate Accepts(files: set<Path>, root: Option<Path>, d: Disk) {
    && (forall p | p in files :: p in d.files && Safe(LabelFor(p, root, d)))
    && (forall p, q | p in files && q in files && LabelFor(p, root, d) == LabelFor(q, root, d) :: p == q)
  }

  /** Order of texts, character by character. */
  predicate Before(a: string, b: string) {
    b != "" && (a == "" || a[0] < b[0] || (a[0] == b[0] && Before(a[1..], b[1..])))
  }

  lemma {:induction false} BeforeIsTotal(a: string, b: string)
    ensures Before(a, b) || a == b || Before(b, a)
    ensures !(Before(a, b) && Before(b, a)) && !Before(a, a)
  {
    if a == "" {
    } else {
      BeforeIsTotal(a[1..], if b == "" then b else b[1..]);
      if b != "" && a[0] == b[0] && a[1..] == b[1..] { assert a == [a[0]] + a[1..] && b == [b[0]] + b[1..]; }
    }
  }

  lemma {:induction false} BeforeIsTransitive(a: string, b: string, c: string)
    requires Before(a, b) && Before(b, c)
    ensures Before(a, c)
  {
    if a == "" || !(a[0] == b[0] == c[0]) {
    } else {
      BeforeIsTransitive(a[1..], b[1..], c[1..]);
    }
  }

  predicate Ascending(es: seq<Entry>) { forall i, j | 0 <= i < j < |es| :: Before(es[i].name, es[j].name) }

  function Insert(e: Entry, es: seq<Entry>): seq<Entry> {
    if es == [] then [e]
    else if Before(e.name, es[0].name) then [e] + es
    else [es[0]] + Insert(e, es[1..])
  }

  function Sorted(es: seq<Entry>): seq<Entry> {
    if es == [] then [] else Insert(es[|es| - 1], Sorted(es[..|es| - 1]))
  }

  lemma {:induction false} InsertAdds(e: Entry, es: seq<Entry>)
    ensures forall x :: x in Insert(e, es) <==> x == e || x in es
  {
    if es == [] {
    } else {
      InsertAdds(e, es[1..]);
      assert es == [es[0]] + es[1..];
    }
  }

  lemma {:induction false} InsertKeepsOrder(e: Entry, es: seq<Entry>)
    requires Ascending(es) && forall i | 0 <= i < |es| :: es[i].name != e.name
    ensures Ascending(Insert(e, es))
  {
    if es == [] {
    } else {
      var first := es[0];
      BeforeIsTotal(e.name, first.name);
      if Before(e.name, first.name) {
        forall i | 0 <= i < |es| ensures Before(e.name, es[i].name) {
          if i > 0 { BeforeIsTransitive(e.name, first.name, es[i].name); }
        }
      } else {
        InsertKeepsOrder(e, es[1..]);
        InsertAdds(e, es[1..]);
        var rest := Insert(e, es[1..]);
        forall i | 0 <= i < |rest| ensures Before(first.name, rest[i].name) {
          assert rest[i] in rest;
        }
      }
    }
  }

  lemma {:induction false} SortedProperties(es: seq<Entry>)
    requires Distinct(es)
    ensures Ascending(Sorted(es)) && forall x :: x in Sorted(es) <==> x in es
  {
    if es == [] {
    } else {
      var init, last := es[..|es| - 1], es[|es| - 1];
      SortedProperties(init);
      InsertAdds(last, Sorted(init));
      assert es == init + [last];
      forall i | 0 <= i < |Sorted(init)| ensures Sorted(init)[i].name != last.name {
        assert Sorted(init)[i] in init;
      }
      InsertKeepsOrder(last, Sorted(init));
    }
  }

  predicate Distinct(es: seq<Entry>) { forall i, j | 0 <= i < j < |es| :: es[i].name != es[j].name }

  /** The entries list exactly the files, ordered by label. */
  ghost predicate Listing(es: seq<Entry>, files: set<Path>, root: Option<Path>, d: Disk)
    requires Accepts(files, root, d)
  {
    && Ascending(es)
    && (forall p | p in files :: EntryOf(p, root, d) in es)
    && (forall e | e in es :: exists p :: p in files && EntryOf(p, root, d) == e)
  }

  /** Ordered lists of the same entries are the same list. */
  lemma {:induction false} AscendingIsUnique(a: seq<Entry>, b: seq<Entry>)
    requires Ascending(a) && Ascending(b) && forall x :: x in a <==> x in b
    ensures a == b
  {
    if a != [] || b != [] {
      var x := if a != [] then a[0] else b[0];
      assert x in a && x in b;
      assert a[0] in a && b[0] in b;
      HeadsAgree(a, b);
      TailMembers(a);
      TailMembers(b);
      AscendingIsUnique(a[1..], b[1..]);
    }
  }

  lemma HeadsAgree(a: seq<Entry>, b: seq<Entry>)
    requires Ascending(a) && Ascending(b) && a != [] && b != [] && a[0] in b && b[0] in a
    ensures a[0] == b[0]
  {
    var i :| 0 <= i < |b| && b[i] == a[0];
    var j :| 0 <= j < |a| && a[j] == b[0];
    if i > 0 && j > 0 { BeforeIsTotal(a[0].name, b[0].name); }
  }

  lemma TailMembers(a: seq<Entry>)
    requires Ascending(a) && a != []
    ensures forall x :: x in a[1..] <==> x in a && x != a[0]
  {
    BeforeIsTotal(a[0].name, a[0].name);
    assert a == [a[0]] + a[1..];
    forall x | x in a[1..] ensures x != a[0] {
      var i :| 0 <= i < |a[1..]| && a[1..][i] == x;
      assert Before(a[0].name, a[i + 1].name);
    }
  }

  /** The lines depend on nothing but which files the inputs stand for. */
  lemma ListingIsUnique(a: seq<Entry>, b: seq<Entry>, files: set<Path>, root: Option<Path>, d: Disk)
    requires Accepts(files, root, d) && Listing(a, files, root, d) && Listing(b, files, root, d)
    ensures a == b
  {
    AscendingIsUnique(a, b);
  }

  // ---- The builder -----------------------------------------------------------------------

  /** Drop the output file and resolve the rest; a missing file fails. */
  method ResolveInputs(paths: seq<Path>, out: Option<Path>, d: Disk) returns (r: Result<seq<Path>, ManifestError>)
    ensures r.Ok? <==> forall p | p in Kept(paths, out, d) :: p in d.files
    ensures r.Ok? ==> forall p :: p in r.value <==> p in Kept(paths, out, d)
  {
    var resolved: seq<Path> := [];
    for i := 0 to |paths|
      invariant forall p :: p in resolved <==> p in Kept(paths[..i], out, d)
      invariant forall p | p in resolved :: p in d.files
    {
      KeptGrows(paths, i, out, d);
      if !IsOutput(paths[i], out, d) {
        var p := d.resolve(paths[i]);
        if p !in d.files {
          assert p in Kept(paths, out, d);
          return Err(MissingInput);
        }
        resolved := resolved + [p];
      }
    }
    assert paths[..|paths|] == paths;
    r := Ok(resolved);
  }

  lemma KeptGrows(paths: seq<Path>, i: nat, out: Option<Path>, d: Disk)
    requires i < |paths|
    ensures Kept(paths[..i + 1], out, d) ==
            Kept(paths[..i], out, d) + (if IsOutput(paths[i], out, d) then {} else {d.resolve(paths[i])})
  {
    assert paths[..i + 1] == paths[..i] + [paths[i]];
  }

  /** Each path once, in the order of first appearance. */
  method Unique(paths: seq<Path>) returns (unique: seq<Path>)
    ensures forall p :: p in unique <==> p in paths
    ensures forall i, j | 0 <= i < j < |unique| :: unique[i] != unique[j]
  {
    unique := [];
    for i := 0 to |paths|
      invariant forall p :: p in unique <==> p in paths[..i]
      invariant forall k, l | 0 <= k < l < |unique| :: unique[k] != unique[l]
    {
      assert paths[..i + 1] == paths[..i] + [paths[i]];
      if paths[i] !in unique { unique := unique + [paths[i]]; }
    }
    assert paths[..|paths|] == paths;
  }

  /** Label every file; an unsafe or repeated label fails. */
  method LabelFiles(unique: seq<Path>, root: Option<Path>, d: Disk) returns (r: Result<seq<Entry>, ManifestError>)
    requires forall i | 0 <= i < |unique| :: unique[i] in d.files
    requires forall i, j | 0 <= i < j < |unique| :: unique[i] != unique[j]
    ensures r.Ok? <==>
              && (forall i | 0 <= i < |unique| :: Safe(LabelFor(unique[i], root, d)))
              && (forall i, j | 0 <= i < j < |unique| ::
                    LabelFor(unique[i], root, d) != LabelFor(unique[j], root, d))
    ensures r.Ok? ==> |r.value| == |unique|
    ensures r.Ok? ==> forall i | 0 <= i < |unique| :: r.value[i] == EntryOf(unique[i], root, d)
  {
    var entries: seq<Entry> := [];
    var seen: set<string> := {};
    for i := 0 to |unique|
      invariant |entries| == i && forall k | 0 <= k < i :: entries[k] == EntryOf(unique[k], root, d)
      invariant seen == set k | 0 <= k < i :: LabelFor(unique[k], root, d)
      invariant forall k | 0 <= k < i :: Safe(LabelFor(unique[k], root, d))
      invariant forall k, l | 0 <= k < l < i :: LabelFor(unique[k], root, d) != LabelFor(unique[l], root, d)
    {
      var name := LabelFor(unique[i], root, d);
      if name == "" || name == "." || name == ".." || '\n' in name || Strip(name) != name { return Err(UnsafeLabel); }
      if ".." in Parts(name) { return Err(Traversal); }
      if name in seen { return Err(DuplicateLabel); }
      seen := seen + {name};
      entries := entries + [EntryOf(unique[i], root, d)];
    }
    r := Ok(entries);
  }

  /**
   The lines for the inputs. They succeed on the resolved files alone, and list exactly them:
   together with `ListingIsUnique`, order and repetition of the inputs do not matter.
   */
  method BuildChecksumLines(paths: seq<Path>, out: Option<Path>, root: Option<Path>, d: Disk)
    returns (r: Result<seq<string>, ManifestError>, ghost entries: seq<Entry>)
    ensures r.Ok? <==> Accepts(Kept(paths, out, d), root, d)
    ensures r.Ok? ==> Listing(entries, Kept(paths, out, d), root, d) && r.value == Lines(entries)
    ensures out.Some? ==> d.resolve(out.value) !in Kept(paths, out, d)
  {
    entries := [];
    var resolved := ResolveInputs(paths, out, d);
    if resolved.Err? { return Err(resolved.error), entries; }
    var unique := Unique(resolved.value);
    var labelled := LabelFiles(unique, root, d);
    SameFiles(unique, Kept(paths, out, d), root, d);
    if labelled.Err? { return Err(labelled.error), entries; }
    var sorted := Sorted(labelled.value);
    entries := sorted;
    SortedProperties(labelled.value);
    LabelledIsListing(unique, labelled.value, sorted, Kept(paths, out, d), root, d);
    r := Ok(Lines(sorted));
  }

  lemma SameFiles(unique: seq<Path>, files: set<Path>, root: Option<Path>, d: Disk)
    requires forall p :: p in unique <==> p in files
    requires forall p | p in files :: p in d.files
    requires forall i, j | 0 <= i < j < |unique| :: unique[i] != unique[j]
    ensures Accepts(files, root, d) <==>
              && (forall i | 0 <= i < |unique| :: Safe(LabelFor(unique[i], root, d)))
              && (forall i, j | 0 <= i < j < |unique| ::
                    LabelFor(unique[i], root, d) != LabelFor(unique[j], root, d))
  {
    assert forall i | 0 <= i < |unique| :: unique[i] in files;
    forall p | p in files ensures exists i :: 0 <= i < |unique| && unique[i] == p { assert p in unique; }
  }

  lemma LabelledIsListing(unique: seq<Path>, labelled: seq<Entry>, sorted: seq<Entry>, files: set<Path>,
                          root: Option<Path>, d: Disk)
    requires Accepts(files, root, d) && forall p :: p in unique <==> p in files
    requires |labelled| == |unique|
    requires forall i | 0 <= i < |unique| :: unique[i] in d.files && labelled[i] == EntryOf(unique[i], root, d)
    requires Ascending(sorted) && forall x :: x in sorted <==> x in labelled
    ensures Listing(sorted, files, root, d)
  {
    forall p | p in files ensures EntryOf(p, root, d) in sorted {
      var i :| 0 <= i < |unique| && unique[i] == p;
      assert labelled[i] in labelled;
    }
    forall e | e in sorted ensures exists p :: p in files && EntryOf(p, root, d) == e {
      var i :| 0 <= i < |labelled| && labelled[i] == e;
      assert unique[i] in files;
    }
  }

  // ---- The verifier ----------------------------------------------------------------------

  datatype Located = Found(path: Path) | Itself | Nowhere

  /** The first root under which the label names a file. */
  function Locate(name: string, roots: seq<Path>, manifest: Path, d: Disk): Located {
    if roots == [] then Nowhere
    else
      var trial := d.resolve(roots[0] + Parts(name));
      if !(d.resolve(roots[0]) <= trial) then Locate(name, roots[1..], manifest, d)
      else if trial == manifest then Itself
      else if trial in d.files then Found(trial)
      else Locate(name, roots[1..], manifest, d)
  }

  predicate Matches(name: string, digest: string, roots: seq<Path>, manifest: Path, d: Disk) {
    match Locate(name, roots, manifest, d)
    case Found(p) => p in d.files && d.files[p] == digest
    case _ => false
  }

  /** The verified map, when there is one; `manifest` is the resolved path of the manifest. */
  ghost function Verdict(text: string, roots: seq<Path>, manifest: Path, d: Disk): Option<map<string, string>> {
    match Parse(text)
    case Err(_) => None
    case Ok(m) =>
      if m != map[] && AllMatch(m, roots, manifest, d) then Some(m) else None
  }

  ghost predicate AllMatch(m: map<string, string>, roots: seq<Path>, manifest: Path, d: Disk) {
    forall k | k in m :: Matches(k, m[k], roots, manifest, d)
  }

  /** Check every listed file; `content` is the text of the manifest, if it exists. */
  method VerifyManifest(content: Option<string>, manifest: Path, root: Option<Path>, searchRoots: seq<Path>, d: Disk)
    returns (r: Result<map<string, string>, ManifestError>)
    ensures r.Ok? <==> content.Some? && Verdict(content.value, Roots(root, searchRoots, manifest), manifest, d).Some?
    ensures r.Ok? ==> Verdict(content.value, Roots(root, searchRoots, manifest), manifest, d) == Some(r.value)
  {
    if content.None? { return Err(MissingManifest); }
    var parsed := ParseManifest(content.value);
    if parsed.Err? { return Err(parsed.error); }
    var m := parsed.value;
    if m == map[] { return Err(EmptyManifest); }
    var roots := Roots(root, searchRoots, manifest);
    var pending, verified: map<string, string> := m.Keys, map[];
    while pending != {}
      invariant pending <= m.Keys && verified.Keys == m.Keys - pending
      invariant forall k | k in verified :: verified[k] == m[k] && Matches(k, m[k], roots, manifest, d)
    {
      var name :| name in pending;
      match Locate(name, roots, manifest, d)
      case Itself => return Err(SelfListed);
      case Nowhere => return Err(MissingTarget);
      case Found(p) =>
        LocatedExists(name, roots, manifest, d);
        if d.files[p] != m[name] { return Err(Mismatch); }
        verified := verified[name := d.files[p]];
        pending := pending - {name};
    }
    assert verified == m;
    r := Ok(verified);
  }

  function Roots(root: Option<Path>, searchRoots: seq<Path>, manifest: Path): seq<Path> {
    var roots := searchRoots + (if root.Some? then [root.value] else []);
    if roots == [] then [Parent(manifest)] else roots
  }

  lemma {:induction false} LocatedExists(name: string, roots: seq<Path>, manifest: Path, d: Disk)
    ensures Locate(name, roots, manifest, d).Found? ==> Locate(name, roots, manifest, d).path in d.files
    ensures Locate(name, roots, manifest, d).Found? ==> Locate(name, roots, manifest, d).path != manifest
  {
    if roots == [] {
    } else {
      LocatedExists(name, roots[1..], manifest, d);
    }
  }

  // ---- Builder and verifier together -----------------------------------------------------

  /** Every file lies under the base and is labelled by its path from there. */
  ghost predicate Beneath(files: set<Path>, base: Path, root: Option<Path>, d: Disk) {
    forall p | p in files :: d.resolve(base) <= p && LabelFor(p, root, d) == Posix(p[|d.resolve(base)|..])
  }

  /** So it is when the base was the builder's root, or holds every file directly. */
  lemma LabelledFrom(files: set<Path>, base: Path, root: Option<Path>, d: Disk)
    requires WellFormed(d) && Accepts(files, root, d)
    requires forall p | p in files :: d.resolve(base) <= p
    requires root == Some(base) || (root == None && forall p | p in files :: |p| == |d.resolve(base)| + 1)
    ensures Beneath(files, base, root, d)
  {
    forall p | p in files ensures LabelFor(p, root, d) == Posix(p[|d.resolve(base)|..]) {
      if root == None { assert p[|d.resolve(base)|..] == [NameOf(p)]; }
    }
  }

  lemma {:induction false} ProperKeeps(parts: seq<string>)
    requires Components(parts)
    ensures Proper(parts) == parts
  {
    if parts == [] {
    } else {
      ProperKeeps(parts[1..]);
    }
  }

  lemma PartsOfPosix(parts: seq<string>)
    requires parts != [] && Components(parts)
    ensures Parts(Posix(parts)) == parts
  {
    SplitUndoesJoin(parts, '/');
    ProperKeeps(parts);
  }

  /** A label leads back to the file it was made for. */
  lemma LabelLeadsBack(p: Path, base: Path, name: string, manifest: Path, d: Disk)
    requires WellFormed(d) && d.resolve(base) <= p && d.resolve(p) == p && Components(p)
    requires name == Posix(p[|d.resolve(base)|..]) && Safe(name) && p != manifest
    ensures Locate(name, [base], manifest, d) == if p in d.files then Found(p) else Nowhere
  {
    var rel := p[|d.resolve(base)|..];
    PartsOfPosix(rel);
    assert d.resolve(base + rel) == d.resolve(d.resolve(base) + rel);
    assert d.resolve(base) + rel == p;
  }

  /** No listed file is missing or altered on the second disk. */
  ghost predicate Unchanged(files: set<Path>, before: Disk, after: Disk)
    requires forall p | p in files :: p in before.files
  {
    forall p | p in files :: p in after.files && after.files[p] == before.files[p]
  }

  /**
   A manifest of accepted files under the base, read on a later disk: verification gives its
   map back if and only if every label is plain and no listed file is missing or altered.
   */
  lemma VerifiesIffUnchanged(es: seq<Entry>, m: map<string, string>, files: set<Path>, base: Path,
                             root: Option<Path>, manifest: Path, before: Disk, after: Disk)
    requires WellFormed(before) && WellFormed(after) && forall p: Path :: after.resolve(p) == before.resolve(p)
    requires files != {} && manifest !in files && Accepts(files, root, before)
    requires Listing(es, files, root, before) && IsMapOf(m, es) && Beneath(files, base, root, before)
    ensures Verdict(Text(Lines(es)), [base], manifest, after) == Some(m) <==>
            (forall i | 0 <= i < |es| :: Plain(es[i].name)) && Unchanged(files, before, after)
  {
    ListingIsWritable(es, files, root, before);
    ReadBackIff(es, m);
    MapIsNotEmpty(es, m, files, root, before);
    MatchIffUnchanged(es, m, files, base, root, manifest, before, after);
  }

  lemma MatchIffUnchanged(es: seq<Entry>, m: map<string, string>, files: set<Path>, base: Path,
                          root: Option<Path>, manifest: Path, before: Disk, after: Disk)
    requires WellFormed(before) && WellFormed(after) && forall p: Path :: after.resolve(p) == before.resolve(p)
    requires manifest !in files && Accepts(files, root, before)
    requires Listing(es, files, root, before) && IsMapOf(m, es) && Beneath(files, base, root, before)
    ensures AllMatch(m, [base], manifest, after) <==> Unchanged(files, before, after)
  {
    forall p | p in files
      ensures LabelFor(p, root, before) in m
      ensures Matches(LabelFor(p, root, before), m[LabelFor(p, root, before)], [base], manifest, after) <==>
              p in after.files && after.files[p] == before.files[p]
    {
      MatchOne(es, m, p, files, base, root, manifest, before, after);
    }
    forall k | k in m ensures exists p :: p in files && LabelFor(p, root, before) == k {
      var i :| 0 <= i < |es| && es[i].name == k;
      assert es[i] in es;
    }
  }

  lemma MatchOne(es: seq<Entry>, m: map<string, string>, p: Path, files: set<Path>, base: Path,
                 root: Option<Path>, manifest: Path, before: Disk, after: Disk)
    requires WellFormed(before) && WellFormed(after) && forall p: Path :: after.resolve(p) == before.resolve(p)
    requires manifest !in files && Accepts(files, root, before) && p in files
    requires Listing(es, files, root, before) && IsMapOf(m, es) && Beneath(files, base, root, before)
    ensures LabelFor(p, root, before) in m
    ensures Matches(LabelFor(p, root, before), m[LabelFor(p, root, before)], [base], manifest, after) <==>
            p in after.files && after.files[p] == before.files[p]
  {
    var e := EntryOf(p, root, before);
    var i :| 0 <= i < |es| && es[i] == e;
    LabelLeadsBack(p, base, e.name, manifest, after);
  }

  lemma ListingIsWritable(es: seq<Entry>, files: set<Path>, root: Option<Path>, d: Disk)
    requires WellFormed(d) && Accepts(files, root, d) && Listing(es, files, root, d)
    ensures Writable(es)
  {
    forall i | 0 <= i < |es| ensures IsDigest(es[i].digest) && Safe(es[i].name) {
      assert es[i] in es;
    }
  }

  lemma MapIsNotEmpty(es: seq<Entry>, m: map<string, string>, files: set<Path>, root: Option<Path>, d: Disk)
    requires files != {} && Accepts(files, root, d) && Listing(es, files, root, d) && IsMapOf(m, es)
    ensures m != map[]
  {
    var p :| p in files;
    var i :| 0 <= i < |es| && es[i] == EntryOf(p, root, d);
    assert es[i].name in m;
  }
}
