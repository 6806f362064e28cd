/**
 Verification evidence: the record a probe leaves on an action, what of it survives a reload,
 and which actions it publishes.
 */
module EvidenceRecords {
  import opened Wrappers
  import opened Texts

  /** A value of a record: text, or a number. */
  datatype Value = Text(s: string) | Number(n: int)

  type Fields = map<string, Value>

  /** What is stored as evidence: nothing, something that is not a record, or a record. */
  datatype Verification = Absent | NotARecord | Record(fields: Fields)

  predicate HasText(f: Fields, key: string) { key in f && f[key].Text? && Strip(f[key].s) != "" }

  predicate Claimed(f: Fields) { "state" in f && f["state"] == Text("VERIFIED") }

  /** Is this evidence of a successful verification? */
  predicate Verified(v: Verification) { v.Record? && Claimed(v.fields) }

  // ---- The content a verdict is about ----------------------------------------------------

  /** The identity of an action; a field that a manifest leaves out is `None`. */
  datatype Content = Content(name: Option<string>, automationId: Option<string>, controlType: Option<string>,
                             params: seq<string>, risk: string)

  /** A fingerprint without collisions and never blank, as a digest is meant to be. */
  ghost predicate Ideal(fp: Content -> string) {
    && (forall c, d :: fp(c) == fp(d) ==> c == d)
    && (forall c :: Strip(fp(c)) != "")
  }

  datatype Action = Action(name: string, automationId: string, controlType: string,
                           params: seq<string>, risk: string, verification: Verification)

  function RiskOf(risk: string): string { if risk == "" then "low" else risk }

  function ContentOf(a: Action): Content {
    Content(Some(a.name), Some(a.automationId), Some(a.controlType), a.params, RiskOf(a.risk))
  }

  /** An entry of a manifest, which anyone may have edited. */
  datatype Entry =
    | Other
    | Entry(name: Option<string>, automationId: Option<string>, controlType: Option<string>,
            params: seq<string>, risk: Option<string>, verification: Verification)

  function EntryContent(e: Entry): Content
    requires e.Entry?
  {
    Content(e.name, e.automationId, e.controlType, e.params, if e.risk == None then "low" else RiskOf(e.risk.value))
  }

  predicate Complete(e: Entry)
    requires e.Entry?
  {
    e.name.Some? && e.automationId.Some? && e.controlType.Some?
  }

  // ---- Verdicts --------------------------------------------------------------------------

  /** An identifier of a proof is minted for a success and removed from everything else. */
  function MakeVerdict(state: string, evidence: string, extra: Fields, suffix: string): Fields {
    var f: Fields := map["state" := Text(state), "evidence" := Text(evidence)] + (extra - {"state", "evidence"});
    if state != "VERIFIED" then f - {"verification_id"}
    else if HasText(f, "verification_id") then f
    else f["verification_id" := Text("ver_" + suffix)]
  }

  /** A success carries an identifier and nothing else does. */
  predicate Minted(f: Fields) { if Claimed(f) then HasText(f, "verification_id") else "verification_id" !in f }

  lemma {:induction false} StripKeepsInk(s: string)
    requires s != "" && !IsSpace(s[0])
    ensures StripRight(s) != ""
    decreases |s|
  {
    if |s| == 1 || !IsSpace(s[|s| - 1]) {
    } else {
      StripKeepsInk(s[..|s| - 1]);
    }
  }

  lemma VerdictIsMinted(state: string, evidence: string, extra: Fields, suffix: string)
    ensures Minted(MakeVerdict(state, evidence, extra, suffix))
    ensures Claimed(MakeVerdict(state, evidence, extra, suffix)) <==> state == "VERIFIED"
  {
    StripKeepsInk("ver_" + suffix);
  }

  // ---- Sanitizing ------------------------------------------------------------------------

  function EvidenceText(f: Fields): string {
    if "evidence" !in f then ""
    else match f["evidence"]
      case Text(s) => Strip(s)
      case Number(n) => if n == 0 then "" else IntText(n)
  }

  function Demoted(f: Fields, code: string, note: string): Fields {
    var prior := EvidenceText(f);
    var text := if prior == "" then note else prior + "; " + note;
    f["state" := Text("FAILED")]["code" := Text(code)]["evidence" := Text(text)] - {"verification_id", "action_fp"}
  }

  /** What of stored evidence may be believed; `expected` is the fingerprint of the action, if known. */
  function Sanitize(v: Verification, expected: Option<string>): Verification {
    if !v.Record? then Absent
    else
      var f := v.fields;
      if !Claimed(f) then
        if "verification_id" in f then Record(f - {"verification_id", "action_fp"}) else v
      else if !HasText(f, "verification_id") then
        Record(Demoted(f, "VERIFICATION_ID_MISSING", "VERIFIED senza verification_id: demoted at load (N018)"))
      else if expected.Some? then
        if HasText(f, "action_fp") && f["action_fp"] == Text(expected.value) then v
        else if HasText(f, "action_fp") then
          Record(Demoted(f, "ACTION_FP_MISMATCH", "VERIFIED action_fp mismatch: demoted at load (N045)"))
        else Record(Demoted(f, "ACTION_FP_MISSING", "VERIFIED senza action_fp: demoted at load (N045)"))
      else v
  }

  /** Complete proof: a success with an identifier and the fingerprint of this content. */
  predicate Proves(v: Verification, fingerprint: string) {
    && Verified(v) && HasText(v.fields, "verification_id")
    && HasText(v.fields, "action_fp") && v.fields["action_fp"] == Text(fingerprint)
  }

  /** Exactly the complete proofs survive, and they survive unchanged: nothing is promoted. */
  lemma SurvivesIff(v: Verification, fingerprint: string)
    ensures Verified(Sanitize(v, Some(fingerprint))) <==> Proves(v, fingerprint)
    ensures Proves(v, fingerprint) ==> Sanitize(v, Some(fingerprint)) == v
    ensures !Verified(v) ==> !Verified(Sanitize(v, Some(fingerprint))) && !Verified(Sanitize(v, None))
  {
  }

  /** Sanitizing twice is sanitizing once, and what it leaves is properly minted. */
  lemma SanitizeIsIdempotent(v: Verification, expected: Option<string>)
    ensures Sanitize(Sanitize(v, expected), expected) == Sanitize(v, expected)
    ensures Sanitize(v, expected).Record? ==> Minted(Sanitize(v, expected).fields)
  {
  }

  // ---- Manifests -------------------------------------------------------------------------

  /** The file as it can be read; every part may be missing. */
  datatype File = Unreadable | NotAnObject | File(version: int, appId: Option<string>, actions: Option<seq<Entry>>)

  datatype Manifest = Manifest(appId: string, actions: seq<Entry>)

  const MANIFEST_VERSION := 1

  function ReadManifest(f: File): Option<Manifest> {
    if f.File? && f.version == MANIFEST_VERSION && f.appId.Some? && Strip(f.appId.value) != "" && f.actions.Some?
    then Some(Manifest(f.appId.value, f.actions.value))
    else None
  }

  function ToEntry(a: Action): Entry {
    Entry(Some(a.name), Some(a.automationId), Some(a.controlType), a.params, Some(a.risk), a.verification)
  }

  function ToFile(appId: string, actions: seq<Action>): File {
    File(MANIFEST_VERSION, Some(appId), Some(seq(|actions|, i requires 0 <= i < |actions| => ToEntry(actions[i]))))
  }

  /** Reading the store cleans the entries: what is no object goes, and evidence is sanitized. */
  function Cleaned(es: seq<Entry>, fp: Content -> string): (r: seq<Entry>)
    ensures forall i | 0 <= i < |r| :: r[i].Entry?
  {
    if es == [] then []
    else
      var e := es[|es| - 1];
      Cleaned(es[..|es| - 1], fp) +
      (if e.Entry? then [e.(verification := Sanitize(e.verification, Some(fp(EntryContent(e)))))] else [])
  }

  function Default(o: Option<string>, d: string): string { if o.Some? then o.value else d }

  /** The engine sanitizes once more and fills in what is missing. */
  function Restored(e: Entry, fp: Content -> string): Action
    requires e.Entry?
  {
    Action(Default(e.name, ""), Default(e.automationId, ""), Default(e.controlType, ""), e.params,
           Default(e.risk, "low"), Sanitize(e.verification, Some(fp(EntryContent(e)))))
  }

  function RestoredAll(es: seq<Entry>, fp: Content -> string): seq<Action> {
    var clean := Cleaned(es, fp);
    seq(|clean|, i requires 0 <= i < |clean| => Restored(clean[i], fp))
  }

  /** The evidence of a restored action that is about other content than the action has. */
  predicate Misstamped(a: Action, fp: Content -> string) {
    Verified(a.verification) && !Proves(a.verification, fp(ContentOf(a)))
  }

  /** A restored action is verified with the wrong fingerprint exactly when a proven entry left a field out. */
  lemma MisstampedIff(e: Entry, fp: Content -> string)
    requires e.Entry? && Ideal(fp)
    ensures Misstamped(Restored(e, fp), fp) <==> Proves(e.verification, fp(EntryContent(e))) && !Complete(e)
  {
    var a := Restored(e, fp);
    SurvivesIff(e.verification, fp(EntryContent(e)));
    if Complete(e) {
      assert ContentOf(a) == EntryContent(e);
    } else {
      assert ContentOf(a) != EntryContent(e);
    }
  }

  /** Evidence as it is held in memory: absent, or a record that is properly minted. */
  predicate Held(v: Verification) { v == Absent || (v.Record? && Minted(v.fields)) }

  /** Saving and loading an action gives it back, except that evidence about other content is demoted. */
  lemma ActionRoundTrip(a: Action, fp: Content -> string)
    requires Held(a.verification)
    ensures var b := Restored(ToEntry(a), fp);
            && b == a.(verification := b.verification)
            && (b == a <==> !Misstamped(a, fp))
            && (Verified(b.verification) <==> Verified(a.verification) && !Misstamped(a, fp))
  {
    assert EntryContent(ToEntry(a)) == ContentOf(a);
  }

  lemma {:induction false} CleanedOf(es: seq<Entry>, fp: Content -> string)
    requires forall i | 0 <= i < |es| :: es[i].Entry?
    ensures |Cleaned(es, fp)| == |es|
    ensures forall i | 0 <= i < |es| ::
              Cleaned(es, fp)[i] == es[i].(verification := Sanitize(es[i].verification, Some(fp(EntryContent(es[i])))))
    decreases |es|
  {
    if es == [] {
    } else {
      var init := es[..|es| - 1];
      CleanedOf(init, fp);
      forall i | 0 <= i < |init| ensures Cleaned(es, fp)[i] == Cleaned(init, fp)[i] && init[i] == es[i] { }
    }
  }

  /** So do all actions of an adapter, in order: the verified ones are kept, none is added. */
  lemma SaveLoadRoundTrip(appId: string, actions: seq<Action>, fp: Content -> string)
    requires Strip(appId) != "" && forall i | 0 <= i < |actions| :: Held(actions[i].verification)
    ensures var m := ReadManifest(ToFile(appId, actions));
            && m.Some? && m.value.appId == appId
            && |RestoredAll(m.value.actions, fp)| == |actions|
            && (forall i | 0 <= i < |actions| ::
                  var b := RestoredAll(m.value.actions, fp)[i];
                  && b == actions[i].(verification := b.verification)
                  && (Verified(b.verification) <==> Verified(actions[i].verification) && !Misstamped(actions[i], fp)))
            && (RestoredAll(m.value.actions, fp) == actions <==>
                forall i | 0 <= i < |actions| :: !Misstamped(actions[i], fp))
  {
    var es := ToFile(appId, actions).actions.value;
    CleanedOf(es, fp);
    var bs := RestoredAll(es, fp);
    forall i | 0 <= i < |actions|
      ensures bs[i] == Restored(ToEntry(actions[i]), fp)
      ensures bs[i] == actions[i].(verification := bs[i].verification)
      ensures bs[i] == actions[i] <==> !Misstamped(actions[i], fp)
      ensures Verified(bs[i].verification) <==> Verified(actions[i].verification) && !Misstamped(actions[i], fp)
    {
      var e := ToEntry(actions[i]);
      assert Cleaned(es, fp)[i] == e.(verification := Sanitize(e.verification, Some(fp(EntryContent(e)))));
      SanitizeIsIdempotent(e.verification, Some(fp(EntryContent(e))));
      ActionRoundTrip(actions[i], fp);
    }
  }
}
