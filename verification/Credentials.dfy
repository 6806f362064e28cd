/** The WebSocket subprotocol that carries an API key, RFC 6455 section 11.3.4. */
module Subprotocol {
  import opened Wrappers
  import opened Bytes
  import opened Texts
  import Base64Url
  import Utf8

  /** An API key: text without surrogates. */
  type Key = seq<Utf8.Scalar>

  const PREFIX := "winos.apikey."

  /** The subprotocol token for a key, through its UTF-8 bytes. */
  function EncodeKey(key: Key): string { PREFIX + Base64Url.Encode(Utf8.Encode(key)) }

  /** What one offered token carries; one that does not decode, twice, or is empty carries nothing. */
  function KeyOf(token: string): Option<Key> {
    if !(PREFIX <= token) then None
    else
      var raw := Base64Url.Decode(token[|PREFIX|..]);
      if raw.None? then None
      else
        var key := Utf8.Decode(raw.value);
        if key.Some? && key.value != [] then key else None
  }

  /** The key and the token to echo, from the header value; None without a header. */
  method ExtractKey(header: Option<string>) returns (r: Option<(Key, string)>)
    ensures r == if header.None? || header.value == "" then None else FirstKey(Split(header.value, ','))
  {
    if header.None? || header.value == "" { return None; }
    var parts := Split(header.value, ',');
    for i := 0 to |parts|
      invariant FirstKey(parts) == FirstKey(parts[i..])
    {
      var token := Strip(parts[i]);
      var key := KeyOf(token);
      if key.Some? { return Some((key.value, token)); }
      assert parts[i..][1..] == parts[i + 1..];
    }
    r := None;
  }

  function FirstKey(parts: seq<string>): Option<(Key, string)> {
    if parts == [] then None
    else
      var token := Strip(parts[0]);
      var key := KeyOf(token);
      if key.Some? then Some((key.value, token)) else FirstKey(parts[1..])
  }

  lemma KeyRoundTrip(key: Key)
    ensures KeyOf(EncodeKey(key)) == if key == [] then None else Some(key)
  {
    assert EncodeKey(key)[|PREFIX|..] == Base64Url.Encode(Utf8.Encode(key));
    Base64Url.RoundTrip(Utf8.Encode(key));
    Utf8.RoundTrip(key);
  }

  lemma TokenClean(key: Key)
    ensures ',' !in EncodeKey(key) && Trimmed(EncodeKey(key))
  {
    Base64Url.RepaddingExact(Utf8.Encode(key));
    var t, s := EncodeKey(key), Base64Url.Encode(Utf8.Encode(key));
    forall i | 0 <= i < |t| ensures t[i] != ',' && !IsSpace(t[i]) {
      if i < |PREFIX| { assert t[i] == PREFIX[i]; } else { assert Base64Url.IsTokenChar(s[i - |PREFIX|]); }
    }
  }

  lemma {:induction false} FirstKeyAt(parts: seq<string>, k: nat, key: Key)
    requires k < |parts| && key != [] && Strip(parts[k]) == EncodeKey(key)
    requires forall i | 0 <= i < k :: !(PREFIX <= Strip(parts[i]))
    ensures FirstKey(parts) == Some((key, EncodeKey(key)))
  {
    if k == 0 {
      KeyRoundTrip(key);
    } else {
      FirstKeyAt(parts[1..], k - 1, key);
    }
  }

  /**
   A non-empty key offered anywhere in a comma-separated header, with any white space around
   it, is recovered when no token before it has the prefix.
   */
  lemma HeaderRoundTrip(parts: seq<string>, k: nat, key: Key, left: string, right: string)
    requires k < |parts| && key != []
    requires Blank(left) && Blank(right) && ',' !in left && ',' !in right
    requires parts[k] == left + EncodeKey(key) + right
    requires forall i | 0 <= i < |parts| && i != k :: ',' !in parts[i]
    requires forall i | 0 <= i < k :: !(PREFIX <= Strip(parts[i]))
    ensures var header := Join(parts, ',');
            header != "" && FirstKey(Split(header, ',')) == Some((key, EncodeKey(key)))
  {
    TokenClean(key);
    StripPadded(left, EncodeKey(key), right);
    forall p | p in parts ensures ',' !in p {}
    SplitUndoesJoin(parts, ',');
    FirstKeyAt(parts, k, key);
  }

  /** An empty key is never recovered, whatever surrounds it. */
  lemma EmptyKeyIsLost(rest: seq<string>)
    ensures FirstKey([EncodeKey([])] + rest) == FirstKey(rest)
  {
    TokenClean([]);
    StripTrimmed(EncodeKey([]));
    KeyRoundTrip([]);
    assert ([EncodeKey([])] + rest)[1..] == rest;
  }

  /** A token whose bytes are not UTF-8 is skipped, as if it carried nothing. */
  lemma InvalidTextIsSkipped(rest: seq<string>)
    ensures FirstKey([PREFIX + Base64Url.Encode([0xFF])] + rest) == FirstKey(rest)
  {
    var token := PREFIX + Base64Url.Encode([0xFF]);
    Base64Url.RoundTrip([0xFF]);
    Base64Url.RepaddingExact([0xFF]);
    assert token[|PREFIX|..] == Base64Url.Encode([0xFF]);
    forall i | |PREFIX| <= i < |token| ensures !IsSpace(token[i]) {
      assert Base64Url.IsTokenChar(Base64Url.Encode([0xFF])[i - |PREFIX|]);
    }
    assert token[0] == 'w';
    if token[|PREFIX|..] == "" { Base64Url.EncodeEmptyIff([0xFF]); }
    StripTrimmed(token);
    assert ([token] + rest)[1..] == rest;
  }
}

/**
 Release attestations: a document signed in canonical form, the signature written as
 "ed25519:<key id>:<base64url>". The signature scheme is given by its three operations.
 */
module Attestation {
  import opened Wrappers
  import opened Bytes
  import opened Texts
  import Base64Url

  const SCHEME := "ed25519:"
  const SIGNATURE_FIELD := "attestation_signature"
  const PUBLIC_KEY_FIELD := "attestation_public_key_hex"
  const DEFAULT_KEY_ID := "release"

  /** A document maps field names to the JSON text of their values. */
  type Document = map<string, string>

  /** The canonical form leaves the signature out; `json` is the sorted compact rendering. */
  function CanonicalBytes(doc: Document, json: Document -> Octets): Octets {
    json(doc - {SIGNATURE_FIELD})
  }

  /** Signing with one private key, and checking with its public key. */
  datatype Keys = Keys(sign: Octets -> Octets, verify: (Octets, Octets) -> bool, publicHex: string)

  /** What a signature scheme promises its holder: a signature checks, and only for its message. */
  ghost predicate Ideal(k: Keys) {
    && (forall m: Octets :: k.verify(k.sign(m), m))
    && (forall m: Octets, m': Octets :: k.verify(k.sign(m), m') ==> m == m')
  }

  /** None where the key id is refused. */
  function SignAttestation(doc: Document, json: Document -> Octets, k: Keys, keyId: string): Option<string> {
    var kid := Strip(if keyId == "" then DEFAULT_KEY_ID else keyId);
    if kid == "" || ':' in kid then None
    else Some(SCHEME + kid + ":" + Base64Url.Encode(k.sign(CanonicalBytes(doc, json))))
  }

  /** The signature bytes written in a signature text. */
  function SignatureBytes(signature: string): Option<Octets> {
    var sig := Strip(signature);
    if !(SCHEME <= sig) then None
    else
      var rest := sig[|SCHEME|..];
      var i := Find(rest, ':');
      if i == |rest| then None else Base64Url.Decode(rest[i + 1..])
  }

  predicate VerifySignature(doc: Document, json: Document -> Octets, signature: Option<string>, k: Keys) {
    && signature.Some? && signature.value != ""
    && var bytes := SignatureBytes(signature.value);
       bytes.Some? && k.verify(bytes.value, CanonicalBytes(doc, json))
  }

  /** A signed copy, or a copy without any signature when there is no key. */
  function AttachSignature(doc: Document, json: Document -> Octets, k: Option<Keys>, keyId: string): Option<Document> {
    if k.None? then Some(doc - {SIGNATURE_FIELD, PUBLIC_KEY_FIELD})
    else
      var out := doc[PUBLIC_KEY_FIELD := k.value.publicHex];
      var sig := SignAttestation(out, json, k.value, keyId);
      if sig.None? then None else Some(out[SIGNATURE_FIELD := sig.value])
  }

  lemma AfterPrefix(prefix: string, rest: string)
    ensures prefix <= prefix + rest && (prefix + rest)[|prefix|..] == rest
  {
  }

  /** The token is what follows the second colon. */
  lemma TokenOf(kid: string, token: string)
    requires kid != "" && ':' !in kid && Trimmed(kid) && (token == "" || !IsSpace(token[|token| - 1]))
    ensures SignatureBytes(SCHEME + kid + ":" + token) == Base64Url.Decode(token)
  {
    var text := SCHEME + kid + ":" + token;
    assert text[0] == 'e';
    assert !IsSpace('e') && !IsSpace(':');
    if token == "" {
      assert text[|text| - 1] == ':';
    } else {
      assert text[|text| - 1] == token[|token| - 1];
    }
    StripTrimmed(text);
    var rest := kid + [':'] + token;
    assert text == SCHEME + rest;
    AfterPrefix(SCHEME, rest);
    FindAfter(kid, ':', token);
    AfterPrefix(kid + [':'], token);
  }

  /** The exact signature bytes come back from their text, for every accepted key id. */
  lemma SignatureTextRoundTrip(kid: string, sig: Octets)
    requires kid != "" && ':' !in kid && Trimmed(kid)
    ensures SignatureBytes(SCHEME + kid + ":" + Base64Url.Encode(sig)) == Some(sig)
  {
    var token := Base64Url.Encode(sig);
    Base64Url.RepaddingExact(sig);
    if token != "" { assert Base64Url.IsTokenChar(token[|token| - 1]); }
    TokenOf(kid, token);
    Base64Url.RoundTrip(sig);
  }

  /** A signature attached to a document checks on the signed document itself. */
  lemma AttachedSignatureVerifies(doc: Document, json: Document -> Octets, k: Keys, keyId: string)
    requires Ideal(k)
    ensures var signed := AttachSignature(doc, json, Some(k), keyId);
            signed.Some? ==> SIGNATURE_FIELD in signed.value &&
                             VerifySignature(signed.value, json, Some(signed.value[SIGNATURE_FIELD]), k)
  {
    var out := doc[PUBLIC_KEY_FIELD := k.publicHex];
    var kid := Strip(if keyId == "" then DEFAULT_KEY_ID else keyId);
    StripResult(if keyId == "" then DEFAULT_KEY_ID else keyId);
    var text := SignAttestation(out, json, k, keyId);
    if text.Some? {
      SignatureTextRoundTrip(kid, k.sign(CanonicalBytes(out, json)));
      assert out[SIGNATURE_FIELD := text.value] - {SIGNATURE_FIELD} == out - {SIGNATURE_FIELD};
    }
  }

  /**
   The signature of one document checks on another exactly when both have the same canonical
   bytes, so with an injective rendering exactly when they differ in the signature alone.
   */
  lemma VerifiesOtherDocumentIff(doc: Document, other: Document, json: Document -> Octets, k: Keys, keyId: string)
    requires Ideal(k) && SignAttestation(doc, json, k, keyId).Some?
    requires forall a: Document, b: Document :: json(a) == json(b) ==> a == b
    ensures VerifySignature(other, json, SignAttestation(doc, json, k, keyId), k) <==>
            other - {SIGNATURE_FIELD} == doc - {SIGNATURE_FIELD}
  {
    var kid := Strip(if keyId == "" then DEFAULT_KEY_ID else keyId);
    StripResult(if keyId == "" then DEFAULT_KEY_ID else keyId);
    SignatureTextRoundTrip(kid, k.sign(CanonicalBytes(doc, json)));
  }
}
