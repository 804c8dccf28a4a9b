/** Decentralised identifiers that carry an Ed25519 key. */
module Did {
  import opened Wrappers
  import opened Words
  import B = Base58

  type Key = k: seq<u8> | |k| == 32 witness seq(32, _ => 0)

  datatype Method = KeyMethod | PeerMethod

  datatype Error = BadMethod | BadBase58 | NotEd25519

  /** "did:key:z". */
  const KEY_PREFIX: Bytes := [100, 105, 100, 58, 107, 101, 121, 58, 122]
  /** "did:peer:0z". */
  const PEER_PREFIX: Bytes := [100, 105, 100, 58, 112, 101, 101, 114, 58, 48, 122]

  lemma PrefixesSpell()
    ensures Spells(KEY_PREFIX, "did:key:z") && Spells(PEER_PREFIX, "did:peer:0z") && Spells(KEY_FRAGMENT, "#key-1")
  {
  }

  function Prefix(m: Method): Bytes
  {
    if m == KeyMethod then KEY_PREFIX else PEER_PREFIX
  }

  /** The identifier of a key: the prefix and the multicodec-tagged key in Base58. */
  function FromKey(key: Key, m: Method): Bytes
  {
    Prefix(m) + B.Encoded([0xed, 0x01] + key)
  }

  /** The text after a recognised prefix. */
  function Stripped(did: Bytes): Option<Bytes>
  {
    if KEY_PREFIX <= did then Some(did[|KEY_PREFIX|..])
    else if PEER_PREFIX <= did then Some(did[|PEER_PREFIX|..])
    else None
  }

  function KeyIn(raw: Bytes): Result<Key, Error>
  {
    if |raw| != 34 || raw[0] != 0xed || raw[1] != 0x01 then Err(NotEd25519) else Ok(raw[2..34])
  }

  /** The text of the document's only verification method, and the names that refer to it. */
  datatype VerificationMethod = VerificationMethod(id: Bytes, kind: string, controller: Bytes, multibase: Bytes)

  datatype Document = Document(
    context: seq<string>,
    id: Bytes,
    verification: seq<VerificationMethod>,
    authentication: seq<Bytes>,
    assertion: seq<Bytes>,
    delegation: seq<Bytes>)

  /** "#key-1". */
  const KEY_FRAGMENT: Bytes := [35, 107, 101, 121, 45, 49]

  function DocumentFor(did: Bytes, text: Bytes): Document
  {
    var keyId := did + KEY_FRAGMENT;
    Document(["https://www.w3.org/ns/did/v1", "https://w3id.org/security/suites/ed25519-2020/v1"], did,
             [VerificationMethod(keyId, "Ed25519VerificationKey2020", did, [122] + text)], [keyId], [keyId], [keyId])
  }

  function Resolved(did: Bytes): Result<Key, Error>
  {
    match Stripped(did)
    case None => Err(BadMethod)
    case Some(text) =>
      match B.Decoded(text)
      case None => Err(BadBase58)
      case Some(raw) => KeyIn(raw)
  }

  method DidFromKey(key: Key, m: Method) returns (did: Bytes)
    ensures did == FromKey(key, m)
  {
    var text := B.Encode([0xed, 0x01] + key);
    did := match m case KeyMethod => KEY_PREFIX + text case PeerMethod => PEER_PREFIX + text;
  }

  method Resolve(did: Bytes) returns (r: Result<(Key, Document), Error>)
    ensures r.Ok? <==> Resolved(did).Ok?
    ensures r.Err? ==> r.error == Resolved(did).error
    ensures r.Ok? ==> r.value == (Resolved(did).value, DocumentFor(did, Stripped(did).value))
    ensures r.Ok? ==> Describes(r.value.1, did, r.value.0)
  {
    hide B.Decoded, DocumentFor, Describes;
    var stripped := Stripped(did);
    if stripped.None? {
      return Err(BadMethod);
    }
    var raw := B.Decode(stripped.value);
    if raw.None? {
      return Err(BadBase58);
    }
    var key := KeyIn(raw.value);
    if key.Err? {
      return Err(key.error);
    }
    DocumentDescribes(did);
    r := Ok((key.value, DocumentFor(did, stripped.value)));
  }

  /** The document is about `did`, its one verification method holds `key`, and every use names that method. */
  predicate Describes(d: Document, did: Bytes, key: Key)
  {
    && d.id == did && |d.verification| == 1 && d.verification[0].controller == did
    && did <= d.verification[0].id && did != d.verification[0].id
    && d.authentication == d.assertion == d.delegation == [d.verification[0].id]
    && d.verification[0].multibase == [122] + B.Encoded([0xed, 0x01] + key)
  }

  lemma StrippedPrefix(m: Method, text: Bytes)
    ensures Stripped(Prefix(m) + text) == Some(text)
  {
    var did := Prefix(m) + text;
    assert did[4] == if m == KeyMethod then 107 else 112;
    assert did[|Prefix(m)|..] == text;
  }

  /** Resolving an identifier made from a key gives the key. */
  lemma ResolveFromKey(key: Key, m: Method)
    ensures Resolved(FromKey(key, m)) == Ok(key)
  {
    hide B.Decoded, B.Encoded, Stripped;
    var raw := [0xed, 0x01] + key;
    StrippedPrefix(m, B.Encoded(raw));
    B.DecodeEncode(raw);
    assert raw[2..34] == key;
  }

  /** An identifier that resolves is the one made from its key. */
  lemma ResolvedIsFromKey(did: Bytes)
    requires Resolved(did).Ok?
    ensures var m := if KEY_PREFIX <= did then KeyMethod else PeerMethod;
      did == FromKey(Resolved(did).value, m)
  {
    var text := Stripped(did).value;
    Accepted(text);
    B.EncodeDecode(text);
    var raw := B.Decoded(text).value;
    assert raw == [0xed, 0x01] + raw[2..34];
    var m := if KEY_PREFIX <= did then KeyMethod else PeerMethod;
    assert did == Prefix(m) + text;
  }

  /** Exactly the identifiers made from keys resolve. */
  lemma ResolvesIff(did: Bytes)
    ensures Resolved(did).Ok? <==> exists key: Key, m: Method :: did == FromKey(key, m)
  {
    hide Resolved, FromKey;
    if Resolved(did).Ok? { ResolvedIsFromKey(did); }
    if key: Key, m: Method :| did == FromKey(key, m) { ResolveFromKey(key, m); }
  }

  /** The document made for an identifier that resolves describes it and carries its key. */
  lemma DocumentDescribes(did: Bytes)
    requires Resolved(did).Ok?
    ensures Describes(DocumentFor(did, Stripped(did).value), did, Resolved(did).value)
  {
    hide B.Decoded, B.Encoded, Stripped, Resolved;
    ResolvedIsFromKey(did);
    var m := if KEY_PREFIX <= did then KeyMethod else PeerMethod;
    StrippedPrefix(m, B.Encoded([0xed, 0x01] + Resolved(did).value));
    var keyId := did + KEY_FRAGMENT;
    assert did <= keyId && |keyId| == |did| + 6;
  }

  lemma Accepted(text: Bytes)
    requires B.Decoded(text).Some?
    ensures B.AllSymbols(text)
  {
  }
}
