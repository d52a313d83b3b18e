/**
 * The agent's inception endpoint: `decodePublicKey`, which accepts a key as
 * a CESR 'B' primitive, as raw base64url or as padded standard base64, and
 * `handleInception`, which creates the one identity the agent holds and
 * persists its first KEL event and its state.
 */
module Agent {
  import opened Common
  import Base64
  import Keri
  import Store

  /** Why a key text was refused. */
  datatype KeyError = DecodeFailed | WrongSize(got: nat)

  const PublicKeySize: nat := 32

  /**
   * The bytes of a key text: after a leading 'B' the rest must be unpadded
   * base64url; otherwise unpadded base64url is tried first and padded
   * standard base64 second.
   */
  function KeyBytes(encoded: string): (r: Option<Bytes>)
    ensures r.Some? && |encoded| >= 1 && encoded[0] == 'B' ==> |r.value| == (|encoded| - 1) * 3 / 4
  {
    if |encoded| >= 1 && encoded[0] == 'B' then Base64.DecodeRaw(Base64.Url, encoded[1..])
    else if Base64.DecodeRaw(Base64.Url, encoded).Some? then Base64.DecodeRaw(Base64.Url, encoded)
    else Base64.DecodePadded(Base64.Std, encoded)
  }

  /** `decodePublicKey`: the key bytes, which must be an Ed25519 public key's 32. */
  function DecodePublicKey(encoded: string): (r: Result<Bytes, KeyError>)
    ensures r.Ok? ==> |r.value| == PublicKeySize && KeyBytes(encoded) == Some(r.value)
    ensures r == Err(DecodeFailed) <==> KeyBytes(encoded).None?
    ensures r.Err? && r.error.WrongSize? ==> r.error.got != PublicKeySize
    ensures r.Err? && r.error.WrongSize? ==> KeyBytes(encoded).Some? && r.error.got == |KeyBytes(encoded).value|
    ensures KeyBytes(encoded).Some? && |KeyBytes(encoded).value| == PublicKeySize ==> r == Ok(KeyBytes(encoded).value)
  {
    match KeyBytes(encoded)
    case None => Err(DecodeFailed)
    case Some(b) => if |b| != PublicKeySize then Err(WrongSize(|b|)) else Ok(b)
  }

  /** Every key the agent itself writes is read back. */
  lemma DecodeEncodedKey(pub: Bytes)
    requires |pub| == PublicKeySize
    ensures DecodePublicKey(Keri.EncodePublicKey(pub)) == Ok(pub)
  {
    Keri.EncodePublicKeyDecodes(pub);
  }

  /** A raw base64url key is accepted unless its text begins with 'B'. */
  lemma DecodeRawUrlKey(pub: Bytes)
    requires |pub| == PublicKeySize && Base64.Encode(Base64.Url, pub)[0] != 'B'
    ensures DecodePublicKey(Base64.Encode(Base64.Url, pub)) == Ok(pub)
  {
    Base64.DecodeEncode(Base64.Url, pub);
  }

  /** A padded standard base64 key is accepted unless its text begins with 'B'. */
  lemma DecodePaddedStdKey(pub: Bytes)
    requires |pub| == PublicKeySize && Base64.EncodePadded(Base64.Std, pub)[0] != 'B'
    ensures DecodePublicKey(Base64.EncodePadded(Base64.Std, pub)) == Ok(pub)
  {
    var s := Base64.EncodePadded(Base64.Std, pub);
    Base64.EncodedWidth32(Base64.Std, pub);
    assert s[43] == Base64.PadChar;
    assert !Base64.InAlphabet(Base64.Url, s[43]);
    Base64.DecodeEncodePadded(Base64.Std, pub);
  }

  /**
   * The 'B' test comes first, so an unprefixed key whose text happens to
   * begin with 'B' (a first byte from 4 to 7) loses that symbol: a raw
   * base64url one decodes to 31 bytes and a padded one fails to decode.
   */
  lemma LeadingBKeysRejected(pub: Bytes)
    requires |pub| == PublicKeySize
    ensures Base64.Encode(Base64.Url, pub)[0] == 'B' ==>
      DecodePublicKey(Base64.Encode(Base64.Url, pub)) == Err(WrongSize(31))
    ensures Base64.EncodePadded(Base64.Std, pub)[0] == 'B' ==>
      DecodePublicKey(Base64.EncodePadded(Base64.Std, pub)) == Err(DecodeFailed)
  {
    var raw := Base64.Encode(Base64.Url, pub);
    var padded := Base64.EncodePadded(Base64.Std, pub);
    Base64.EncodedWidth32(Base64.Url, pub);
    Base64.EncodedWidth32(Base64.Std, pub);
    if raw[0] == 'B' {
      assert forall c | c in raw[1..] :: c in raw;
    }
    if padded[0] == 'B' {
      assert padded[43] == Base64.PadChar && padded[1..][42] == padded[43];
      assert !Base64.InAlphabet(Base64.Url, padded[1..][42]);
    }
  }

  /** The body of a `POST /api/identity/inception` request. */
  datatype InceptionRequest = InceptionRequest(publicKey: string, nextPublicKey: string)

  /** What the handler answers: the new identity (201), or an error status and the problem. */
  datatype Reply =
    | Created(aid: string, event: Keri.Event, publicKey: string, created: string)
    | Failure(status: int, error: Problem)

  /** The errors the handler reports, each with its status below. */
  datatype Problem =
    | IdentityExists | InvalidBody | MissingFields | InvalidPublicKey | InvalidNextPublicKey
    | PersistEventFailed | PersistIdentityFailed

  /** The `error` text of each problem's JSON reply. */
  function Message(p: Problem): string
  {
    match p
    case IdentityExists => "Identity already exists"
    case InvalidBody => "Invalid request body"
    case MissingFields => "Missing required fields"
    case InvalidPublicKey => "Invalid public_key"
    case InvalidNextPublicKey => "Invalid next_public_key"
    case PersistEventFailed => "Failed to persist inception event"
    case PersistIdentityFailed => "Failed to persist identity state"
  }

  /**
   * The checks made before anything is written, in the handler's order: an
   * identity already stored (a read error counts as none), a body that is
   * not JSON (`None`), an empty key field, and each key's decoding.
   */
  function Admit(h: Keri.Sha256, identity: Store.Doc<Store.IdentityState>, body: Option<InceptionRequest>)
    : (r: Result<Keri.InceptionResult, Reply>)
    ensures r == Err(Failure(409, IdentityExists)) <==> identity.Stored?
    ensures r.Ok? ==>
      body.Some? && body.value.publicKey != "" && body.value.nextPublicKey != ""
      && DecodePublicKey(body.value.publicKey).Ok? && DecodePublicKey(body.value.nextPublicKey).Ok?
  {
    if identity.Stored? then Err(Failure(409, IdentityExists))
    else if body.None? then Err(Failure(400, InvalidBody))
    else if body.value.publicKey == "" || body.value.nextPublicKey == "" then Err(Failure(400, MissingFields))
    else if DecodePublicKey(body.value.publicKey).Err? then Err(Failure(400, InvalidPublicKey))
    else if DecodePublicKey(body.value.nextPublicKey).Err? then Err(Failure(400, InvalidNextPublicKey))
    else Ok(Keri.Inception(h, DecodePublicKey(body.value.publicKey).value, DecodePublicKey(body.value.nextPublicKey).value))
  }

  /** The KEL record of the inception event. */
  function InceptionRecord(res: Keri.InceptionResult, now: string): Store.EventRecord
  {
    Store.EventRecord(res.aid, 0, "icp", res.eventJson, res.publicKey, res.nextPublicKey, now)
  }

  /** The identity state after inception: one event so far. */
  function InceptionState(res: Keri.InceptionResult, now: string): Store.IdentityState
  {
    Store.IdentityState(res.aid, res.publicKey, res.nextPublicKey, now, 1)
  }

  /**
   * The first half of `handleInception`: the checks in order, then
   * `CreateInceptionEvent` on the two decoded keys. Nothing is written.
   */
  method PrepareInception(h: Keri.Sha256, s: Store.FileStore, body: Option<InceptionRequest>)
    returns (r: Result<Keri.InceptionResult, Reply>)
    ensures r == Admit(h, s.identity, body)
  {
    var existing := s.GetIdentity();
    if existing.Ok? && existing.value.Some? {
      return Err(Failure(409, IdentityExists));
    }
    if body.None? {
      return Err(Failure(400, InvalidBody));
    }
    var req := body.value;
    if req.publicKey == "" || req.nextPublicKey == "" {
      return Err(Failure(400, MissingFields));
    }
    var signingPub := DecodePublicKey(req.publicKey);
    if signingPub.Err? {
      return Err(Failure(400, InvalidPublicKey));
    }
    var nextPub := DecodePublicKey(req.nextPublicKey);
    if nextPub.Err? {
      return Err(Failure(400, InvalidNextPublicKey));
    }
    var result := Keri.CreateInceptionEvent(h, signingPub.value, nextPub.value);
    return Ok(result);
  }

  /** The reply once the inception event is created, by which of the two writes succeeded. */
  function Persisted(res: Keri.InceptionResult, now: string, eventWrite: Store.WriteOutcome, identityWrite: Store.WriteOutcome): Reply
  {
    if !eventWrite.Done? then Failure(500, PersistEventFailed)
    else if !identityWrite.Done? then Failure(500, PersistIdentityFailed)
    else Created(res.aid, res.event, res.publicKey, now)
  }

  /**
   * `handleInception`. The event is saved before the identity; a failure to
   * save it stops the handler before the identity is written (a write torn
   * after truncation leaves the KEL file unparsable), and a failure to save
   * the identity leaves the event in the KEL.
   */
  method HandleInception(
    h: Keri.Sha256, s: Store.FileStore, body: Option<InceptionRequest>, now: string,
    eventWrite: Store.WriteOutcome, identityWrite: Store.WriteOutcome)
    returns (reply: Reply)
    modifies s`kel, s`identity
    ensures Admit(h, old(s.identity), body).Err? ==>
      reply == Admit(h, old(s.identity), body).error && s.kel == old(s.kel) && s.identity == old(s.identity)
    ensures Admit(h, old(s.identity), body).Ok? ==>
      var res := Admit(h, old(s.identity), body).value;
      s.kel == Store.Written(old(s.kel), Store.LoadOrEmpty(old(s.kel)) + [InceptionRecord(res, now)], eventWrite)
      && s.identity == (if eventWrite.Done? then Store.Written(old(s.identity), InceptionState(res, now), identityWrite) else old(s.identity))
      && reply == Persisted(res, now, eventWrite, identityWrite)
  {
    var admitted := PrepareInception(h, s, body);
    if admitted.Err? {
      return admitted.error;
    }
    var result := admitted.value;
    var err := s.SaveEvent(InceptionRecord(result, now), eventWrite);
    if err.Some? {
      return Failure(500, PersistEventFailed);
    }
    err := s.SaveIdentity(InceptionState(result, now), identityWrite);
    if err.Some? {
      return Failure(500, PersistIdentityFailed);
    }
    reply := Created(result.aid, result.event, result.publicKey, now);
  }

  // ----- what the handler guarantees -----

  /**
   * With no identity stored and two well-formed keys, the handler creates
   * the identity of `CreateInceptionEvent` for those keys.
   */
  lemma AdmitWellFormed(h: Keri.Sha256, identity: Store.Doc<Store.IdentityState>, signingPub: Bytes, nextPub: Bytes)
    requires !identity.Stored? && |signingPub| == PublicKeySize && |nextPub| == PublicKeySize
    ensures Admit(h, identity, Some(InceptionRequest(Keri.EncodePublicKey(signingPub), Keri.EncodePublicKey(nextPub))))
      == Ok(Keri.Inception(h, signingPub, nextPub))
  {
    DecodeEncodedKey(signingPub);
    DecodeEncodedKey(nextPub);
  }

  /**
   * Whatever is admitted carries two decoded 32-byte keys: the identifier is
   * the event's SAID and prefix, and the reply's key is the CESR text of the
   * signing key.
   */
  lemma AdmittedIdentity(h: Keri.Sha256, identity: Store.Doc<Store.IdentityState>, body: Option<InceptionRequest>)
    requires Admit(h, identity, body).Ok?
    ensures var res := Admit(h, identity, body).value;
      !identity.Stored? && body.Some?
      && DecodePublicKey(body.value.publicKey).Ok? && DecodePublicKey(body.value.nextPublicKey).Ok?
      && res.aid == res.event.said == res.event.prefix && |res.aid| == 44 && res.aid[0] == 'E'
      && res.publicKey == Keri.EncodePublicKey(DecodePublicKey(body.value.publicKey).value)
      && |res.publicKey| == 44
  {
    var k := DecodePublicKey(body.value.publicKey).value;
    var n := DecodePublicKey(body.value.nextPublicKey).value;
    Keri.InceptionShape(h, k, n);
  }

  /**
   * After a 201 the identity is stored, so every later inception request is
   * refused with 409: the agent holds at most one identity.
   */
  lemma CreatedThenConflict(
    h: Keri.Sha256, identity: Store.Doc<Store.IdentityState>, body: Option<InceptionRequest>,
    now: string, identityWrite: Store.WriteOutcome, body': Option<InceptionRequest>)
    requires Admit(h, identity, body).Ok? && identityWrite.Done?
    ensures var after := Store.Written(identity, InceptionState(Admit(h, identity, body).value, now), identityWrite);
      after.Stored? && after.value.eventCount == 1 && after.value.aid == Admit(h, identity, body).value.aid
      && Admit(h, after, body') == Err(Failure(409, IdentityExists))
  {
  }
}
