/**
 * The KERI core driver, a local HTTP service over keripy: it keeps managed
 * identities in memory (inception, rotation, reading the KEL), checks
 * signatures, parses OOBI URLs, and prepares multisig events.
 *
 * keripy and libsodium are not modelled: the primitives the driver takes
 * from them are the parameters `Keripy` and `Keri.Ed25519`. A request body
 * that is absent or falsy is `None`; a field the body lacks is the empty
 * string (or the documented default).
 */
module Driver {
  import opened Common
  import Base64
  import Numerals
  import Keri
  import Text
  import Collections

  // ----- key text -----

  /** The padding `_b64url_decode` adds: '=' up to the next multiple of four characters. */
  function PadToQuantum(s: string): (r: string)
    ensures |r| % 4 == 0 && |s| <= |r| < |s| + 4
    ensures r[..|s|] == s && forall i :: |s| <= i < |r| ==> r[i] == Base64.PadChar
  {
    var padding := 4 - |s| % 4;
    if padding != 4 then s + Text.Repeat(Base64.PadChar, padding) else s
  }

  /** `_b64url_decode`: pad, then decode as base64url. */
  function B64UrlDecode(s: string): (r: Option<Bytes>)
    ensures |s| % 4 == 0 ==> r == Base64.DecodePadded(Base64.Url, s)
  {
    Base64.DecodePadded(Base64.Url, PadToQuantum(s))
  }

  /**
   * `_extract_raw_key`: a leading 'B' (Ed25519 key) or 'D' (basic key) code
   * is dropped when more follows; the empty text raises, which is `None`.
   */
  function ExtractRawKey(cesrKey: string): (r: Option<Bytes>)
    ensures cesrKey == "" ==> r.None?
  {
    if cesrKey == [] then None
    else if (cesrKey[0] == 'B' || cesrKey[0] == 'D') && |cesrKey| > 1 then B64UrlDecode(cesrKey[1..])
    else B64UrlDecode(cesrKey)
  }

  /** The padding restores exactly the padded encoding. */
  lemma PadUnpadded(b: Bytes)
    ensures PadToQuantum(Base64.Encode(Base64.Url, b)) == Base64.EncodePadded(Base64.Url, b)
  {
    var e := Base64.Encode(Base64.Url, b);
    Base64.PaddedLength(Base64.Url, b);
    Base64.EncodedLengthMod(Base64.Url, b);
    var p := PadToQuantum(e);
    var q := Base64.EncodePadded(Base64.Url, b);
    assert |p| == |q|;
    forall i | 0 <= i < |p|
      ensures p[i] == q[i]
    {
      if i < |e| {
        assert p[i] == p[..|e|][i];
      }
    }
  }

  /** `_b64url_decode` reads back every unpadded base64url text. */
  lemma B64UrlDecodeEncode(b: Bytes)
    ensures B64UrlDecode(Base64.Encode(Base64.Url, b)) == Some(b)
  {
    PadUnpadded(b);
    Base64.DecodeEncodePadded(Base64.Url, b);
  }

  /** A key written with the 'B' or 'D' code gives back its raw bytes. */
  lemma ExtractCodedKey(code: char, raw: Bytes)
    requires (code == 'B' || code == 'D') && |raw| >= 1
    ensures ExtractRawKey([code] + Base64.Encode(Base64.Url, raw)) == Some(raw)
  {
    var k := [code] + Base64.Encode(Base64.Url, raw);
    assert k[1..] == Base64.Encode(Base64.Url, raw);
    B64UrlDecodeEncode(raw);
  }

  /** The driver reads the key text the agent writes. */
  lemma ExtractAgentKey(pub: Bytes)
    requires |pub| == 32
    ensures ExtractRawKey(Keri.EncodePublicKey(pub)) == Some(pub)
  {
    ExtractCodedKey('B', pub);
  }

  /**
   * A key text with no code is decoded whole: an unpadded base64url text that
   * begins with neither 'B' nor 'D' gives back its bytes.
   */
  lemma ExtractUncodedKey(raw: Bytes)
    requires |raw| >= 1
    requires Base64.Encode(Base64.Url, raw)[0] != 'B' && Base64.Encode(Base64.Url, raw)[0] != 'D'
    ensures ExtractRawKey(Base64.Encode(Base64.Url, raw)) == Some(raw)
  {
    B64UrlDecodeEncode(raw);
  }

  /**
   * An uncoded 32-byte key whose text happens to begin with 'B' or 'D' loses
   * its first symbol to the code test, and comes back as 31 bytes.
   */
  lemma LeadingCodeKeysShortened(pub: Bytes)
    requires |pub| == 32
    ensures var e := Base64.Encode(Base64.Url, pub);
      e[0] == 'B' || e[0] == 'D' ==>
      ExtractRawKey(e).Some? && |ExtractRawKey(e).value| == 31
  {
    var e := Base64.Encode(Base64.Url, pub);
    Base64.EncodedWidth32(Base64.Url, pub);
    if e[0] == 'B' || e[0] == 'D' {
      var rest := e[1..];
      assert forall c | c in rest :: c in e;
      assert PadToQuantum(rest) == rest + seq(2, _ => Base64.PadChar);
      Base64.DecodePaddedStrips(Base64.Url, rest, 2);
    }
  }

  /** A one-character "B" or "D" is not taken as a code: it is decoded whole, and fails. */
  lemma LoneCodeRefused()
    ensures ExtractRawKey("B") == B64UrlDecode("B") == None
    ensures ExtractRawKey("D") == B64UrlDecode("D") == None
  {
    assert PadToQuantum("B") == "B===";
    assert "B==="[2..] == [Base64.PadChar, Base64.PadChar] && "B==="[..2] == "B=";
    assert !Base64.InAlphabet(Base64.Url, "B="[1]);
    assert PadToQuantum("D") == "D===";
    assert "D==="[2..] == [Base64.PadChar, Base64.PadChar] && "D==="[..2] == "D=";
    assert !Base64.InAlphabet(Base64.Url, "D="[1]);
  }

  // ----- the managed identities -----

  /** A key event as keripy builds it, reduced to the fields the driver sets. */
  datatype KelEvent =
    | Icp(pre: string, keys: seq<string>, ndigs: seq<string>)
    | Rot(pre: string, sn: int, keys: seq<string>, prior: string, ndigs: seq<string>)

  /**
   * What the driver takes from keripy: the qb64 text of an Ed25519 verifier
   * and of a Blake3-256 digest for raw bytes (`None` when keripy refuses
   * them), the self-addressing prefix `eventing.incept` assigns, and the
   * digest of an event's JSON text.
   */
  datatype Keripy = Keripy(
    verfer: Bytes -> Option<string>,
    diger: Bytes -> Option<string>,
    prefix: (seq<string>, seq<string>) -> string,
    eventDigest: KelEvent -> string)

  datatype Identity = Identity(
    aid: string, publicKey: string, nextKeyDigest: string, kel: seq<KelEvent>, sequenceNumber: int)

  /**
   * The shape every stored identity keeps: the KEL opens with the inception
   * of the AID, the n-th later event is the rotation numbered n, and the
   * sequence number is that of the last event.
   */
  predicate WellFormed(id: Identity)
  {
    |id.kel| >= 1 && id.sequenceNumber == |id.kel| - 1
    && id.kel[0].Icp? && id.kel[0].pre == id.aid
    && forall i :: 1 <= i < |id.kel| ==> id.kel[i].Rot? && id.kel[i].sn == i && id.kel[i].pre == id.aid
  }

  /** The qb64 texts of the new current key and of the next-key digest. */
  datatype KeyTexts = KeyTexts(verfer: string, diger: string)

  /**
   * The key steps `inception` and `rotation` share: extract both raw keys,
   * then let keripy build the verifier and the digest; `None` when one of
   * them raises.
   */
  function NewKeys(lib: Keripy, publicKey: string, nextPublicKey: string): Option<KeyTexts>
  {
    var pub := ExtractRawKey(publicKey);
    var next := ExtractRawKey(nextPublicKey);
    if pub.None? || next.None? then None
    else if lib.verfer(pub.value).None? || lib.diger(next.value).None? then None
    else Some(KeyTexts(lib.verfer(pub.value).value, lib.diger(next.value).value))
  }

  /** The identity `inception` stores, with the prefix keripy assigns. */
  function Incept(lib: Keripy, keys: KeyTexts): (r: Identity)
    ensures WellFormed(r) && r.sequenceNumber == 0 && r.kel == [Icp(r.aid, [keys.verfer], [keys.diger])]
  {
    var pre := lib.prefix([keys.verfer], [keys.diger]);
    Identity(pre, keys.verfer, keys.diger, [Icp(pre, [keys.verfer], [keys.diger])], 0)
  }

  /** The rotation of `id` to the new keys; `None` when there is no last event to chain to. */
  function Rotate(lib: Keripy, id: Identity, keys: KeyTexts): Option<Identity>
  {
    if id.kel == [] then None
    else
      var sn := id.sequenceNumber + 1;
      var event := Rot(id.aid, sn, [keys.verfer], lib.eventDigest(id.kel[|id.kel| - 1]), [keys.diger]);
      Some(Identity(id.aid, keys.verfer, keys.diger, id.kel + [event], sn))
  }

  /**
   * A rotation keeps the AID and the events so far, adds exactly one event
   * chained to the previous one, advances the sequence number by one,
   * replaces both keys, and keeps the identity well formed.
   */
  lemma RotationStep(lib: Keripy, id: Identity, keys: KeyTexts)
    requires WellFormed(id)
    ensures Rotate(lib, id, keys).Some?
    ensures var r := Rotate(lib, id, keys).value;
      r.aid == id.aid && r.sequenceNumber == id.sequenceNumber + 1
      && |r.kel| == |id.kel| + 1 && r.kel[..|id.kel|] == id.kel
      && r.kel[|id.kel|].prior == lib.eventDigest(id.kel[|id.kel| - 1])
      && r.publicKey == keys.verfer && r.nextKeyDigest == keys.diger
      && WellFormed(r)
  {
    var r := Rotate(lib, id, keys).value;
    var n := |id.kel|;
    assert r.kel[..n] == id.kel;
    assert r.kel[n].Rot? && r.kel[n].sn == n && r.kel[n].pre == r.aid;
    forall i | 1 <= i < n
      ensures r.kel[i].Rot? && r.kel[i].sn == i && r.kel[i].pre == r.aid
    {
      assert r.kel[i] == id.kel[i];
    }
  }

  /**
   * Rotation never consults the committed next-key digest: a well-formed
   * identity rotates to any keys keripy accepts, and the outcome is the same
   * whatever digest it had committed to.
   */
  lemma RotationIgnoresCommitment(lib: Keripy, id: Identity, digest: string, keys: KeyTexts)
    ensures Rotate(lib, id, keys) == Rotate(lib, id.(nextKeyDigest := digest), keys)
    ensures WellFormed(id) ==> Rotate(lib, id, keys).Some?
  {
  }

  /** Why a driver request was refused. */
  datatype Problem =
    | BodyRequired | KeysRequired | NameRequired | UnknownName
    | InceptionFailed | RotationFailed
    | VerifyFieldsRequired | VerificationFailed
    | UrlRequired | OobiFailed
    | AidsAndKeysRequired | MultisigFailed

  datatype Reply =
    | Incepted(aid: string, event: KelEvent, publicKey: string, nextKeyDigest: string)
    | Rotated(aid: string, newPublicKey: string, newNextKeyDigest: string, event: KelEvent, sequenceNumber: int)
    | KelReply(aid: string, kel: seq<KelEvent>, sequenceNumber: int, eventCount: nat)
    | Verified(valid: bool, publicKey: string)
    | Oobi(endpoints: seq<string>, oobiUrl: string, cid: string, eid: string, role: string)
    | Failure(status: int, problem: Problem)

  datatype InceptionBody = InceptionBody(publicKey: string, nextPublicKey: string, name: Option<string>)

  datatype RotationBody = RotationBody(name: string, newPublicKey: string, newNextPublicKey: string)

  /** The module-level `_identities` dictionary, keyed by name. */
  class KeriDriver {
    var identities: map<string, Identity>

    ghost predicate Valid()
      reads this
    {
      forall name | name in identities :: WellFormed(identities[name])
    }

    constructor ()
      ensures identities == map[] && Valid()
    {
      identities := map[];
    }

    /** `inception`: stores the new identity under its name, or its AID, replacing whatever was there. */
    method Inception(lib: Keripy, body: Option<InceptionBody>) returns (reply: Reply)
      requires Valid()
      modifies this
      ensures Valid()
      ensures body.None? ==> reply == Failure(400, BodyRequired) && identities == old(identities)
      ensures body.Some? && (body.value.publicKey == "" || body.value.nextPublicKey == "") ==>
        reply == Failure(400, KeysRequired) && identities == old(identities)
      ensures body.Some? && body.value.publicKey != "" && body.value.nextPublicKey != "" ==>
        var keys := NewKeys(lib, body.value.publicKey, body.value.nextPublicKey);
        (keys.None? ==> reply == Failure(500, InceptionFailed) && identities == old(identities))
        && (keys.Some? ==>
              var made := Incept(lib, keys.value);
              identities == old(identities)[GetOr(body.value.name, made.aid) := made]
              && reply == Incepted(made.aid, made.kel[0], made.publicKey, made.nextKeyDigest))
    {
      if body.None? {
        return Failure(400, BodyRequired);
      }
      var req := body.value;
      if req.publicKey == "" || req.nextPublicKey == "" {
        return Failure(400, KeysRequired);
      }
      var keys := NewKeys(lib, req.publicKey, req.nextPublicKey);
      if keys.None? {
        return Failure(500, InceptionFailed);
      }
      var identity := Incept(lib, keys.value);
      var name := GetOr(req.name, identity.aid);
      identities := identities[name := identity];
      reply := Incepted(identity.aid, identity.kel[0], identity.publicKey, identity.nextKeyDigest);
    }

    /** `rotation`: every refusal leaves the identities as they were. */
    method Rotation(lib: Keripy, body: Option<RotationBody>) returns (reply: Reply)
      requires Valid()
      modifies this
      ensures Valid()
      ensures body.None? ==> reply == Failure(400, BodyRequired) && identities == old(identities)
      ensures body.Some? && body.value.name == "" ==> reply == Failure(400, NameRequired) && identities == old(identities)
      ensures body.Some? && body.value.name != "" && (body.value.newPublicKey == "" || body.value.newNextPublicKey == "") ==>
        reply == Failure(400, KeysRequired) && identities == old(identities)
      ensures body.Some? && body.value.name != "" && body.value.newPublicKey != "" && body.value.newNextPublicKey != "" ==>
        var req := body.value;
        (req.name !in old(identities) ==> reply == Failure(404, UnknownName) && identities == old(identities))
        && (req.name in old(identities) ==>
              var keys := NewKeys(lib, req.newPublicKey, req.newNextPublicKey);
              (keys.None? ==> reply == Failure(500, RotationFailed) && identities == old(identities))
              && (keys.Some? ==>
                    var rotated := Rotate(lib, old(identities)[req.name], keys.value).value;
                    identities == old(identities)[req.name := rotated]
                    && reply == Rotated(rotated.aid, rotated.publicKey, rotated.nextKeyDigest,
                                        rotated.kel[|rotated.kel| - 1], rotated.sequenceNumber)))
    {
      if body.None? {
        return Failure(400, BodyRequired);
      }
      var req := body.value;
      if req.name == "" {
        return Failure(400, NameRequired);
      }
      if req.newPublicKey == "" || req.newNextPublicKey == "" {
        return Failure(400, KeysRequired);
      }
      if req.name !in identities {
        return Failure(404, UnknownName);
      }
      var identity := identities[req.name];
      var keys := NewKeys(lib, req.newPublicKey, req.newNextPublicKey);
      if keys.None? {
        return Failure(500, RotationFailed);
      }
      RotationStep(lib, identity, keys.value);
      var updated := Rotate(lib, identity, keys.value).value;
      identities := identities[req.name := updated];
      reply := Rotated(updated.aid, updated.publicKey, updated.nextKeyDigest, updated.kel[|updated.kel| - 1], updated.sequenceNumber);
    }

    /** `get_kel`: the event count is always one more than the sequence number. */
    method GetKel(name: string) returns (reply: Reply)
      requires Valid()
      ensures name == "" ==> reply == Failure(400, NameRequired)
      ensures name != "" && name !in identities ==> reply == Failure(404, UnknownName)
      ensures name != "" && name in identities ==>
        reply.KelReply? && reply.aid == identities[name].aid && reply.kel == identities[name].kel
        && reply.sequenceNumber == identities[name].sequenceNumber
        && reply.eventCount == |reply.kel| == reply.sequenceNumber + 1
    {
      if name == "" {
        return Failure(400, NameRequired);
      }
      if name !in identities {
        return Failure(404, UnknownName);
      }
      var identity := identities[name];
      reply := KelReply(identity.aid, identity.kel, identity.sequenceNumber, |identity.kel|);
    }
  }

  // ----- signature check -----

  datatype VerifyBody = VerifyBody(data: string, signature: string, publicKey: string)

  /**
   * `verify`: the three fields are required; data and signature are
   * standard base64, and the key is checked by keripy before libsodium
   * checks the signature.
   */
  function Verify(lib: Keripy, ed: Keri.Ed25519, body: Option<VerifyBody>): (r: Reply)
    ensures r == Failure(400, BodyRequired) <==> body.None?
    ensures r.Verified? ==>
      body.Some? && body.value.data != "" && body.value.signature != ""
      && ExtractRawKey(body.value.publicKey).Some?
  {
    if body.None? then Failure(400, BodyRequired)
    else if body.value.data == "" || body.value.signature == "" || body.value.publicKey == "" then
      Failure(400, VerifyFieldsRequired)
    else
      var payload := Base64.DecodePadded(Base64.Std, body.value.data);
      var signature := Base64.DecodePadded(Base64.Std, body.value.signature);
      var raw := ExtractRawKey(body.value.publicKey);
      if payload.None? || signature.None? || raw.None? then Failure(500, VerificationFailed)
      else if lib.verfer(raw.value).None? then Failure(500, VerificationFailed)
      else Verified(ed.verify(raw.value, payload.value, signature.value), lib.verfer(raw.value).value)
  }

  /**
   * A message signed with a seeded key pair, sent with the agent's key text
   * and standard base64 data and signature, is reported valid.
   */
  lemma VerifyAgentSignature(lib: Keripy, ed: Keri.Ed25519, h: Keri.Sha256, seed: Bytes, msg: Bytes)
    requires Keri.Sound(ed)
    requires |Keri.KeyPairFromSeed(ed, h, seed).publicKey| == 32
    requires lib.verfer(Keri.KeyPairFromSeed(ed, h, seed).publicKey).Some?
    requires |msg| >= 1
    ensures var kp := Keri.KeyPairFromSeed(ed, h, seed);
      var sig := Keri.SignEvent(ed, kp.privateKey, msg);
      |sig| >= 1 ==>
      Verify(lib, ed, Some(VerifyBody(Base64.EncodePadded(Base64.Std, msg), Base64.EncodePadded(Base64.Std, sig),
        Keri.EncodePublicKey(kp.publicKey))))
      == Verified(true, lib.verfer(kp.publicKey).value)
  {
    var kp := Keri.KeyPairFromSeed(ed, h, seed);
    var sig := Keri.SignEvent(ed, kp.privateKey, msg);
    if |sig| >= 1 {
      Keri.SignThenVerify(ed, h, seed, msg);
      ExtractAgentKey(kp.publicKey);
      Base64.DecodeEncodePadded(Base64.Std, msg);
      Base64.DecodeEncodePadded(Base64.Std, sig);
      Base64.PaddedLength(Base64.Std, msg);
      Base64.PaddedLength(Base64.Std, sig);
      VerifyDecoded(lib, ed, VerifyBody(Base64.EncodePadded(Base64.Std, msg), Base64.EncodePadded(Base64.Std, sig),
        Keri.EncodePublicKey(kp.publicKey)), msg, sig, kp.publicKey);
    }
  }

  /** Once the three fields decode and keripy accepts the key, the reply is libsodium's verdict. */
  lemma VerifyDecoded(lib: Keripy, ed: Keri.Ed25519, body: VerifyBody, payload: Bytes, signature: Bytes, raw: Bytes)
    requires body.data != "" && body.signature != "" && body.publicKey != ""
    requires Base64.DecodePadded(Base64.Std, body.data) == Some(payload)
    requires Base64.DecodePadded(Base64.Std, body.signature) == Some(signature)
    requires ExtractRawKey(body.publicKey) == Some(raw)
    requires lib.verfer(raw).Some?
    ensures Verify(lib, ed, Some(body)) == Verified(ed.verify(raw, payload, signature), lib.verfer(raw).value)
  {
  }

  /** The verifier reports a missing field before looking at anything else. */
  lemma VerifyNeedsFields(lib: Keripy, ed: Keri.Ed25519, body: VerifyBody)
    ensures Verify(lib, ed, Some(body)) == Failure(400, VerifyFieldsRequired)
      <==> body.data == "" || body.signature == "" || body.publicKey == ""
  {
  }

  // ----- OOBI URLs -----

  /** Python's `url.split("//")[1].split("/")[0]`: the text after the first "//" up to the next '/'. */
  function HostPort(url: string): (r: string)
    ensures '/' !in r
    ensures Text.IndexOf(url, "//").None? ==> r == ""
  {
    match Text.IndexOf(url, "//")
    case None => ""
    case Some(k) =>
      var rest := url[k + 2..];
      var piece := if Text.IndexOf(rest, "//").Some? then rest[..Text.IndexOf(rest, "//").value] else rest;
      Text.SplitPartsFree(piece, '/');
      Text.Split(piece, '/')[0]
  }

  function Scheme(url: string): string
  {
    if Text.StartsWith(url, "http://") then "http" else "https"
  }

  function Segment(parts: seq<string>, j: nat): string
  {
    if j < |parts| then parts[j] else ""
  }

  /**
   * The cid, role and eid segments after the first "oobi" segment of the URL
   * without its trailing slashes; all empty when the URL has no "/oobi/".
   * `None` stands for `parts.index` raising, which the handler's `try`
   * answers with a 500. It does not happen: a URL with "/oobi/" always has an
   * "oobi" segment, since stripping trailing slashes cannot reach its 'i'.
   * The branch is kept to follow the handler's structure.
   */
  function OobiPath(url: string): (r: Option<seq<string>>)
    ensures r.Some? ==> |r.value| == 3
    ensures !Text.Contains(url, "/oobi/") ==> r == Some(["", "", ""])
  {
    if !Text.Contains(url, "/oobi/") then Some(["", "", ""])
    else
      var parts := Text.Split(Text.RStrip(url, '/'), '/');
      match Collections.FirstIndex(parts, Collections.Ident, "oobi")
      case None => None
      case Some(i) => Some([Segment(parts, i + 1), Segment(parts, i + 2), Segment(parts, i + 3)])
  }

  /** `resolve_oobi`. */
  function ResolveOobi(body: Option<string>): (r: Reply)
    ensures r == Failure(400, UrlRequired) <==> body == Some("")
    ensures r.Oobi? ==>
      body.Some? && r.oobiUrl == body.value && |r.endpoints| <= 1
      && (r.endpoints != [] <==> HostPort(body.value) != "")
  {
    if body.None? then Failure(400, BodyRequired)
    else if body.value == "" then Failure(400, UrlRequired)
    else
      var url := body.value;
      var path := OobiPath(url);
      if path.None? then Failure(500, OobiFailed)
      else
        var host := HostPort(url);
        var endpoints := if host != "" then [Scheme(url) + "://" + host] else [];
        Oobi(endpoints, url, path.value[0], path.value[2], path.value[1])
  }

  /**
   * The endpoint is the URL's scheme, "http" exactly for "http://" URLs and
   * "https" for everything else, with the host and port; there is one only
   * when the URL has a "//" followed by a non-empty host, which never
   * contains a '/'.
   */
  lemma OobiEndpoint(url: string)
    requires url != "" && OobiPath(url).Some?
    ensures var r := ResolveOobi(Some(url));
      r.Oobi? && r.oobiUrl == url
      && (r.endpoints != [] <==> HostPort(url) != "")
      && (r.endpoints != [] ==> Text.Contains(url, "//") && r.endpoints == [Scheme(url) + "://" + HostPort(url)])
      && '/' !in HostPort(url)
      && (Scheme(url) == "http" <==> Text.StartsWith(url, "http://"))
  {
    var k := Text.IndexOf(url, "//");
    if k.Some? {
      var rest := url[k.value + 2..];
      var piece := if Text.IndexOf(rest, "//").Some? then rest[..Text.IndexOf(rest, "//").value] else rest;
      Text.SplitPartsFree(piece, '/');
    }
  }

  /** A URL without "/oobi/" has empty cid, role and eid. */
  lemma OobiWithoutMarker(url: string)
    requires url != "" && !Text.Contains(url, "/oobi/")
    ensures var r := ResolveOobi(Some(url)); r.Oobi? && r.cid == "" && r.role == "" && r.eid == ""
  {
  }

  /**
   * A URL whose path holds "oobi" followed by three segments resolves to
   * those segments: the first is the cid, the second the role and the third
   * the eid.
   */
  lemma OobiSegments(pre: seq<string>, cid: string, role: string, eid: string)
    requires |pre| >= 1 && "oobi" !in pre && eid != ""
    requires Text.NoneContains(pre + ["oobi", cid, role, eid], '/')
    ensures var url := Text.Join(pre + ["oobi", cid, role, eid], '/');
      var r := ResolveOobi(Some(url));
      r.Oobi? && r.oobiUrl == url && r.cid == cid && r.role == role && r.eid == eid
  {
    var parts := pre + ["oobi", cid, role, eid];
    var url := Text.Join(parts, '/');
    OobiUrlText(pre, cid, role, eid);
    Text.ContainsMiddle(Text.Join(pre, '/'), "/oobi/", cid + "/" + role + "/" + eid);
    assert '/' !in parts[|parts| - 1];
    assert Text.RStrip(url, '/') == url;
    Text.SplitJoin(parts, '/');
    forall j | 0 <= j < |pre|
      ensures Collections.Ident(parts[j]) != "oobi"
    {
      assert parts[j] == pre[j];
    }
    Collections.FirstIndexIs(parts, Collections.Ident, "oobi", |pre|);
  }

  /** A URL that ends with "oobi" and a cid has an empty role and eid. */
  lemma OobiCidOnly(pre: seq<string>, cid: string)
    requires |pre| >= 1 && "oobi" !in pre && cid != ""
    requires Text.NoneContains(pre + ["oobi", cid], '/')
    ensures var url := Text.Join(pre + ["oobi", cid], '/');
      var r := ResolveOobi(Some(url));
      r.Oobi? && r.cid == cid && r.role == "" && r.eid == ""
  {
    var parts := pre + ["oobi", cid];
    var url := Text.Join(parts, '/');
    OobiCidUrlText(pre, cid);
    Text.ContainsMiddle(Text.Join(pre, '/'), "/oobi/", cid);
    assert parts[..|pre|] == pre;
    OobiPathOfParts(pre, parts);
    assert OobiPath(url) == Some([cid, "", ""]);
  }

  /** A URL that ends with "oobi", a cid and a role has an empty eid. */
  lemma OobiCidRole(pre: seq<string>, cid: string, role: string)
    requires |pre| >= 1 && "oobi" !in pre && role != ""
    requires Text.NoneContains(pre + ["oobi", cid, role], '/')
    ensures var url := Text.Join(pre + ["oobi", cid, role], '/');
      var r := ResolveOobi(Some(url));
      r.Oobi? && r.cid == cid && r.role == role && r.eid == ""
  {
    var parts := pre + ["oobi", cid, role];
    var url := Text.Join(parts, '/');
    OobiRoleUrlText(pre, cid, role);
    Text.ContainsMiddle(Text.Join(pre, '/'), "/oobi/", cid + "/" + role);
    assert parts[..|pre|] == pre;
    OobiPathOfParts(pre, parts);
    assert OobiPath(url) == Some([cid, role, ""]);
  }

  /** The text of a cid-only URL: the parts before "oobi", then "/oobi/", then the cid. */
  lemma OobiCidUrlText(pre: seq<string>, cid: string)
    requires |pre| >= 1
    ensures Text.Join(pre + ["oobi", cid], '/') == Text.Join(pre, '/') + "/oobi/" + cid
  {
    SnocTwo(pre, "oobi", cid);
    Text.JoinSnoc(pre, "oobi", '/');
    Text.JoinSnoc(pre + ["oobi"], cid, '/');
    SlashRegroupCid(Text.Join(pre, '/'), cid);
  }

  /** The text of a cid-and-role URL: the parts before "oobi", then "/oobi/", then the two segments. */
  lemma OobiRoleUrlText(pre: seq<string>, cid: string, role: string)
    requires |pre| >= 1
    ensures Text.Join(pre + ["oobi", cid, role], '/') == Text.Join(pre, '/') + "/oobi/" + (cid + "/" + role)
  {
    SnocThree(pre, "oobi", cid, role);
    Text.JoinSnoc(pre, "oobi", '/');
    Text.JoinSnoc(pre + ["oobi"], cid, '/');
    Text.JoinSnoc(pre + ["oobi"] + [cid], role, '/');
    SlashRegroupRole(Text.Join(pre, '/'), cid, role);
  }

  /** Two single appends are one append of the two. */
  lemma SnocTwo<T>(xs: seq<T>, a: T, b: T)
    ensures xs + [a] + [b] == xs + [a, b]
  {
    var l := xs + [a] + [b];
    var r := xs + [a, b];
    assert |l| == |r|;
    forall i | 0 <= i < |l|
      ensures l[i] == r[i]
    {
    }
  }

  /** Three single appends are one append of the three. */
  lemma SnocThree<T>(xs: seq<T>, a: T, b: T, c: T)
    ensures xs + [a] + [b] + [c] == xs + [a, b, c]
  {
    var l := xs + [a] + [b] + [c];
    var r := xs + [a, b, c];
    assert |l| == |r|;
    forall i | 0 <= i < |l|
      ensures l[i] == r[i]
    {
    }
  }

  /**
   * The path of a URL joined from separator-free parts, the last non-empty,
   * whose first "oobi" part follows `pre`: the segments after that part.
   */
  lemma OobiPathOfParts(pre: seq<string>, parts: seq<string>)
    requires "oobi" !in pre && |parts| > |pre| + 1 && parts[..|pre|] == pre && parts[|pre|] == "oobi"
    requires Text.NoneContains(parts, '/') && parts[|parts| - 1] != ""
    requires Text.Contains(Text.Join(parts, '/'), "/oobi/")
    ensures OobiPath(Text.Join(parts, '/'))
      == Some([Segment(parts, |pre| + 1), Segment(parts, |pre| + 2), Segment(parts, |pre| + 3)])
  {
    var url := Text.Join(parts, '/');
    assert Text.RStrip(url, '/') == url by {
      var last := parts[|parts| - 1];
      assert url == Text.Join(parts[..|parts| - 1], '/') + ['/'] + last;
      assert url[|url| - 1] == last[|last| - 1];
      assert '/' !in last;
    }
    assert Text.Split(Text.RStrip(url, '/'), '/') == parts by {
      Text.SplitJoin(parts, '/');
    }
    OobiFirstMarker(pre, parts);
  }

  /** The first "oobi" segment is the one right after `pre`. */
  lemma OobiFirstMarker(pre: seq<string>, parts: seq<string>)
    requires "oobi" !in pre && |parts| > |pre| && parts[..|pre|] == pre && parts[|pre|] == "oobi"
    ensures Collections.FirstIndex(parts, Collections.Ident, "oobi") == Some(|pre|)
  {
    forall j | 0 <= j < |pre|
      ensures Collections.Ident(parts[j]) != "oobi"
    {
      assert parts[j] == parts[..|pre|][j] == pre[j];
    }
    Collections.FirstIndexIs(parts, Collections.Ident, "oobi", |pre|);
  }

  /** The text of such a URL: the parts before "oobi", then "/oobi/", then the three segments. */
  lemma OobiUrlText(pre: seq<string>, cid: string, role: string, eid: string)
    requires |pre| >= 1
    ensures Text.Join(pre + ["oobi", cid, role, eid], '/')
      == Text.Join(pre, '/') + "/oobi/" + (cid + "/" + role + "/" + eid)
  {
    var p1 := pre + ["oobi"];
    var p2 := p1 + [cid];
    var p3 := p2 + [role];
    SnocFour(pre, "oobi", cid, role, eid);
    Text.JoinSnoc(pre, "oobi", '/');
    Text.JoinSnoc(p1, cid, '/');
    Text.JoinSnoc(p2, role, '/');
    Text.JoinSnoc(p3, eid, '/');
    SlashRegroup(Text.Join(pre, '/'), cid, role, eid);
  }

  /** Four single appends are one append of the four. */
  lemma SnocFour<T>(xs: seq<T>, a: T, b: T, c: T, d: T)
    ensures xs + [a] + [b] + [c] + [d] == xs + [a, b, c, d]
  {
    var l := xs + [a] + [b] + [c] + [d];
    var r := xs + [a, b, c, d];
    assert |l| == |r|;
    forall i | 0 <= i < |l|
      ensures l[i] == r[i]
    {
    }
  }

  /** The joined URL text, regrouped around "/oobi/". */
  lemma SlashRegroup(j: string, cid: string, role: string, eid: string)
    ensures j + ['/'] + "oobi" + ['/'] + cid + ['/'] + role + ['/'] + eid
      == j + "/oobi/" + (cid + "/" + role + "/" + eid)
  {
  }

  /** The joined text of a cid-only URL, regrouped around "/oobi/". */
  lemma SlashRegroupCid(j: string, cid: string)
    ensures j + ['/'] + "oobi" + ['/'] + cid == j + "/oobi/" + cid
  {
  }

  /** The joined text of a cid-and-role URL, regrouped around "/oobi/". */
  lemma SlashRegroupRole(j: string, cid: string, role: string)
    ensures j + ['/'] + "oobi" + ['/'] + cid + ['/'] + role == j + "/oobi/" + (cid + "/" + role)
  {
  }

  /** A "//" followed straight by another '/' leaves the host empty. */
  lemma HostEmptyAfterSlash(url: string)
    requires Text.IndexOf(url, "//").Some?
    requires Text.IndexOf(url, "//").value + 2 < |url| && url[Text.IndexOf(url, "//").value + 2] == '/'
    ensures HostPort(url) == ""
  {
    var k := Text.IndexOf(url, "//").value;
    var rest := url[k + 2..];
    var piece := if Text.IndexOf(rest, "//").Some? then rest[..Text.IndexOf(rest, "//").value] else rest;
    assert HostPort(url) == Text.Split(piece, '/')[0];
    if piece != "" {
      assert piece[0] == rest[0] == '/';
      Text.SplitLeadingSep(piece, '/');
    }
  }

  /**
   * "http:///x" has a "//" but an empty host, so it resolves to no
   * endpoint: the endpoint list is empty for more than the URLs without "//".
   */
  lemma EmptyHostNoEndpoint()
    ensures Text.Contains("http:///x", "//")
    ensures ResolveOobi(Some("http:///x")).Oobi? && ResolveOobi(Some("http:///x")).endpoints == []
  {
    var url := "http:///x";
    FirstDoubleSlash();
    assert url[7] == '/';
    HostEmptyAfterSlash(url);
    TripleSlashNoMarker();
    OobiWithoutMarker(url);
  }

  lemma TripleSlashNoMarker()
    ensures !Text.Contains("http:///x", "/oobi/")
  {
    var url := "http:///x";
    assert forall i :: 0 <= i < |url| ==> url[i] != 'o';
    NoOobiMarker(url);
  }

  lemma FirstDoubleSlash()
    ensures Text.IndexOf("http:///x", "//") == Some(5)
  {
    var url := "http:///x";
    assert Text.OccursAt(url, "//", 5);
    forall k | 0 <= k < 5
      ensures !Text.OccursAt(url, "//", k)
    {
      assert url[k] != '/' && url[k..k + 2][0] == url[k];
    }
  }

  /** A URL without the letter 'o' has no "/oobi/" in it. */
  lemma NoOobiMarker(url: string)
    requires 'o' !in url
    ensures !Text.Contains(url, "/oobi/")
  {
    Text.ContainsChars(url, "/oobi/");
    assert "/oobi/"[1] == 'o';
  }

  // ----- multisig events -----

  /** A `generate-multisig-event` body with its defaults (threshold 1, event type "inception") filled in. */
  datatype MultisigBody = MultisigBody(aids: seq<string>, threshold: int, currentKeys: seq<string>, eventType: string)

  /** What the driver hands to keripy: a multisig inception, or the JSON of another event type to digest. */
  datatype MultisigPlan =
    | InceptPlan(keys: seq<string>, isith: string, nsith: string, ndigs: seq<string>)
    | DigestPlan(eventType: string, aids: seq<string>, threshold: int, keys: seq<string>)

  /** The verifier text keripy writes for the raw bytes of `key`; `None` when they cannot be extracted or keripy refuses them. */
  function VerferOf(lib: Keripy, key: string): Option<string>
  {
    var raw := ExtractRawKey(key);
    if raw.None? then None else lib.verfer(raw.value)
  }

  /** keripy accepts the raw bytes of `key` and writes them as `verfer`. */
  predicate Accepted(lib: Keripy, key: string, verfer: string)
  {
    VerferOf(lib, key) == Some(verfer)
  }

  /** keripy accepts the raw bytes of `key` under some verifier text. */
  predicate Acceptable(lib: Keripy, key: string)
  {
    VerferOf(lib, key).Some?
  }

  /**
   * The verifier text of every current key, in order; `None` exactly when
   * one of them is refused.
   */
  function VerferKeys(lib: Keripy, keys: seq<string>): (r: Option<seq<string>>)
    ensures r.Some? <==> forall i :: 0 <= i < |keys| ==> Acceptable(lib, keys[i])
    ensures r.Some? ==> |r.value| == |keys|
    ensures r.Some? ==> forall i :: 0 <= i < |keys| ==> Accepted(lib, keys[i], r.value[i])
    decreases |keys|
  {
    if keys == [] then Some([])
    else
      var init := VerferKeys(lib, keys[..|keys| - 1]);
      var v := VerferOf(lib, keys[|keys| - 1]);
      assert forall i :: 0 <= i < |keys| - 1 ==> keys[..|keys| - 1][i] == keys[i];
      if init.None? || v.None? then None
      else
        var r := init.value + [v.value];
        assert forall i :: 0 <= i < |keys| - 1 ==> r[i] == init.value[i];
        Some(r)
  }

  /** The loop over `current_keys`; the first refused key ends it. */
  method VerferKeysLoop(lib: Keripy, keys: seq<string>) returns (r: Option<seq<string>>)
    ensures r == VerferKeys(lib, keys)
  {
    var verfers: seq<string> := [];
    var i := 0;
    while i < |keys|
      invariant 0 <= i <= |keys|
      invariant VerferKeys(lib, keys[..i]) == Some(verfers)
    {
      assert keys[..i + 1][..i] == keys[..i];
      var verfer := VerferOf(lib, keys[i]);
      if verfer.None? {
        VerferKeysStop(lib, keys, i);
        return None;
      }
      verfers := verfers + [verfer.value];
      i := i + 1;
    }
    assert keys[..|keys|] == keys;
    return Some(verfers);
  }

  /** A refused key refuses every list that contains it. */
  lemma {:induction false} VerferKeysStop(lib: Keripy, keys: seq<string>, i: nat)
    requires i < |keys|
    requires VerferOf(lib, keys[i]).None?
    ensures VerferKeys(lib, keys) == None
    decreases |keys|
  {
    if i < |keys| - 1 {
      var init := keys[..|keys| - 1];
      VerferKeysStop(lib, init, i);
    }
  }

  /** `generate_multisig_event` up to the keripy calls. */
  function Multisig(lib: Keripy, body: Option<MultisigBody>): (r: Result<MultisigPlan, Reply>)
    ensures r.Ok? ==>
      body.Some? && body.value.aids != [] && body.value.currentKeys != []
      && |r.value.keys| == |body.value.currentKeys|
      && (r.value.InceptPlan? <==> body.value.eventType == "inception")
    ensures body.Some? && body.value.aids != [] && body.value.currentKeys != [] ==>
      (r.Ok? <==> forall i :: 0 <= i < |body.value.currentKeys| ==> Acceptable(lib, body.value.currentKeys[i]))
    ensures r.Ok? ==> forall i :: 0 <= i < |r.value.keys| ==> Accepted(lib, body.value.currentKeys[i], r.value.keys[i])
  {
    if body.None? then Err(Failure(400, BodyRequired))
    else if body.value.aids == [] || body.value.currentKeys == [] then Err(Failure(400, AidsAndKeysRequired))
    else
      var keys := VerferKeys(lib, body.value.currentKeys);
      if keys.None? then Err(Failure(500, MultisigFailed))
      else if body.value.eventType == "inception" then
        Ok(InceptPlan(keys.value, Numerals.Decimal(body.value.threshold), Numerals.Decimal(body.value.threshold), []))
      else Ok(DigestPlan(body.value.eventType, body.value.aids, body.value.threshold, keys.value))
  }

  /**
   * Both lists must be non-empty; an inception uses the one threshold for
   * the current and the next keys and commits to no next keys; every plan
   * carries one verifier per current key.
   */
  lemma MultisigShape(lib: Keripy, body: MultisigBody)
    ensures Multisig(lib, Some(body)) == Err(Failure(400, AidsAndKeysRequired)) <==> body.aids == [] || body.currentKeys == []
    ensures body.aids != [] && body.currentKeys != [] ==>
      (Multisig(lib, Some(body)).Ok? <==> VerferKeys(lib, body.currentKeys).Some?)
    ensures Multisig(lib, Some(body)).Err? && body.aids != [] && body.currentKeys != [] ==>
      Multisig(lib, Some(body)).error == Failure(500, MultisigFailed)
    ensures Multisig(lib, Some(body)).Ok? ==> Some(Multisig(lib, Some(body)).value.keys) == VerferKeys(lib, body.currentKeys)
    ensures Multisig(lib, Some(body)).Ok? ==>
      var plan := Multisig(lib, Some(body)).value;
      |plan.keys| == |body.currentKeys|
      && (body.eventType == "inception" <==> plan.InceptPlan?)
      && (plan.InceptPlan? ==> plan.isith == plan.nsith == Numerals.Decimal(body.threshold) && plan.ndigs == [])
      && (plan.DigestPlan? ==> plan.aids == body.aids && plan.threshold == body.threshold)
  {
  }
}
