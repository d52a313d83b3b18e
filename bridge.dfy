/**
 * The Flutter bridge's identity registry: a process-wide map from a name to
 * a KERI instance (its identifier prefix, its key pair box and its key
 * event log), created by `incept_aid`, extended by `rotate_aid`, and read by
 * `sign_payload` and `get_current_kel`.
 *
 * keri_core is not modelled: the prefix of an inception event, its JSON
 * text and Ed25519 signing are the fields of `KeriCore`. `CryptoBox::new()`
 * draws generated keys at random; here the new box, or `None` when key
 * generation fails, is an argument of the operation that asks for it.
 */
module Bridge {
  import opened Common
  import Base64
  import Numerals

  /** A key pair box: the current and the next Ed25519 public key and the key that signs. */
  datatype CryptoBox = CryptoBox(publicKey: Bytes, nextPublicKey: Bytes, signingKey: Bytes)

  /**
   * What the bridge takes from keri_core: the prefix of the inception event
   * for a current key and a next key (committed to with Blake3-256), the
   * event's JSON text (`None` when serialisation fails), and signing
   * (`None` when it fails).
   */
  datatype KeriCore = KeriCore(
    prefix: (Bytes, Bytes) -> string,
    inceptionJson: (Bytes, Bytes) -> Option<string>,
    sign: (Bytes, Bytes) -> Option<Bytes>)

  /**
   * One KEL entry: the inception event's JSON text, or the rotation record
   * the bridge writes itself, numbered with the length of the KEL before it.
   */
  datatype KelEntry =
    | Inception(json: string)
    | Rotation(aid: string, newPublicKey: string, sn: nat)

  /**
   * The entry as the KEL stores it. A rotation record is a JSON object whose
   * keys serde_json writes in sorted order. Its texts are written without
   * escaping, which is exact only because they never need any: a KERI prefix
   * is a CESR code followed by base64url symbols, and the key is standard
   * base64, so neither holds a quote, a backslash or a control character.
   */
  function Render(e: KelEntry): string
  {
    match e
    case Inception(json) => json
    case Rotation(aid, key, sn) =>
      "{\"aid\":\"" + aid + "\",\"new_public_key\":\"" + key + "\",\"sn\":" + Numerals.Decimal(sn) + ",\"type\":\"rot\"}"
  }

  /** `KeriInstance`. */
  datatype Instance = Instance(prefix: string, box: CryptoBox, kel: seq<KelEntry>)

  datatype BridgeError = KeyGenerationFailed | SerializationFailed | NoAid(name: string) | SigningFailed

  datatype InceptionResult = InceptionResult(aid: string, publicKey: string, kel: string)

  datatype RotationResult = RotationResult(aid: string, newPublicKey: string, kel: string)

  datatype SignResult = SignResult(signature: string, publicKey: string)

  /** Rust's `base64::encode`: standard alphabet with padding. */
  function Encode(b: Bytes): string
  {
    Base64.EncodePadded(Base64.Std, b)
  }

  /** The instance `incept_aid` stores for a new box; `None` when the inception event does not serialise. */
  function Incepted(core: KeriCore, box: CryptoBox): (r: Option<Instance>)
    ensures r.Some? <==> core.inceptionJson(box.publicKey, box.nextPublicKey).Some?
    ensures r.Some? ==> r.value.box == box && |r.value.kel| == 1 && r.value.kel[0].Inception?
    ensures r.Some? ==> r.value.prefix == core.prefix(box.publicKey, box.nextPublicKey)
  {
    match core.inceptionJson(box.publicKey, box.nextPublicKey)
    case None => None
    case Some(json) => Some(Instance(core.prefix(box.publicKey, box.nextPublicKey), box, [Inception(json)]))
  }

  /** The rotation record pushed onto `inst`'s KEL for a new box. */
  function RotationEntry(inst: Instance, box: CryptoBox): KelEntry
  {
    Rotation(inst.prefix, Encode(box.publicKey), |inst.kel|)
  }

  /** The instance after `rotate_aid`: the new box and one more KEL entry; nothing else changes. */
  function Rotated(inst: Instance, box: CryptoBox): (r: Instance)
    ensures r.prefix == inst.prefix && r.box == box
    ensures |r.kel| == |inst.kel| + 1 && r.kel[..|inst.kel|] == inst.kel
    ensures r.kel[|inst.kel|].Rotation? && r.kel[|inst.kel|].sn == |inst.kel| && r.kel[|inst.kel|].aid == inst.prefix
  {
    var r := inst.(box := box, kel := inst.kel + [RotationEntry(inst, box)]);
    assert r.kel[..|inst.kel|] == inst.kel;
    r
  }

  /** The registry: `INSTANCES`, a map created empty on first use. */
  class KeriBridge {
    var instances: map<string, Instance>

    constructor ()
      ensures instances == map[]
    {
      instances := map[];
    }

    /**
     * `incept_aid`: insert, or overwrite, the entry for `name` with a KEL
     * holding only the inception event. The `code` argument is not used.
     */
    method InceptAid(core: KeriCore, name: string, code: string, generated: Option<CryptoBox>)
      returns (r: Result<InceptionResult, BridgeError>)
      modifies this
      ensures generated.None? ==> r == Err(KeyGenerationFailed) && instances == old(instances)
      ensures generated.Some? && Incepted(core, generated.value).None? ==>
        r == Err(SerializationFailed) && instances == old(instances)
      ensures generated.Some? && Incepted(core, generated.value).Some? ==>
        var inst := Incepted(core, generated.value).value;
        instances == old(instances)[name := inst]
        && r == Ok(InceptionResult(inst.prefix, Encode(generated.value.publicKey), Render(inst.kel[0])))
    {
      if generated.None? {
        return Err(KeyGenerationFailed);
      }
      var box := generated.value;
      var json := core.inceptionJson(box.publicKey, box.nextPublicKey);
      if json.None? {
        return Err(SerializationFailed);
      }
      var prefix := core.prefix(box.publicKey, box.nextPublicKey);
      var entry := Inception(json.value);
      instances := instances[name := Instance(prefix, box, [entry])];
      r := Ok(InceptionResult(prefix, Encode(box.publicKey), Render(entry)));
    }

    /**
     * `rotate_aid`: an unknown name is refused before any key is made; then
     * the record numbered with the KEL's old length is pushed and the box
     * replaced. The prefix is kept, and no rotation checks the new key
     * against the next key committed to at inception.
     */
    method RotateAid(name: string, generated: Option<CryptoBox>) returns (r: Result<RotationResult, BridgeError>)
      modifies this
      ensures name !in old(instances) ==> r == Err(NoAid(name)) && instances == old(instances)
      ensures name in old(instances) && generated.None? ==> r == Err(KeyGenerationFailed) && instances == old(instances)
      ensures name in old(instances) && generated.Some? ==>
        var inst := old(instances)[name];
        instances == old(instances)[name := Rotated(inst, generated.value)]
        && r == Ok(RotationResult(inst.prefix, Encode(generated.value.publicKey), Render(RotationEntry(inst, generated.value))))
    {
      if name !in instances {
        return Err(NoAid(name));
      }
      if generated.None? {
        return Err(KeyGenerationFailed);
      }
      var inst := instances[name];
      var box := generated.value;
      var entry := Rotation(inst.prefix, Encode(box.publicKey), |inst.kel|);
      instances := instances[name := inst.(box := box, kel := inst.kel + [entry])];
      r := Ok(RotationResult(inst.prefix, Encode(box.publicKey), Render(entry)));
    }

    /** `sign_payload`: sign with the named instance's box; the registry is only read. */
    method SignPayload(core: KeriCore, name: string, data: Bytes) returns (r: Result<SignResult, BridgeError>)
      ensures name !in instances ==> r == Err(NoAid(name))
      ensures name in instances ==>
        var box := instances[name].box;
        (core.sign(box.signingKey, data).None? ==> r == Err(SigningFailed))
        && (core.sign(box.signingKey, data).Some? ==>
              r == Ok(SignResult(Encode(core.sign(box.signingKey, data).value), Encode(box.publicKey))))
    {
      if name !in instances {
        return Err(NoAid(name));
      }
      var box := instances[name].box;
      var signature := core.sign(box.signingKey, data);
      if signature.None? {
        return Err(SigningFailed);
      }
      r := Ok(SignResult(Encode(signature.value), Encode(box.publicKey)));
    }

    /** `get_current_kel`: the named instance's KEL entries, oldest first; the registry is only read. */
    method GetCurrentKel(name: string) returns (r: Result<seq<string>, BridgeError>)
      ensures name !in instances ==> r == Err(NoAid(name))
      ensures name in instances ==> r.Ok? && |r.value| == |instances[name].kel|
      ensures name in instances ==> r.Ok? && forall i :: 0 <= i < |r.value| ==> r.value[i] == Render(instances[name].kel[i])
    {
      if name !in instances {
        return Err(NoAid(name));
      }
      var kel := instances[name].kel;
      var texts := [];
      var i := 0;
      while i < |kel|
        invariant 0 <= i <= |kel| && |texts| == i
        invariant forall j :: 0 <= j < i ==> texts[j] == Render(kel[j])
      {
        texts := texts + [Render(kel[i])];
        i := i + 1;
      }
      r := Ok(texts);
    }
  }

  /** `n` rotations in a row, with the boxes in the order they were made. */
  function RotatedAll(inst: Instance, boxes: seq<CryptoBox>): Instance
    decreases |boxes|
  {
    if boxes == [] then inst
    else Rotated(RotatedAll(inst, boxes[..|boxes| - 1]), boxes[|boxes| - 1])
  }

  /**
   * A run of rotations keeps the prefix and the entries so far, and appends
   * one record per box, each numbered with its own position in the KEL and
   * carrying that box's public key; the last box is the current one.
   */
  lemma {:induction false} RotatedAllShape(inst: Instance, boxes: seq<CryptoBox>)
    ensures var r := RotatedAll(inst, boxes);
      r.prefix == inst.prefix && |r.kel| == |inst.kel| + |boxes| && r.kel[..|inst.kel|] == inst.kel
      && (boxes != [] ==> r.box == boxes[|boxes| - 1])
    ensures var r := RotatedAll(inst, boxes);
      forall j :: 0 <= j < |boxes| ==>
        r.kel[|inst.kel| + j] == Rotation(inst.prefix, Encode(boxes[j].publicKey), |inst.kel| + j)
    decreases |boxes|
  {
    if boxes != [] {
      var init := boxes[..|boxes| - 1];
      RotatedAllShape(inst, init);
      var before := RotatedAll(inst, init);
      var r := Rotated(before, boxes[|boxes| - 1]);
      assert r.kel == before.kel + [RotationEntry(before, boxes[|boxes| - 1])];
      assert r.kel[..|inst.kel|] == before.kel[..|inst.kel|];
      forall j | 0 <= j < |boxes|
        ensures r.kel[|inst.kel| + j] == Rotation(inst.prefix, Encode(boxes[j].publicKey), |inst.kel| + j)
      {
        if j < |init| {
          assert r.kel[|inst.kel| + j] == before.kel[|inst.kel| + j];
          assert boxes[j] == init[j];
        } else {
          assert r.kel[|inst.kel| + j] == RotationEntry(before, boxes[j]);
        }
      }
    }
  }

  /**
   * After an inception and n rotations under one name, the KEL is the
   * inception event followed by rotations numbered 1 to n, all for the
   * prefix assigned at inception.
   */
  lemma InceptThenRotate(core: KeriCore, box: CryptoBox, boxes: seq<CryptoBox>)
    requires Incepted(core, box).Some?
    ensures var inst := Incepted(core, box).value;
      var r := RotatedAll(inst, boxes);
      |r.kel| == |boxes| + 1 && r.kel[0] == inst.kel[0] && r.prefix == inst.prefix
      && forall i :: 1 <= i <= |boxes| ==> r.kel[i].Rotation? && r.kel[i].sn == i && r.kel[i].aid == inst.prefix
  {
    var inst := Incepted(core, box).value;
    RotatedAllShape(inst, boxes);
    var r := RotatedAll(inst, boxes);
    assert r.kel[0] == r.kel[..1][0];
    forall i | 1 <= i <= |boxes|
      ensures r.kel[i].Rotation? && r.kel[i].sn == i && r.kel[i].aid == inst.prefix
    {
      assert r.kel[1 + (i - 1)] == Rotation(inst.prefix, Encode(boxes[i - 1].publicKey), 1 + (i - 1));
    }
  }

  /**
   * Rotation does not look at the box it replaces: the next key committed to
   * at inception plays no part, and any new box is accepted.
   */
  lemma RotationIgnoresCommitment(inst: Instance, previous: CryptoBox, box: CryptoBox)
    ensures Rotated(inst.(box := previous), box) == Rotated(inst, box)
  {
  }
}
