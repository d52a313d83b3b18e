/**
 * KERI inception events as the Go core builds them: the 13-member event, its
 * compact JSON text, and the two-pass size-locked self-addressing identifier
 * (SAID) that becomes both the event digest `d` and the identifier prefix `i`.
 *
 * SHA-256 and Ed25519 are not computed here: they are parameters of type
 * `Sha256` and `Ed25519`, uninterpreted functions of their inputs.
 */
module Keri {
  import opened Common
  import opened Json
  import Base64
  import Numerals
  import Text

  /** A SHA-256 digest: 32 bytes. */
  type Digest = b: Bytes | |b| == 32
    witness [0, 0, 0, 0, 0, 0, 0, 0, 0, 0, 0, 0, 0, 0, 0, 0, 0, 0, 0, 0, 0, 0, 0, 0, 0, 0, 0, 0, 0, 0, 0, 0]

  /** SHA-256 (FIPS 180-4) of a message. */
  type Sha256 = Bytes -> Digest

  /** The inception event, members in the order they are written: v, t, d, i, s, kt, k, nt, n, bt, b, c, a. */
  datatype Event = Event(
    version: string,
    ilk: string,
    said: string,
    prefix: string,
    sequenceNumber: string,
    signingThreshold: string,
    keys: seq<string>,
    nextThreshold: string,
    nextKeys: seq<string>,
    backerThreshold: string,
    backers: seq<string>,
    config: seq<string>,
    anchors: seq<string>)

  /** The members of the event, as Go's `json.Marshal` writes them: declaration order, JSON tags as names. */
  function Fields(e: Event): seq<Field>
  {
    HeadFields(e) + MiddleFields(e) + TailFields(e)
  }

  function HeadFields(e: Event): seq<Field>
  {
    [Field("v", Quote(e.version)), Field("t", Quote(e.ilk)), Field("d", Quote(e.said)), Field("i", Quote(e.prefix))]
  }

  function MiddleFields(e: Event): seq<Field>
  {
    [Field("s", Quote(e.sequenceNumber)), Field("kt", Quote(e.signingThreshold)),
     Field("k", StringList(e.keys)), Field("nt", Quote(e.nextThreshold))]
  }

  function TailFields(e: Event): seq<Field>
  {
    [Field("n", StringList(e.nextKeys)), Field("bt", Quote(e.backerThreshold)), Field("b", StringList(e.backers)),
     Field("c", StringList(e.config)), Field("a", StringList(e.anchors))]
  }

  /** Go's `json.Marshal` of the event struct: no whitespace. */
  function Serialize(e: Event): string
  {
    Object(Fields(e))
  }

  /** Every string of the event is plain, so no encoder escapes anything in it. */
  predicate PlainEvent(e: Event)
  {
    Plain(e.version) && Plain(e.ilk) && Plain(e.said) && Plain(e.prefix) && Plain(e.sequenceNumber)
    && Plain(e.signingThreshold) && AllPlain(e.keys) && Plain(e.nextThreshold) && AllPlain(e.nextKeys)
    && Plain(e.backerThreshold) && AllPlain(e.backers) && AllPlain(e.config) && AllPlain(e.anchors)
  }

  /** The length of the serialized event in bytes (Go's `len(data)`). */
  function ByteSize(e: Event): nat
  {
    |Utf8(Serialize(e))|
  }

  /** The 44-character stand-in for `d` and `i` while the digest is computed. */
  const Placeholder: string := "#" + Text.Repeat('a', 43)

  /** The version string an event starts with, before its size is known. */
  const InitialVersion: string := VersionString(0)

  /** The version string declaring `size` bytes (Go's `fmt.Sprintf("KERI10JSON%06x_", size)`). */
  function VersionString(size: nat): string
  {
    VersionPrefix + Numerals.Hex06(size) + "_"
  }

  /** Protocol KERI, version 1.0, serialization JSON. */
  const VersionPrefix: string := "KERI10JSON"

  /** The size a version string declares, if it has the 17-character form. */
  function DeclaredSize(v: string): Option<nat>
  {
    if |v| == 17 && v[..10] == VersionPrefix && v[16] == '_' then Numerals.HexValue(v[10..16]) else None
  }

  /** The version string says the size it was made from, whenever that fits in six hex digits. */
  lemma DeclaredVersionSize(size: nat)
    ensures size < 0x100_0000 ==> |VersionString(size)| == 17 && DeclaredSize(VersionString(size)) == Some(size)
    ensures size >= 0x100_0000 ==> DeclaredSize(VersionString(size)) == None
  {
    Numerals.Hex06Exact(size);
    if size < 0x100_0000 {
      VersionFields(Numerals.Hex06(size));
    }
  }

  lemma VersionFields(x: string)
    requires |x| == 6
    ensures var v := VersionPrefix + x + "_";
      |v| == 17 && v[..10] == VersionPrefix && v[10..16] == x && v[16] == '_'
  {
    Text.ConcatSlices(VersionPrefix + x, "_");
    Text.ConcatSlices(VersionPrefix, x);
  }

  /** The initial version string is "KERI10JSON000000_". */
  lemma InitialVersionText()
    ensures InitialVersion == "KERI10JSON000000_"
  {
    assert Numerals.LowerHex(0) == "0";
    assert Numerals.Hex06(0) == "000000";
  }

  /** Pass one of the SAID computation: `d` and `i` hold the placeholder. */
  function Blanked(e: Event): Event
  {
    Stamped(e, Placeholder)
  }

  /** Pass two: the blanked event with its own pass-one size written into `v`. */
  function Sized(e: Event): Event
  {
    Versioned(Blanked(e), VersionString(ByteSize(Blanked(e))))
  }

  /** The event with its SAID in both `d` and `i`. */
  function Stamped(e: Event, digest: string): Event
  {
    Event(e.version, e.ilk, digest, digest, e.sequenceNumber, e.signingThreshold, e.keys,
          e.nextThreshold, e.nextKeys, e.backerThreshold, e.backers, e.config, e.anchors)
  }

  /** The event with `v` replaced. */
  function Versioned(e: Event, version: string): Event
  {
    Event(version, e.ilk, e.said, e.prefix, e.sequenceNumber, e.signingThreshold, e.keys,
          e.nextThreshold, e.nextKeys, e.backerThreshold, e.backers, e.config, e.anchors)
  }

  /** A digest written as a CESR text primitive: code 'E' and unpadded base64url (44 characters). */
  function DigestText(d: Digest): (r: string)
    ensures |r| == 44 && r[0] == 'E'
  {
    "E" + Base64.Encode(Base64.Url, d)
  }

  /** The digest text decodes back to the digest. */
  lemma DigestTextDecodes(d: Digest)
    ensures Base64.DecodeRaw(Base64.Url, DigestText(d)[1..]) == Some(d)
  {
    Base64.DecodeEncode(Base64.Url, d);
    assert DigestText(d)[1..] == Base64.Encode(Base64.Url, d);
  }

  /** The SAID computed by `computeSAID`: the digest of the pass-two bytes. */
  function Said(h: Sha256, e: Event): string
  {
    DigestText(h(Utf8(Serialize(Sized(e)))))
  }

  /** An Ed25519 public key as a CESR text primitive: code 'B' and unpadded base64url. */
  function EncodePublicKey(pub: Bytes): (r: string)
    ensures |r| == 1 + (4 * |pub| + 2) / 3 && r[0] == 'B'
  {
    "B" + Base64.Encode(Base64.Url, pub)
  }

  /** The key text decodes back to the key. */
  lemma EncodePublicKeyDecodes(pub: Bytes)
    ensures Base64.DecodeRaw(Base64.Url, EncodePublicKey(pub)[1..]) == Some(pub)
  {
    Base64.DecodeEncode(Base64.Url, pub);
    assert EncodePublicKey(pub)[1..] == Base64.Encode(Base64.Url, pub);
  }

  /** The commitment to the next key: its SHA-256 digest as a CESR text primitive. */
  function DigestKey(h: Sha256, pub: Bytes): (r: string)
    ensures |r| == 44 && r[0] == 'E'
  {
    DigestText(h(pub))
  }

  /** A 32-byte key is written in 44 characters, as wide as the placeholder. */
  lemma PublicKeyWidth(pub: Bytes)
    requires |pub| == 32
    ensures |EncodePublicKey(pub)| == 44 == |Placeholder|
  {
  }

  /** The event `CreateInceptionEvent` starts from. */
  function InitialEvent(signingKey: string, nextKeyDigest: string): Event
  {
    Event(InitialVersion, "icp", "", "", "0", "1", [signingKey], "1", [nextKeyDigest], "0", [], [], [])
  }

  datatype InceptionResult = InceptionResult(
    aid: string,
    event: Event,
    eventJson: string,
    publicKey: string,
    nextPublicKey: string)

  /** What `CreateInceptionEvent` returns for the two keys. */
  function Inception(h: Sha256, signingPub: Bytes, nextPub: Bytes): (r: InceptionResult)
    ensures r.publicKey == EncodePublicKey(signingPub) && r.nextPublicKey == DigestKey(h, nextPub)
    ensures r.aid == r.event.said == r.event.prefix
    ensures r.eventJson == Serialize(r.event)
  {
    InceptionOf(h, EncodePublicKey(signingPub), DigestKey(h, nextPub))
  }

  /** The result for a signing key text `k` and next-key digest text `n`. */
  function InceptionOf(h: Sha256, k: string, n: string): InceptionResult
  {
    InceptionResult(
      Said(h, InitialEvent(k, n)),
      Stamped(Sized(InitialEvent(k, n)), Said(h, InitialEvent(k, n))),
      Serialize(Stamped(Sized(InitialEvent(k, n)), Said(h, InitialEvent(k, n)))),
      k, n)
  }

  /** A reader recomputes the SAID: blank `d` and `i` again, serialize, hash. */
  predicate SaidVerifies(h: Sha256, e: Event)
  {
    e.said == e.prefix && e.said == DigestText(h(Utf8(Serialize(Blanked(e)))))
  }

  /** The size declared in `v` is the byte length of the event. */
  predicate SizeVerifies(e: Event)
  {
    DeclaredSize(e.version) == Some(ByteSize(e))
  }

  // ----- the mutable event of the Go code -----

  /** The Go `InceptionEvent` struct, which `computeSAID` updates through a pointer. */
  class InceptionEvent {
    var version: string
    var ilk: string
    var said: string
    var prefix: string
    var sequenceNumber: string
    var signingThreshold: string
    var keys: seq<string>
    var nextThreshold: string
    var nextKeys: seq<string>
    var backerThreshold: string
    var backers: seq<string>
    var config: seq<string>
    var anchors: seq<string>

    function Value(): Event
      reads this
    {
      Event(version, ilk, said, prefix, sequenceNumber, signingThreshold, keys,
            nextThreshold, nextKeys, backerThreshold, backers, config, anchors)
    }

    constructor (e: Event)
      ensures Value() == e
    {
      version := e.version;
      ilk := e.ilk;
      said := e.said;
      prefix := e.prefix;
      sequenceNumber := e.sequenceNumber;
      signingThreshold := e.signingThreshold;
      keys := e.keys;
      nextThreshold := e.nextThreshold;
      nextKeys := e.nextKeys;
      backerThreshold := e.backerThreshold;
      backers := e.backers;
      config := e.config;
      anchors := e.anchors;
    }

    /**
     * `computeSAID`: leaves the event in its pass-two form (placeholders in
     * `d` and `i`, pass-one size in `v`) and returns the digest of that form.
     */
    method ComputeSaid(h: Sha256) returns (digest: string)
      modifies this
      ensures Value() == Sized(old(Value()))
      ensures digest == Said(h, old(Value()))
    {
      ghost var e := old(Value());
      said := Placeholder;
      prefix := Placeholder;
      assert Value() == Blanked(e);
      var data := Utf8(Serialize(Value()));
      var size := |data|;
      version := VersionString(size);
      assert Value() == Sized(e);
      data := Utf8(Serialize(Value()));
      digest := DigestText(h(data));
    }
  }

  /** `CreateInceptionEvent`: builds the event, fixes its SAID, and reports it with its JSON text. */
  method CreateInceptionEvent(h: Sha256, signingPub: Bytes, nextPub: Bytes) returns (r: InceptionResult)
    ensures r == Inception(h, signingPub, nextPub)
  {
    var signingKeyStr := EncodePublicKey(signingPub);
    var nextKeyDigest := DigestKey(h, nextPub);
    var event := new InceptionEvent(InitialEvent(signingKeyStr, nextKeyDigest));
    var said := event.ComputeSaid(h);
    event.said := said;
    event.prefix := said;
    var eventJson := Serialize(event.Value());
    r := InceptionResult(said, event.Value(), eventJson, signingKeyStr, nextKeyDigest);
  }

  // ----- properties of the inception event -----

  /** The fixed members of every inception event, and AID = d = i. */
  lemma InceptionShape(h: Sha256, signingPub: Bytes, nextPub: Bytes)
    ensures var r := Inception(h, signingPub, nextPub);
      && r.event.ilk == "icp" && r.event.sequenceNumber == "0"
      && r.event.signingThreshold == "1" && r.event.nextThreshold == "1" && r.event.backerThreshold == "0"
      && r.event.keys == [r.publicKey] && r.event.nextKeys == [r.nextPublicKey]
      && r.event.backers == [] && r.event.config == [] && r.event.anchors == []
      && r.aid == r.event.said == r.event.prefix
      && |r.aid| == 44 && r.aid[0] == 'E'
      && r.publicKey == EncodePublicKey(signingPub) && r.nextPublicKey == DigestKey(h, nextPub)
      && r.eventJson == Serialize(r.event)
  {
  }

  lemma EncodedPlain(a: Base64.Alphabet, b: Bytes)
    requires a == Base64.Url
    ensures Plain(Base64.Encode(a, b))
  {
    var s := Base64.Encode(a, b);
    forall c | c in s
      ensures PlainChar(c)
    {
      assert Base64.InAlphabet(a, c);
    }
  }

  lemma PlainConcat(a: string, b: string)
    requires Plain(a) && Plain(b)
    ensures Plain(a + b)
  {
  }

  lemma HexPlain(x: string)
    requires forall i :: 0 <= i < |x| ==> Numerals.HexDigitValue(x[i]).Some?
    ensures Plain(x)
  {
    forall c | c in x
      ensures PlainChar(c)
    {
      var i :| 0 <= i < |x| && x[i] == c;
      assert Numerals.HexDigitValue(x[i]).Some?;
    }
  }

  lemma VersionPlain(size: nat)
    ensures Plain(VersionString(size))
  {
    Numerals.Hex06Digits(size);
    HexPlain(Numerals.Hex06(size));
    PlainConcat(VersionPrefix, Numerals.Hex06(size));
    PlainConcat(VersionPrefix + Numerals.Hex06(size), "_");
  }

  /**
   * Every string an inception event holds is plain: base64url symbols, hex
   * digits, letters, '#' and '_'. So Go writes the event exactly as
   * `Serialize` does, and its byte length is its character count.
   */
  lemma InceptionPlain(h: Sha256, signingPub: Bytes, nextPub: Bytes)
    ensures PlainEvent(Inception(h, signingPub, nextPub).event)
    ensures PlainEvent(Blanked(InitialEvent(EncodePublicKey(signingPub), DigestKey(h, nextPub))))
  {
    var k := EncodePublicKey(signingPub);
    var n := DigestKey(h, nextPub);
    var e0 := InitialEvent(k, n);
    KeyTextPlain(signingPub);
    DigestTextPlain(h(nextPub));
    InitialPlain(k, n);
    PlaceholderPlain();
    var b := Blanked(e0);
    VersionPlain(ByteSize(b));
    var sized := Versioned(b, VersionString(ByteSize(b)));
    DigestTextPlain(h(Utf8(Serialize(sized))));
  }

  lemma PlaceholderPlain()
    ensures Plain(Placeholder)
  {
    var a := Text.Repeat('a', 43);
    forall c | c in a
      ensures PlainChar(c)
    {
    }
    PlainConcat("#", a);
  }

  lemma KeyTextPlain(pub: Bytes)
    ensures Plain(EncodePublicKey(pub))
  {
    EncodedPlain(Base64.Url, pub);
    PlainConcat("B", Base64.Encode(Base64.Url, pub));
  }

  lemma DigestTextPlain(d: Digest)
    ensures Plain(DigestText(d))
  {
    EncodedPlain(Base64.Url, d);
    PlainConcat("E", Base64.Encode(Base64.Url, d));
  }

  lemma InitialPlain(k: string, n: string)
    requires Plain(k) && Plain(n)
    ensures PlainEvent(InitialEvent(k, n))
  {
    VersionPlain(0);
  }

  lemma PlainFields(e: Event)
    requires PlainEvent(e)
    ensures AsciiFields(Fields(e))
  {
    var fs := Fields(e);
    forall i | 0 <= i < |fs|
      ensures IsAscii(fs[i].name) && IsAscii(fs[i].value)
    {
      if i == 0 { PlainAscii(e.version); QuoteAscii(e.version); }
      else if i == 1 { PlainAscii(e.ilk); QuoteAscii(e.ilk); }
      else if i == 2 { PlainAscii(e.said); QuoteAscii(e.said); }
      else if i == 3 { PlainAscii(e.prefix); QuoteAscii(e.prefix); }
      else if i == 4 { PlainAscii(e.sequenceNumber); QuoteAscii(e.sequenceNumber); }
      else if i == 5 { PlainAscii(e.signingThreshold); QuoteAscii(e.signingThreshold); }
      else if i == 6 { StringListAscii(e.keys); }
      else if i == 7 { PlainAscii(e.nextThreshold); QuoteAscii(e.nextThreshold); }
      else if i == 8 { StringListAscii(e.nextKeys); }
      else if i == 9 { PlainAscii(e.backerThreshold); QuoteAscii(e.backerThreshold); }
      else if i == 10 { StringListAscii(e.backers); }
      else if i == 11 { StringListAscii(e.config); }
      else { StringListAscii(e.anchors); }
    }
  }

  /** A plain event is written in ASCII, so its byte size is its character count. */
  lemma SerializeAscii(e: Event)
    requires PlainEvent(e)
    ensures IsAscii(Serialize(e))
    ensures ByteSize(e) == |Serialize(e)|
  {
    PlainFields(e);
    ObjectAscii(Fields(e));
    Utf8Ascii(Serialize(e));
  }

  /** The text length depends only on the lengths of the single-string members. */
  lemma SerializeLength(e1: Event, e2: Event)
    requires |e1.version| == |e2.version| && |e1.ilk| == |e2.ilk|
    requires |e1.said| == |e2.said| && |e1.prefix| == |e2.prefix|
    requires |e1.sequenceNumber| == |e2.sequenceNumber| && |e1.signingThreshold| == |e2.signingThreshold|
    requires |e1.nextThreshold| == |e2.nextThreshold| && |e1.backerThreshold| == |e2.backerThreshold|
    requires e1.keys == e2.keys && e1.nextKeys == e2.nextKeys
    requires e1.backers == e2.backers && e1.config == e2.config && e1.anchors == e2.anchors
    ensures |Serialize(e1)| == |Serialize(e2)|
  {
    ObjectLength(Fields(e1), Fields(e2));
  }

  /**
   * The size lock. Whenever the pass-one text is shorter than 2^24 bytes,
   * `v` keeps its 17 characters in pass two and the SAID is as wide as the
   * placeholder, so the finished event is exactly as long as `v` declares.
   */
  lemma {:induction false} InceptionSizeLock(h: Sha256, signingPub: Bytes, nextPub: Bytes)
    requires ByteSize(Blanked(InitialEvent(EncodePublicKey(signingPub), DigestKey(h, nextPub)))) < 0x100_0000
    ensures SizeVerifies(Inception(h, signingPub, nextPub).event)
    ensures |Utf8(Inception(h, signingPub, nextPub).eventJson)| == ByteSize(Blanked(InitialEvent(EncodePublicKey(signingPub), DigestKey(h, nextPub))))
  {
    var e0 := InitialEvent(EncodePublicKey(signingPub), DigestKey(h, nextPub));
    var b := Blanked(e0);
    var size := ByteSize(b);
    var r := Inception(h, signingPub, nextPub);
    InceptionPlain(h, signingPub, nextPub);
    SerializeAscii(b);
    SerializeAscii(r.event);
    DeclaredVersionSize(size);
    SerializeLength(r.event, b);
  }

  /** Beyond 2^24 bytes the version string outgrows its 17 characters and declares nothing. */
  lemma InceptionOversize(h: Sha256, signingPub: Bytes, nextPub: Bytes)
    requires ByteSize(Blanked(InitialEvent(EncodePublicKey(signingPub), DigestKey(h, nextPub)))) >= 0x100_0000
    ensures !SizeVerifies(Inception(h, signingPub, nextPub).event)
  {
    var e0 := InitialEvent(EncodePublicKey(signingPub), DigestKey(h, nextPub));
    DeclaredVersionSize(ByteSize(Blanked(e0)));
  }

  lemma HeadWidth(e: Event)
    ensures Width(HeadFields(e)) == 24 + |e.version| + |e.ilk| + |e.said| + |e.prefix|
  {
    var fs := HeadFields(e);
    WidthCons(fs[3], []);
    WidthCons(fs[2], [fs[3]]);
    WidthCons(fs[1], [fs[2], fs[3]]);
    WidthCons(fs[0], [fs[1], fs[2], fs[3]]);
    assert fs == [fs[0]] + [fs[1], fs[2], fs[3]];
  }

  lemma MiddleWidth(e: Event)
    ensures Width(MiddleFields(e)) == 24 + |e.sequenceNumber| + |e.signingThreshold| + |e.nextThreshold| + |StringList(e.keys)|
  {
    var fs := MiddleFields(e);
    WidthCons(fs[3], []);
    WidthCons(fs[2], [fs[3]]);
    WidthCons(fs[1], [fs[2], fs[3]]);
    WidthCons(fs[0], [fs[1], fs[2], fs[3]]);
    assert fs == [fs[0]] + [fs[1], fs[2], fs[3]];
  }

  lemma TailWidth(e: Event)
    ensures Width(TailFields(e)) == 23 + |e.backerThreshold|
      + |StringList(e.nextKeys)| + |StringList(e.backers)| + |StringList(e.config)| + |StringList(e.anchors)|
  {
    var fs := TailFields(e);
    WidthCons(fs[4], []);
    WidthCons(fs[3], [fs[4]]);
    WidthCons(fs[2], [fs[3], fs[4]]);
    WidthCons(fs[1], [fs[2], fs[3], fs[4]]);
    WidthCons(fs[0], [fs[1], fs[2], fs[3], fs[4]]);
    assert fs == [fs[0]] + [fs[1], fs[2], fs[3], fs[4]];
  }

  lemma FieldsWidth(e: Event)
    ensures Width(Fields(e)) == Width(HeadFields(e)) + Width(MiddleFields(e)) + Width(TailFields(e))
    ensures |Fields(e)| == 13
  {
    WidthAppend(HeadFields(e), MiddleFields(e));
    WidthAppend(HeadFields(e) + MiddleFields(e), TailFields(e));
  }

  /** The pass-one text has 255 characters besides the signing key's text. */
  lemma BlankedLength(k: string, n: string)
    requires |n| == 44
    ensures |Serialize(Blanked(InitialEvent(k, n)))| == 255 + |k|
  {
    var b := Blanked(InitialEvent(k, n));
    StringListLength([k]);
    StringListLength([n]);
    StringListLength([]);
    HeadWidth(b);
    MiddleWidth(b);
    TailWidth(b);
    FieldsWidth(b);
    ObjectWidth(Fields(b));
  }

  /** The pass-one event is 255 bytes plus the signing key's text. */
  lemma PassOneSize(h: Sha256, signingPub: Bytes, nextPub: Bytes)
    ensures ByteSize(Blanked(InitialEvent(EncodePublicKey(signingPub), DigestKey(h, nextPub))))
         == 255 + |EncodePublicKey(signingPub)|
  {
    var e0 := InitialEvent(EncodePublicKey(signingPub), DigestKey(h, nextPub));
    InceptionPlain(h, signingPub, nextPub);
    SerializeAscii(Blanked(e0));
    BlankedLength(EncodePublicKey(signingPub), DigestKey(h, nextPub));
  }

  /** For an Ed25519 key (32 bytes) the event is 299 bytes, declared as "KERI10JSON00012b_". */
  lemma InceptionOf32ByteKey(h: Sha256, signingPub: Bytes, nextPub: Bytes)
    requires |signingPub| == 32
    ensures Inception(h, signingPub, nextPub).event.version == "KERI10JSON00012b_"
    ensures |Utf8(Inception(h, signingPub, nextPub).eventJson)| == 299
    ensures SizeVerifies(Inception(h, signingPub, nextPub).event)
  {
    PassOneSize(h, signingPub, nextPub);
    InceptionSizeLock(h, signingPub, nextPub);
    Version299();
  }

  lemma Version299()
    ensures VersionString(299) == "KERI10JSON00012b_"
  {
    assert Numerals.LowerHex(299) == "12b" by {
      assert Numerals.LowerHex(1) == "1";
      assert Numerals.LowerHex(18) == "12";
    }
    assert Numerals.Hex06(299) == "00012b";
  }

  /** The finished event carries a SAID that its reader can recompute. */
  lemma InceptionSaidVerifies(h: Sha256, signingPub: Bytes, nextPub: Bytes)
    ensures SaidVerifies(h, Inception(h, signingPub, nextPub).event)
  {
    var e0 := InitialEvent(EncodePublicKey(signingPub), DigestKey(h, nextPub));
    var r := Inception(h, signingPub, nextPub);
    assert Blanked(r.event) == Sized(e0);
  }

  // ----- keys and signatures -----

  /** Ed25519 (RFC 8032): public key of a 32-byte seed, signing with a 64-byte private key, verification. */
  datatype Ed25519 = Ed25519(
    publicOf: Bytes -> Bytes,
    sign: (Bytes, Bytes) -> Bytes,
    verify: (Bytes, Bytes, Bytes) -> bool)

  datatype KeyPair = KeyPair(publicKey: Bytes, privateKey: Bytes)

  /** The 32-byte seed `KeyPairFromSeed` uses: a prefix of a long seed, the hash of a short one. */
  function SeedOf(h: Sha256, seed: Bytes): (s: Bytes)
    ensures |s| == 32
  {
    if |seed| < 32 then h(seed) else seed[..32]
  }

  /** `KeyPairFromSeed`: Go's private key is the seed followed by the public key. */
  function KeyPairFromSeed(ed: Ed25519, h: Sha256, seed: Bytes): (kp: KeyPair)
    ensures |kp.privateKey| == 32 + |kp.publicKey|
    ensures kp.privateKey[..32] == SeedOf(h, seed) && kp.privateKey[32..] == kp.publicKey
  {
    KeyPair(ed.publicOf(SeedOf(h, seed)), SeedOf(h, seed) + ed.publicOf(SeedOf(h, seed)))
  }

  /** Only the first 32 bytes of a long seed matter. */
  lemma LongSeedPrefix(ed: Ed25519, h: Sha256, seed1: Bytes, seed2: Bytes)
    requires |seed1| >= 32 && |seed2| >= 32 && seed1[..32] == seed2[..32]
    ensures KeyPairFromSeed(ed, h, seed1) == KeyPairFromSeed(ed, h, seed2)
  {
  }

  /** A short seed gives the key pair of its own SHA-256 digest. */
  lemma ShortSeedHashed(ed: Ed25519, h: Sha256, seed: Bytes)
    requires |seed| < 32
    ensures KeyPairFromSeed(ed, h, seed) == KeyPairFromSeed(ed, h, h(seed))
    ensures KeyPairFromSeed(ed, h, seed).privateKey[..32] == h(seed)
  {
    var d := h(seed);
    assert d[..32] == d;
  }

  function SignEvent(ed: Ed25519, priv: Bytes, eventJson: Bytes): Bytes
  {
    ed.sign(priv, eventJson)
  }

  function VerifySignature(ed: Ed25519, pub: Bytes, eventJson: Bytes, signature: Bytes): bool
  {
    ed.verify(pub, eventJson, signature)
  }

  /** Correctness of Ed25519 itself, which the model cannot prove: a signature made with a seed's key verifies. */
  ghost predicate Sound(ed: Ed25519)
  {
    forall s: Bytes, m: Bytes ::
      |s| == 32 ==> ed.verify(ed.publicOf(s), m, ed.sign(s + ed.publicOf(s), m))
  }

  /** With a sound Ed25519, what `SignEvent` signs with a seeded key pair `VerifySignature` accepts. */
  lemma SignThenVerify(ed: Ed25519, h: Sha256, seed: Bytes, msg: Bytes)
    requires Sound(ed)
    ensures VerifySignature(ed, KeyPairFromSeed(ed, h, seed).publicKey, msg, SignEvent(ed, KeyPairFromSeed(ed, h, seed).privateKey, msg))
  {
    var s := SeedOf(h, seed);
    assert ed.verify(ed.publicOf(s), msg, ed.sign(s + ed.publicOf(s), msg));
  }
}
