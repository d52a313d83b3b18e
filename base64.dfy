/**
 * Base 64 encoding as defined in RFC 4648: the "base64" alphabet of section 4
 * and the "base64url" alphabet of section 5, with and without '=' padding.
 *
 * Encoding splits the input into 6-bit groups (sextets) and writes one symbol
 * per sextet; decoding reads symbols back into sextets and packs them into
 * bytes. Decoding is lenient in the way Go's and Python's decoders are by
 * default: the unused low bits of a final partial group are ignored.
 */
module Base64 {
  import opened Common

  /** The symbols for the sextets 62 and 63; 0..61 are A-Z, a-z, 0-9 in every alphabet. */
  datatype Alphabet = Alphabet(c62: char, c63: char)

  /** The "base64url" alphabet (RFC 4648 section 5). */
  const Url := Alphabet('-', '_')

  /** The "base64" alphabet (RFC 4648 section 4). */
  const Std := Alphabet('+', '/')

  const PadChar: char := '='

  predicate IsAlphaNum(c: char)
  {
    'A' <= c <= 'Z' || 'a' <= c <= 'z' || '0' <= c <= '9'
  }

  /** The two extra symbols are distinct and clash neither with letters, digits nor padding. */
  predicate ValidAlphabet(a: Alphabet)
  {
    a.c62 != a.c63 && !IsAlphaNum(a.c62) && !IsAlphaNum(a.c63) && a.c62 != PadChar && a.c63 != PadChar
  }

  function Symbol(a: Alphabet, v: nat): char
    requires v < 64
  {
    if v < 26 then ('A' as int + v) as char
    else if v < 52 then ('a' as int + (v - 26)) as char
    else if v < 62 then ('0' as int + (v - 52)) as char
    else if v == 62 then a.c62
    else a.c63
  }

  /** The sextet a symbol stands for, or None for a character outside the alphabet. */
  function SymbolValue(a: Alphabet, c: char): (r: Option<nat>)
    ensures r.Some? ==> r.value < 64
  {
    if 'A' <= c <= 'Z' then Some(c as int - 'A' as int)
    else if 'a' <= c <= 'z' then Some(c as int - 'a' as int + 26)
    else if '0' <= c <= '9' then Some(c as int - '0' as int + 52)
    else if c == a.c62 then Some(62)
    else if c == a.c63 then Some(63)
    else None
  }

  predicate InAlphabet(a: Alphabet, c: char)
  {
    SymbolValue(a, c).Some?
  }

  lemma SymbolRoundTrip(a: Alphabet, v: nat)
    requires ValidAlphabet(a) && v < 64
    ensures SymbolValue(a, Symbol(a, v)) == Some(v)
  {
  }

  predicate AllSextets(vs: seq<nat>)
  {
    forall i :: 0 <= i < |vs| ==> vs[i] < 64
  }

  /** The sextets of `b`, three bytes giving four sextets; a final partial group is zero-filled. */
  function Unpack(b: Bytes): (vs: seq<nat>)
    ensures |vs| == (4 * |b| + 2) / 3
    ensures AllSextets(vs)
    decreases |b|
  {
    if |b| == 0 then []
    else if |b| == 1 then [b[0] / 4, (b[0] % 4) * 16]
    else if |b| == 2 then [b[0] / 4, (b[0] % 4) * 16 + b[1] / 16, (b[1] % 16) * 4]
    else [b[0] / 4, (b[0] % 4) * 16 + b[1] / 16, (b[1] % 16) * 4 + b[2] / 64, b[2] % 64] + Unpack(b[3..])
  }

  /**
   * The bytes packed from a run of sextets. A run whose length leaves one
   * sextet over is not an encoding of anything; the low bits of a final
   * partial group are discarded.
   */
  function Pack(vs: seq<nat>): (r: Option<Bytes>)
    requires AllSextets(vs)
    ensures r.Some? <==> |vs| % 4 != 1
    ensures r.Some? ==> |r.value| == |vs| * 3 / 4
    decreases |vs|
  {
    if |vs| == 0 then Some([])
    else if |vs| == 1 then None
    else if |vs| == 2 then Some([vs[0] * 4 + vs[1] / 16])
    else if |vs| == 3 then Some([vs[0] * 4 + vs[1] / 16, (vs[1] % 16) * 16 + vs[2] / 4])
    else
      match Pack(vs[4..])
      case None => None
      case Some(rest) =>
        Some([vs[0] * 4 + vs[1] / 16, (vs[1] % 16) * 16 + vs[2] / 4, (vs[2] % 4) * 64 + vs[3]] + rest)
  }

  /** Unpadded encoding (Go's `RawURLEncoding`/`RawStdEncoding`). */
  function Encode(a: Alphabet, b: Bytes): (r: string)
    ensures |r| == (4 * |b| + 2) / 3
    ensures forall c | c in r :: InAlphabet(a, c)
  {
    var vs := Unpack(b);
    seq(|vs|, i requires 0 <= i < |vs| => Symbol(a, vs[i]))
  }

  /** The sextets of the symbols of `s`, or None when one of them is not in the alphabet. */
  function Sextets(a: Alphabet, s: string): (r: Option<seq<nat>>)
    ensures r.Some? <==> forall c | c in s :: InAlphabet(a, c)
    ensures r.Some? ==> |r.value| == |s| && AllSextets(r.value)
    ensures r.Some? ==> forall i :: 0 <= i < |s| ==> SymbolValue(a, s[i]) == Some(r.value[i])
    decreases |s|
  {
    if s == [] then Some([])
    else
      assert s == [s[0]] + s[1..];
      var rest := Sextets(a, s[1..]);
      if InAlphabet(a, s[0]) && rest.Some? then
        Some([SymbolValue(a, s[0]).value] + rest.value)
      else
        assert !InAlphabet(a, s[0]) || exists c | c in s[1..] :: !InAlphabet(a, c);
        None
  }

  /** Unpadded decoding: fails on a symbol outside the alphabet (padding included) or a dangling sextet. */
  function DecodeRaw(a: Alphabet, s: string): (r: Option<Bytes>)
    ensures r.Some? <==> (forall c | c in s :: InAlphabet(a, c)) && |s| % 4 != 1
    ensures r.Some? ==> |r.value| == |s| * 3 / 4
  {
    match Sextets(a, s)
    case None => None
    case Some(vs) => Pack(vs)
  }

  /** Number of '=' that complete the last four-symbol group of an encoding of `n` bytes. */
  function PadCount(n: nat): nat
  {
    (3 - n % 3) % 3
  }

  /** Padded encoding (Go's `StdEncoding`, Rust's `base64::encode`). */
  function EncodePadded(a: Alphabet, b: Bytes): string
  {
    Encode(a, b) + seq(PadCount(|b|), _ => PadChar)
  }

  /**
   * Padded decoding (Go's `StdEncoding.DecodeString`): the length must be a
   * multiple of four and at most two '=' may close the last group.
   */
  function DecodePadded(a: Alphabet, s: string): Option<Bytes>
  {
    if |s| % 4 != 0 then None
    else if |s| >= 2 && s[|s| - 2..] == [PadChar, PadChar] then DecodeRaw(a, s[..|s| - 2])
    else if |s| >= 1 && s[|s| - 1] == PadChar then DecodeRaw(a, s[..|s| - 1])
    else DecodeRaw(a, s)
  }

  lemma {:induction false} PackUnpack(b: Bytes)
    ensures Pack(Unpack(b)) == Some(b)
    decreases |b|
  {
    var vs := Unpack(b);
    if |b| >= 3 {
      assert vs[4..] == Unpack(b[3..]);
      PackUnpack(b[3..]);
      assert vs[1] / 16 == b[0] % 4 && vs[1] % 16 == b[1] / 16;
      assert vs[2] / 4 == b[1] % 16 && vs[2] % 4 == b[2] / 64;
      assert Pack(vs) == Some([b[0], b[1], b[2]] + b[3..]);
      assert b == [b[0], b[1], b[2]] + b[3..];
    } else if |b| == 2 {
      assert vs[1] / 16 == b[0] % 4 && vs[1] % 16 == b[1] / 16;
      assert vs[2] / 4 == b[1] % 16;
      assert b == [b[0], b[1]];
    } else if |b| == 1 {
      assert vs[1] / 16 == b[0] % 4;
      assert b == [b[0]];
    }
  }

  lemma SextetsOfEncoding(a: Alphabet, b: Bytes)
    requires ValidAlphabet(a)
    ensures Sextets(a, Encode(a, b)) == Some(Unpack(b))
  {
    var vs := Unpack(b);
    var s := Encode(a, b);
    forall i | 0 <= i < |s|
      ensures SymbolValue(a, s[i]) == Some(vs[i])
    {
      SymbolRoundTrip(a, vs[i]);
    }
    var r := Sextets(a, s);
    assert r.Some?;
    assert forall i | 0 <= i < |vs| :: r.value[i] == vs[i];
    assert r.value == vs;
  }

  /** Unpadded decoding undoes unpadded encoding. */
  lemma DecodeEncode(a: Alphabet, b: Bytes)
    requires ValidAlphabet(a)
    ensures DecodeRaw(a, Encode(a, b)) == Some(b)
  {
    SextetsOfEncoding(a, b);
    PackUnpack(b);
  }

  /** The length of an unpadded encoding modulo four, by the number of bytes modulo three. */
  lemma EncodedLengthMod(a: Alphabet, b: Bytes)
    ensures |b| % 3 == 0 ==> |Encode(a, b)| % 4 == 0
    ensures |b| % 3 == 1 ==> |Encode(a, b)| % 4 == 2
    ensures |b| % 3 == 2 ==> |Encode(a, b)| % 4 == 3
  {
    var n := |b|;
    var q := n / 3;
    var r := n % 3;
    assert n == 3 * q + r;
    assert 4 * n + 2 == 3 * (4 * q) + (4 * r + 2);
    assert (4 * n + 2) / 3 == 4 * q + (4 * r + 2) / 3;
  }

  /** The padding completes the last group, and is needed only for a partial one. */
  lemma PaddedLength(a: Alphabet, b: Bytes)
    ensures PadCount(|b|) <= 2 && |EncodePadded(a, b)| % 4 == 0 && (|Encode(a, b)| + PadCount(|b|)) % 4 == 0
    ensures PadCount(|b|) > 0 ==> |Encode(a, b)| % 4 == 4 - PadCount(|b|)
  {
    EncodedLengthMod(a, b);
    assert |EncodePadded(a, b)| == |Encode(a, b)| + PadCount(|b|);
    PadArithmetic(|b|, |Encode(a, b)|);
  }

  /** The arithmetic of `PaddedLength`, apart from the sequences. */
  lemma PadArithmetic(n: nat, e: nat)
    requires n % 3 == 0 ==> e % 4 == 0
    requires n % 3 == 1 ==> e % 4 == 2
    requires n % 3 == 2 ==> e % 4 == 3
    ensures PadCount(n) <= 2 && (e + PadCount(n)) % 4 == 0
    ensures PadCount(n) > 0 ==> e % 4 == 4 - PadCount(n)
  {
  }

  /** Padded decoding undoes padded encoding. */
  lemma DecodeEncodePadded(a: Alphabet, b: Bytes)
    requires ValidAlphabet(a)
    ensures DecodePadded(a, EncodePadded(a, b)) == Some(b)
  {
    var e := Encode(a, b);
    var k := PadCount(|b|);
    DecodeEncode(a, b);
    PaddedLength(a, b);
    DecodePaddedStrips(a, e, k);
  }

  /** Decoding `e` followed by `k` padding symbols decodes `e`, when the result is whole groups. */
  lemma DecodePaddedStrips(a: Alphabet, e: string, k: nat)
    requires ValidAlphabet(a) && k <= 2 && (|e| + k) % 4 == 0
    requires k > 0 ==> |e| % 4 == 4 - k
    requires forall c | c in e :: InAlphabet(a, c)
    ensures DecodePadded(a, e + seq(k, _ => PadChar)) == DecodeRaw(a, e)
  {
    var s := e + seq(k, _ => PadChar);
    if k == 2 {
      assert s[..|s| - 2] == e;
      assert s[|s| - 2..] == [PadChar, PadChar];
    } else if k == 1 {
      assert s[|s| - 2] == e[|e| - 1];
      assert InAlphabet(a, e[|e| - 1]);
      assert s[..|s| - 1] == e;
    } else {
      assert s == e;
      if |e| > 0 {
        assert InAlphabet(a, e[|e| - 1]);
      }
    }
  }

  /** Thirty-two bytes encode to 43 symbols unpadded, and to 44 with one '=' padded. */
  lemma EncodedWidth32(a: Alphabet, b: Bytes)
    requires |b| == 32
    ensures |Encode(a, b)| == 43 && |EncodePadded(a, b)| == 44
  {
  }
}
