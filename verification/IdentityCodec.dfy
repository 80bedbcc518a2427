/**
 Canonical byte identities for projector topologies and projection sources: a domain tag
 followed by length-prefixed components.
 */
module IdentityCodec {
  import opened Wrappers
  import opened Characters

  newtype Byte = x: int | 0 <= x < 256

  type Bytes = seq<Byte>

  const MAX_NAME_BYTES := 128
  const TOPOLOGY_DOMAIN := Ascii("distributed.projection.topology-identity.v1\0")
  const SOURCE_NAME_DOMAIN := Ascii("distributed.projection.source-name-encoding.v1\0")

  /** A byte-string literal; all of them are ASCII. */
  function Ascii(s: string): (b: Bytes)
    ensures |b| == |s| && forall i | 0 <= i < |s| :: b[i] == AsciiByte(s[i])
  {
    seq(|s|, i requires 0 <= i < |s| => AsciiByte(s[i]))
  }

  function AsciiByte(c: char): Byte { (c as int % 128) as Byte }

  // ---------------------------------------------------------------- numbers

  function Pow256(k: nat): (p: nat)
    ensures p >= 1
  {
    if k == 0 then 1 else 256 * Pow256(k - 1)
  }

  /** `to_be_bytes` on `k` bytes. */
  function BigEndian(n: nat, k: nat): (b: Bytes)
    ensures |b| == k
  {
    if k == 0 then [] else BigEndian(n / 256, k - 1) + [(n % 256) as Byte]
  }

  /** `from_be_bytes` */
  function FromBigEndian(b: Bytes): nat {
    if b == [] then 0 else 256 * FromBigEndian(b[..|b| - 1]) + b[|b| - 1] as nat
  }

  lemma {:induction false} NumberRoundTrip(n: nat, k: nat)
    requires n < Pow256(k)
    ensures FromBigEndian(BigEndian(n, k)) == n
  {
    if k > 0 {
      NumberRoundTrip(n / 256, k - 1);
      assert BigEndian(n, k)[..k - 1] == BigEndian(n / 256, k - 1);
    }
  }

  /** The most significant byte comes first: where two numbers differ, the first byte that does orders them. */
  lemma {:induction false} BigEndianOrder(m: nat, n: nat, k: nat) returns (i: nat)
    requires m < n < Pow256(k)
    ensures i < k && BigEndian(m, k)[..i] == BigEndian(n, k)[..i] && BigEndian(m, k)[i] < BigEndian(n, k)[i]
  {
    var a, b := BigEndian(m / 256, k - 1), BigEndian(n / 256, k - 1);
    if m / 256 < n / 256 {
      i := BigEndianOrder(m / 256, n / 256, k - 1);
      assert BigEndian(m, k)[..i] == a[..i] && BigEndian(n, k)[..i] == b[..i];
    } else {
      i := k - 1;
      assert BigEndian(m, k)[..i] == a && BigEndian(n, k)[..i] == b;
    }
  }

  lemma {:induction false} BytesRoundTrip(b: Bytes)
    ensures BigEndian(FromBigEndian(b), |b|) == b && FromBigEndian(b) < Pow256(|b|)
  {
    if b != [] {
      var init := b[..|b| - 1];
      BytesRoundTrip(init);
      assert b == init + [b[|b| - 1]];
    }
  }

  lemma Widths()
    ensures Pow256(4) == 0x1_0000_0000 && Pow256(8) == 0x1_0000_0000_0000_0000
  {
    assert Pow256(2) == 0x1_0000;
    assert Pow256(4) == 0x1_0000_0000;
    assert Pow256(6) == 0x1_0000_0000_0000;
  }

  // ---------------------------------------------------------------- length prefixes

  /** Bytes are counted in 64 bits; no byte string in memory is longer. */
  predicate Countable(value: Bytes) { |value| < 0x1_0000_0000_0000_0000 }

  function LengthPrefixed(value: Bytes): Bytes { BigEndian(|value|, 8) + value }

  function TakeLengthPrefixed(bytes: Bytes): Option<(Bytes, Bytes)> {
    if |bytes| < 8 then None else
    var end := 8 + FromBigEndian(bytes[..8]);
    if end > |bytes| then None else Some((bytes[8..end], bytes[end..]))
  }

  lemma TakeInvertsPrefix(value: Bytes, rest: Bytes)
    requires Countable(value)
    ensures TakeLengthPrefixed(LengthPrefixed(value) + rest) == Some((value, rest))
  {
    var bytes := LengthPrefixed(value) + rest;
    assert bytes[..8] == BigEndian(|value|, 8);
    Widths();
    NumberRoundTrip(|value|, 8);
    assert bytes[8..8 + |value|] == value && bytes[8 + |value|..] == rest;
  }

  lemma TakeIsPrefix(bytes: Bytes)
    requires TakeLengthPrefixed(bytes).Some?
    ensures var (value, rest) := TakeLengthPrefixed(bytes).value;
            Countable(value) && bytes == LengthPrefixed(value) + rest
  {
    var (value, rest) := TakeLengthPrefixed(bytes).value;
    Widths();
    BytesRoundTrip(bytes[..8]);
    assert bytes == bytes[..8] + value + rest;
    assert LengthPrefixed(value) + rest == BigEndian(|value|, 8) + value + rest;
  }

  // ---------------------------------------------------------------- names

  datatype Error = Malformed | Zero | Empty | TooLong | InvalidCharacter

  /**
   A string is its UTF-8 bytes. `utf8` decodes them, or fails: it stands for the standard
   library's check, and every statement here holds whatever it is.
   */
  type Utf8 = Bytes -> Option<string>

  function ValidateName(utf8: Utf8, name: Bytes): Result<Bytes, Error> {
    if utf8(name).None? then Err(Malformed)
    else if name == [] then Err(Empty)
    else if |name| > MAX_NAME_BYTES then Err(TooLong)
    else if exists c <- utf8(name).value :: IsControl(c) || IsWhitespace(c) then Err(InvalidCharacter)
    else Ok(name)
  }

  /** 1 to 128 bytes of text, with no control and no white-space character. */
  ghost predicate GoodName(utf8: Utf8, name: Bytes) {
    1 <= |name| <= 128 && utf8(name).Some? && forall c <- utf8(name).value :: !IsControl(c) && !IsWhitespace(c)
  }

  lemma NameExact(utf8: Utf8, name: Bytes)
    ensures ValidateName(utf8, name) == Ok(name) <==> GoodName(utf8, name)
    ensures ValidateName(utf8, name).Ok? ==> ValidateName(utf8, name) == Ok(name)
  {
  }

  // ---------------------------------------------------------------- topologies

  datatype Topology = Topology(version: nat, name: Bytes, digest: Bytes)

  function NewTopology(utf8: Utf8, version: nat, name: Bytes, digest: Bytes): Result<Topology, Error> {
    if version == 0 then Err(Zero) else
    var valid := ValidateName(utf8, name);
    if valid.Err? then Err(valid.error) else Ok(Topology(version, name, digest))
  }

  /** A version of 1 to 2^32 - 1, a good name and a digest of 32 bytes. */
  ghost predicate ValidTopology(utf8: Utf8, t: Topology) {
    1 <= t.version < 0x1_0000_0000 && |t.digest| == 32 && GoodName(utf8, t.name)
  }

  /** `canonical_bytes` */
  function EncodeTopology(t: Topology): Bytes {
    TOPOLOGY_DOMAIN + (LengthPrefixed(BigEndian(t.version, 4)) + (LengthPrefixed(t.name) + LengthPrefixed(t.digest)))
  }

  /** The components after the domain tag, and what trails them. */
  function TakeThree(bytes: Bytes): Option<(Bytes, Bytes, Bytes, Bytes)> {
    var a := TakeLengthPrefixed(bytes);
    if a.None? then None else
    var b := TakeLengthPrefixed(a.value.1);
    if b.None? then None else
    var c := TakeLengthPrefixed(b.value.1);
    if c.None? then None else Some((a.value.0, b.value.0, c.value.0, c.value.1))
  }

  /** The decoder up to its last check. */
  function ReadTopology(utf8: Utf8, bytes: Bytes): Result<Topology, Error> {
    if !(TOPOLOGY_DOMAIN <= bytes) then Err(Malformed) else
    var parts := TakeThree(bytes[|TOPOLOGY_DOMAIN|..]);
    if parts.None? then Err(Malformed) else
    var (version, name, digest, trailing) := parts.value;
    if |version| != 4 || utf8(name).None? || |digest| != 32 || trailing != [] then Err(Malformed)
    else NewTopology(utf8, FromBigEndian(version), name, digest)
  }

  /** `from_canonical_bytes` */
  function DecodeTopology(utf8: Utf8, bytes: Bytes): Result<Topology, Error> {
    var t := ReadTopology(utf8, bytes);
    if t.Ok? && EncodeTopology(t.value) != bytes then Err(Malformed) else t
  }

  lemma TakeThreeInverts(a: Bytes, b: Bytes, c: Bytes, rest: Bytes)
    requires Countable(a) && Countable(b) && Countable(c)
    ensures TakeThree(LengthPrefixed(a) + (LengthPrefixed(b) + (LengthPrefixed(c) + rest))) == Some((a, b, c, rest))
  {
    TakeInvertsPrefix(a, LengthPrefixed(b) + (LengthPrefixed(c) + rest));
    TakeInvertsPrefix(b, LengthPrefixed(c) + rest);
    TakeInvertsPrefix(c, rest);
  }

  lemma TakeThreeIsPrefix(bytes: Bytes)
    requires TakeThree(bytes).Some?
    ensures var (a, b, c, rest) := TakeThree(bytes).value;
            bytes == LengthPrefixed(a) + (LengthPrefixed(b) + (LengthPrefixed(c) + rest))
  {
    TakeIsPrefix(bytes);
    var rest := TakeLengthPrefixed(bytes).value.1;
    TakeIsPrefix(rest);
    TakeIsPrefix(TakeLengthPrefixed(rest).value.1);
  }

  /** Bytes that pass every check before the last one are already their own re-encoding. */
  lemma ReencodeCheckNeverFires(utf8: Utf8, bytes: Bytes)
    requires ReadTopology(utf8, bytes).Ok?
    ensures ValidTopology(utf8, ReadTopology(utf8, bytes).value)
    ensures EncodeTopology(ReadTopology(utf8, bytes).value) == bytes
    ensures DecodeTopology(utf8, bytes) == ReadTopology(utf8, bytes)
  {
    var body := bytes[|TOPOLOGY_DOMAIN|..];
    TakeThreeIsPrefix(body);
    var (version, name, digest, trailing) := TakeThree(body).value;
    BytesRoundTrip(version);
    Widths();
    assert LengthPrefixed(digest) + [] == LengthPrefixed(digest);
    assert bytes == TOPOLOGY_DOMAIN + body;
  }

  /** The components are read back from any bytes that start with an encoding. */
  lemma ComponentsReadBack(t: Topology, rest: Bytes)
    requires Countable(t.name) && Countable(t.digest)
    ensures TakeThree((EncodeTopology(t) + rest)[|TOPOLOGY_DOMAIN|..])
         == Some((BigEndian(t.version, 4), t.name, t.digest, rest))
  {
    var version := BigEndian(t.version, 4);
    TakeThreeInverts(version, t.name, t.digest, rest);
    AfterFirst(TOPOLOGY_DOMAIN, LengthPrefixed(version), LengthPrefixed(t.name), LengthPrefixed(t.digest), rest);
  }

  lemma AfterFirst(a: Bytes, b: Bytes, c: Bytes, d: Bytes, rest: Bytes)
    ensures (a + (b + (c + d)) + rest)[|a|..] == b + (c + (d + rest))
  {
  }

  lemma DecodeEncoded(utf8: Utf8, t: Topology)
    requires ValidTopology(utf8, t)
    ensures DecodeTopology(utf8, EncodeTopology(t)) == Ok(t)
  {
    ComponentsReadBack(t, []);
    assert EncodeTopology(t) + [] == EncodeTopology(t);
    Widths();
    NumberRoundTrip(t.version, 4);
  }

  /** Exactly the encodings of valid topologies decode, each to the topology it encodes. */
  lemma TopologyCodecExact(utf8: Utf8, bytes: Bytes, t: Topology)
    ensures DecodeTopology(utf8, bytes) == Ok(t) <==> ValidTopology(utf8, t) && bytes == EncodeTopology(t)
  {
    if ReadTopology(utf8, bytes).Ok? { ReencodeCheckNeverFires(utf8, bytes); }
    if ValidTopology(utf8, t) { DecodeEncoded(utf8, t); }
  }

  /** No encoding is a prefix of another. */
  lemma TopologyPrefixFree(utf8: Utf8, t: Topology, u: Topology, rest: Bytes)
    requires ValidTopology(utf8, t) && ValidTopology(utf8, u) && EncodeTopology(t) + rest == EncodeTopology(u)
    ensures t == u && rest == []
  {
    ComponentsReadBack(t, rest);
    ComponentsReadBack(u, []);
    assert EncodeTopology(u) + [] == EncodeTopology(u);
    Widths();
    NumberRoundTrip(t.version, 4);
    NumberRoundTrip(u.version, 4);
  }

  // ---------------------------------------------------------------- source names

  /** `canonical_name_bytes` */
  function EncodeSourceName(name: Bytes): Bytes { SOURCE_NAME_DOMAIN + LengthPrefixed(name) }

  /** `from_canonical_name_bytes`, for the name. */
  function ReadSourceName(utf8: Utf8, bytes: Bytes): Result<Bytes, Error> {
    if !(SOURCE_NAME_DOMAIN <= bytes) then Err(Malformed) else
    var taken := TakeLengthPrefixed(bytes[|SOURCE_NAME_DOMAIN|..]);
    if taken.None? || taken.value.1 != [] || utf8(taken.value.0).None? then Err(Malformed)
    else ValidateName(utf8, taken.value.0)
  }

  function DecodeSourceName(utf8: Utf8, bytes: Bytes): Result<Bytes, Error> {
    var name := ReadSourceName(utf8, bytes);
    if name.Ok? && EncodeSourceName(name.value) != bytes then Err(Malformed) else name
  }

  /** Exactly the encodings of valid names decode, each to its name, and the last check never fires. */
  lemma SourceNameCodecExact(utf8: Utf8, bytes: Bytes, name: Bytes)
    ensures DecodeSourceName(utf8, bytes) == ReadSourceName(utf8, bytes)
    ensures DecodeSourceName(utf8, bytes) == Ok(name)
       <==> GoodName(utf8, name) && bytes == EncodeSourceName(name)
  {
    NameExact(utf8, name);
    var n := |SOURCE_NAME_DOMAIN|;
    if ReadSourceName(utf8, bytes).Ok? {
      TakeIsPrefix(bytes[n..]);
      var taken := TakeLengthPrefixed(bytes[n..]).value.0;
      assert bytes[n..] == LengthPrefixed(taken);
      assert bytes == SOURCE_NAME_DOMAIN + bytes[n..];
    }
    if ValidateName(utf8, name) == Ok(name) && bytes == EncodeSourceName(name) {
      assert bytes[n..] == LengthPrefixed(name) + [];
      TakeInvertsPrefix(name, []);
    }
  }

  lemma SourceNamePrefixFree(name: Bytes, other: Bytes, rest: Bytes)
    requires Countable(name) && Countable(other) && EncodeSourceName(name) + rest == EncodeSourceName(other)
    ensures name == other && rest == []
  {
    var n := |SOURCE_NAME_DOMAIN|;
    assert (EncodeSourceName(name) + rest)[n..] == LengthPrefixed(name) + rest;
    assert EncodeSourceName(other)[n..] == LengthPrefixed(other) + [];
    TakeInvertsPrefix(name, rest);
    TakeInvertsPrefix(other, []);
  }

  /** A topology and a source name never share an encoding, nor is one's encoding a prefix of the other's. */
  lemma EncodingsNeverCoincide(t: Topology, name: Bytes)
    ensures !(EncodeTopology(t) <= EncodeSourceName(name)) && !(EncodeSourceName(name) <= EncodeTopology(t))
  {
    assert EncodeTopology(t)[23] == TOPOLOGY_DOMAIN[23] == AsciiByte('t');
    assert EncodeSourceName(name)[23] == SOURCE_NAME_DOMAIN[23] == AsciiByte('s');
  }

  // ---------------------------------------------------------------- the encoder's buffer

  /** The byte buffer the encoders append to. */
  class Buffer {
    var bytes: Bytes

    constructor ()
      ensures bytes == []
    {
      bytes := [];
    }

    method Extend(value: Bytes)
      modifies this
      ensures bytes == old(bytes) + value
    {
      bytes := bytes + value;
    }

    method AppendLengthPrefixed(value: Bytes)
      modifies this
      ensures bytes == old(bytes) + LengthPrefixed(value)
    {
      Extend(BigEndian(|value|, 8));
      Extend(value);
      assert old(bytes) + BigEndian(|value|, 8) + value == old(bytes) + LengthPrefixed(value);
    }
  }

  method CanonicalBytes(t: Topology) returns (bytes: Bytes)
    ensures bytes == EncodeTopology(t)
  {
    var buffer := new Buffer();
    buffer.Extend(TOPOLOGY_DOMAIN);
    buffer.AppendLengthPrefixed(BigEndian(t.version, 4));
    buffer.AppendLengthPrefixed(t.name);
    buffer.AppendLengthPrefixed(t.digest);
    bytes := buffer.bytes;
  }

  method CanonicalNameBytes(name: Bytes) returns (bytes: Bytes)
    ensures bytes == EncodeSourceName(name)
  {
    var buffer := new Buffer();
    buffer.Extend(SOURCE_NAME_DOMAIN);
    buffer.AppendLengthPrefixed(name);
    bytes := buffer.bytes;
  }
}
