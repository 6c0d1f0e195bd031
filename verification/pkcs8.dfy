/**
 PKCS#8 around a P-256 key (src/pkcs8.rs:61-144): reading the scalar out of a SEC1 key (section 3 of RFC 5915) and
 building the PKCS#8 form (section 2 of RFC 5958), which a strict DER reader (sections 8.1.3 and 10.1 of X.690) takes
 apart.
 */
module Pkcs8Keys {
  import opened Prelude
  import opened Locked

  // ---------------------------------------------------------------- DER

  const SEQUENCE: Byte := 0x30
  const INTEGER: Byte := 0x02
  const BIT_STRING: Byte := 0x03
  const OCTET_STRING: Byte := 0x04
  const OID: Byte := 0x06
  const EXPLICIT_1: Byte := 0xA1

  /** The one DER length of `n`: short below 128, otherwise long with no leading zero. */
  function DerLength(n: nat): (b: Bytes)
    requires n < 0x10000
    ensures |b| == if n < 0x80 then 1 else if n < 0x100 then 2 else 3
  {
    if n < 0x80 then [n] else if n < 0x100 then [0x81, n] else [0x82, n / 0x100, n % 0x100]
  }

  function Der(tag: Byte, content: Bytes): (b: Bytes)
    requires |content| < 0x10000
    ensures |b| == |content| + if |content| < 0x80 then 2 else if |content| < 0x100 then 3 else 4
  {
    [tag] + DerLength(|content|) + content
  }

  function BigEndian(b: Bytes): nat {
    if b == [] then 0 else 0x100 * BigEndian(b[..|b| - 1]) + b[|b| - 1]
  }

  datatype Tlv = Tlv(tag: Byte, content: Bytes, rest: Bytes)

  /** Strict: definite, minimal length, and the content must be there. */
  function ReadTlv(b: Bytes): Result<Tlv> {
    if |b| < 2 then Err(Certificate)
    else if b[1] < 0x80 then TakeContent(b[0], b[1], b[2..])
    else
      var k := b[1] - 0x80;
      if k == 0 || k > 4 || |b| < 2 + k then Err(Certificate)
      else
        var n := BigEndian(b[2..2 + k]);
        if b[2] == 0 || n < 0x80 then Err(Certificate) else TakeContent(b[0], n, b[2 + k..])
  }

  function TakeContent(tag: Byte, n: nat, b: Bytes): Result<Tlv> {
    if |b| < n then Err(Certificate) else Ok(Tlv(tag, b[..n], b[n..]))
  }

  lemma ReadDer(tag: Byte, content: Bytes, rest: Bytes)
    requires |content| < 0x10000
    ensures ReadTlv(Der(tag, content) + rest) == Ok(Tlv(tag, content, rest))
  {
    var (b, n) := (Der(tag, content) + rest, |content|);
    var h := 1 + |DerLength(n)|;
    assert b[h..] == content + rest && (content + rest)[..n] == content && (content + rest)[n..] == rest;
    if n >= 0x100 {
      assert b[2..4] == [n / 0x100, n % 0x100];
      assert b[2..4][..1] == [n / 0x100];
      assert BigEndian([n / 0x100]) == n / 0x100;
    } else if n >= 0x80 {
      assert b[2..3] == [n];
      assert BigEndian([n]) == n;
    }
  }

  lemma {:induction false} BigEndianIsLarge(b: Bytes)
    requires |b| > 0 && b[0] > 0
    ensures BigEndian(b) > 0 && (|b| > 1 ==> BigEndian(b) >= 0x100) && (|b| > 2 ==> BigEndian(b) >= 0x10000)
    ensures |b| == 2 ==> BigEndian(b) == 0x100 * (b[0] as int) + b[1]
    ensures |b| == 1 ==> BigEndian(b) == b[0]
  {
    if |b| > 1 {
      BigEndianIsLarge(b[..|b| - 1]);
    }
  }

  /** Strict reading: what is read is exactly what has that DER encoding in front. */
  lemma ReadTlvExactly(b: Bytes, tag: Byte, content: Bytes, rest: Bytes)
    requires |content| < 0x10000
    ensures ReadTlv(b) == Ok(Tlv(tag, content, rest)) <==> b == Der(tag, content) + rest
  {
    ReadDer(tag, content, rest);
    if ReadTlv(b) == Ok(Tlv(tag, content, rest)) {
      LengthIsDer(b, tag, content, rest);
    }
  }

  lemma LengthIsDer(b: Bytes, tag: Byte, content: Bytes, rest: Bytes)
    requires |content| < 0x10000 && ReadTlv(b) == Ok(Tlv(tag, content, rest))
    ensures b == Der(tag, content) + rest
  {
    var h := HeadOf(b, |content|);
    hide ReadTlv, DerLength;
    var tail := b[h..];
    assert tail == tail[..|content|] + tail[|content|..];
    assert b == b[..h] + tail;
  }

  /** Where the content starts. */
  lemma HeadOf(b: Bytes, n: nat) returns (h: nat)
    requires n < 0x10000 && ReadTlv(b).Ok? && |ReadTlv(b).value.content| == n
    ensures 2 <= h <= |b| && b[..h] == [b[0]] + DerLength(n) && ReadTlv(b) == TakeContent(b[0], n, b[h..])
  {
    hide BigEndian;
    h := if b[1] < 0x80 then 2 else 2 + (b[1] - 0x80);
    if b[1] >= 0x80 {
      var l := b[2..h];
      BigEndianIsLarge(l);
      assert |l| == 1 ==> b[..h] == [b[0], b[1], l[0]];
      assert |l| == 2 ==> b[..h] == [b[0], b[1], l[0], l[1]];
    } else {
      assert b[..h] == [b[0], b[1]];
    }
  }

  /** One value of the expected tag, and nothing after it. */
  function ReadOnly(tag: Byte, b: Bytes): Result<Bytes> {
    var t :- ReadTlv(b);
    if t.tag == tag && t.rest == [] then Ok(t.content) else Err(Certificate)
  }

  /** One value of the expected tag, and what follows. */
  function ReadNext(tag: Byte, b: Bytes): Result<(Bytes, Bytes)> {
    var t :- ReadTlv(b);
    if t.tag == tag then Ok((t.content, t.rest)) else Err(Certificate)
  }

  // ---------------------------------------------------------------- the two key forms

  /** 1.2.840.10045.2.1 and 1.2.840.10045.3.1.7. */
  const EC_PUBLIC_KEY: Bytes := [0x2A, 0x86, 0x48, 0xCE, 0x3D, 0x02, 0x01]
  const PRIME256V1: Bytes := [0x2A, 0x86, 0x48, 0xCE, 0x3D, 0x03, 0x01, 0x07]

  datatype EcKey = EcKey(scalar: Bytes, point: Bytes)

  predicate IsP256(k: EcKey) { |k.scalar| == 32 && |k.point| == 65 }

  function AlgorithmId(): Bytes { Der(SEQUENCE, Der(OID, EC_PUBLIC_KEY) + Der(OID, PRIME256V1)) }

  /** ECPrivateKey with the public key in its `[1]` field. */
  function EcPrivateKey(k: EcKey): Bytes
    requires IsP256(k)
  {
    Der(SEQUENCE, Der(INTEGER, [1]) + Der(OCTET_STRING, k.scalar)
                  + Der(EXPLICIT_1, Der(BIT_STRING, [0] + k.point)))
  }

  function Pkcs8(k: EcKey): Bytes
    requires IsP256(k)
  {
    Der(SEQUENCE, Der(INTEGER, [0]) + AlgorithmId() + Der(OCTET_STRING, EcPrivateKey(k)))
  }

  function ReadEcPrivateKey(b: Bytes): Result<EcKey> {
    var body :- ReadOnly(SEQUENCE, b);
    var version :- ReadNext(INTEGER, body);
    var scalar :- ReadNext(OCTET_STRING, version.1);
    var explicit :- ReadOnly(EXPLICIT_1, scalar.1);
    var bits :- ReadOnly(BIT_STRING, explicit);
    if version.0 == [1] && |bits| > 0 && bits[0] == 0 then Ok(EcKey(scalar.0, bits[1..])) else Err(Certificate)
  }

  function ReadPkcs8(b: Bytes): Result<EcKey> {
    var body :- ReadOnly(SEQUENCE, b);
    var version :- ReadNext(INTEGER, body);
    var alg :- ReadNext(SEQUENCE, version.1);
    var curve :- ReadNext(OID, alg.0);
    var name :- ReadOnly(OID, curve.1);
    var key :- ReadOnly(OCTET_STRING, alg.1);
    if version.0 == [0] && curve.0 == EC_PUBLIC_KEY && name == PRIME256V1 then ReadEcPrivateKey(key)
    else Err(Certificate)
  }

  lemma EcPrivateKeyIsRead(k: EcKey)
    requires IsP256(k)
    ensures ReadEcPrivateKey(EcPrivateKey(k)) == Ok(k)
  {
    hide ReadTlv, Der;
    var bits := Der(BIT_STRING, [0] + k.point);
    var public := Der(EXPLICIT_1, bits);
    var private := Der(OCTET_STRING, k.scalar);
    var version := Der(INTEGER, [1]);
    var body := version + private + public;
    ReadDer(SEQUENCE, body, []);
    assert Der(SEQUENCE, body) + [] == Der(SEQUENCE, body);
    ReadDer(INTEGER, [1], private + public);
    assert version + (private + public) == body;
    ReadDer(OCTET_STRING, k.scalar, public);
    ReadDer(EXPLICIT_1, bits, []);
    assert public + [] == public;
    ReadDer(BIT_STRING, [0] + k.point, []);
    assert bits + [] == bits && ([0] + k.point)[1..] == k.point;
  }

  lemma AlgorithmIdIsRead(rest: Bytes)
    ensures ReadTlv(AlgorithmId() + rest)
            == Ok(Tlv(SEQUENCE, Der(OID, EC_PUBLIC_KEY) + Der(OID, PRIME256V1), rest))
    ensures ReadTlv(Der(OID, EC_PUBLIC_KEY) + Der(OID, PRIME256V1))
            == Ok(Tlv(OID, EC_PUBLIC_KEY, Der(OID, PRIME256V1)))
    ensures ReadTlv(Der(OID, PRIME256V1)) == Ok(Tlv(OID, PRIME256V1, []))
  {
    hide ReadTlv, Der;
    ReadDer(SEQUENCE, Der(OID, EC_PUBLIC_KEY) + Der(OID, PRIME256V1), rest);
    ReadDer(OID, EC_PUBLIC_KEY, Der(OID, PRIME256V1));
    ReadDer(OID, PRIME256V1, []);
    assert Der(OID, PRIME256V1) + [] == Der(OID, PRIME256V1);
  }

  /** The strict reader consumes the whole key and recovers scalar and point. */
  lemma Pkcs8IsRead(k: EcKey)
    requires IsP256(k)
    ensures ReadPkcs8(Pkcs8(k)) == Ok(k)
  {
    hide ReadTlv, Der, EcPrivateKey, AlgorithmId, ReadEcPrivateKey;
    EcPrivateKeySize(k);
    AlgorithmIdSize();
    var private := Der(OCTET_STRING, EcPrivateKey(k));
    var version := Der(INTEGER, [0]);
    var body := version + AlgorithmId() + private;
    ReadDer(SEQUENCE, body, []);
    assert Der(SEQUENCE, body) + [] == Der(SEQUENCE, body);
    ReadDer(INTEGER, [0], AlgorithmId() + private);
    assert version + (AlgorithmId() + private) == body;
    AlgorithmIdIsRead(private);
    ReadDer(OCTET_STRING, EcPrivateKey(k), []);
    assert private + [] == private;
    EcPrivateKeyIsRead(k);
  }

  lemma ReadOnlyExactly(tag: Byte, b: Bytes, content: Bytes)
    requires |content| < 0x10000
    ensures ReadOnly(tag, b) == Ok(content) <==> b == Der(tag, content)
  {
    hide ReadTlv, Der;
    ReadTlvExactly(b, tag, content, []);
    assert Der(tag, content) + [] == Der(tag, content);
  }

  lemma ReadNextExactly(tag: Byte, b: Bytes, content: Bytes, rest: Bytes)
    requires |content| < 0x10000
    ensures ReadNext(tag, b) == Ok((content, rest)) <==> b == Der(tag, content) + rest
  {
    hide ReadTlv, Der;
    ReadTlvExactly(b, tag, content, rest);
  }

  lemma EcParts(b: Bytes, k: EcKey) returns (body: Bytes, afterVersion: Bytes, afterScalar: Bytes, explicit: Bytes)
    requires ReadEcPrivateKey(b) == Ok(k)
    ensures ReadOnly(SEQUENCE, b) == Ok(body) && ReadNext(INTEGER, body) == Ok(([1], afterVersion))
    ensures ReadNext(OCTET_STRING, afterVersion) == Ok((k.scalar, afterScalar))
    ensures ReadOnly(EXPLICIT_1, afterScalar) == Ok(explicit) && ReadOnly(BIT_STRING, explicit) == Ok([0] + k.point)
  {
    hide ReadTlv, Der, ReadOnly, ReadNext;
    body := ReadOnly(SEQUENCE, b).value;
    afterVersion := ReadNext(INTEGER, body).value.1;
    afterScalar := ReadNext(OCTET_STRING, afterVersion).value.1;
    explicit := ReadOnly(EXPLICIT_1, afterScalar).value;
    var bits := ReadOnly(BIT_STRING, explicit).value;
    assert bits == [0] + bits[1..];
  }

  lemma EcPrivateKeyHasOneSpelling(b: Bytes, k: EcKey)
    requires IsP256(k)
    ensures ReadEcPrivateKey(b) == Ok(k) <==> b == EcPrivateKey(k)
  {
    EcPrivateKeyIsRead(k);
    hide ReadTlv, Der, ReadOnly, ReadNext, ReadEcPrivateKey;
    if ReadEcPrivateKey(b) == Ok(k) {
      var body, afterVersion, afterScalar, explicit := EcParts(b, k);
      ReadOnlyExactly(BIT_STRING, explicit, [0] + k.point);
      ReadOnlyExactly(EXPLICIT_1, afterScalar, explicit);
      ReadNextExactly(OCTET_STRING, afterVersion, k.scalar, afterScalar);
      ReadNextExactly(INTEGER, body, [1], afterVersion);
      Associated(Der(INTEGER, [1]), Der(OCTET_STRING, k.scalar), afterScalar);
      ReadOnlyExactly(SEQUENCE, b, body);
    }
  }

  lemma Associated(a: Bytes, b: Bytes, c: Bytes)
    ensures a + (b + c) == a + b + c
  {
  }

  lemma Pkcs8Parts(b: Bytes, k: EcKey)
    returns (body: Bytes, afterVersion: Bytes, alg: Bytes, afterAlg: Bytes, name: Bytes, key: Bytes)
    requires ReadPkcs8(b) == Ok(k)
    ensures ReadOnly(SEQUENCE, b) == Ok(body) && ReadNext(INTEGER, body) == Ok(([0], afterVersion))
    ensures ReadNext(SEQUENCE, afterVersion) == Ok((alg, afterAlg))
    ensures ReadNext(OID, alg) == Ok((EC_PUBLIC_KEY, name)) && ReadOnly(OID, name) == Ok(PRIME256V1)
    ensures ReadOnly(OCTET_STRING, afterAlg) == Ok(key) && ReadEcPrivateKey(key) == Ok(k)
  {
    hide ReadTlv, Der, ReadOnly, ReadNext, ReadEcPrivateKey;
    body := ReadOnly(SEQUENCE, b).value;
    afterVersion := ReadNext(INTEGER, body).value.1;
    alg, afterAlg := ReadNext(SEQUENCE, afterVersion).value.0, ReadNext(SEQUENCE, afterVersion).value.1;
    name := ReadNext(OID, alg).value.1;
    key := ReadOnly(OCTET_STRING, afterAlg).value;
  }

  /** Strict reading: a key is read only from its one encoding. */
  lemma Pkcs8HasOneSpelling(b: Bytes, k: EcKey)
    requires IsP256(k)
    ensures ReadPkcs8(b) == Ok(k) <==> b == Pkcs8(k)
  {
    Pkcs8IsRead(k);
    hide ReadTlv, Der, ReadOnly, ReadNext, EcPrivateKey, ReadEcPrivateKey, ReadPkcs8;
    if ReadPkcs8(b) == Ok(k) {
      var body, afterVersion, alg, afterAlg, name, key := Pkcs8Parts(b, k);
      EcPrivateKeyHasOneSpelling(key, k);
      EcPrivateKeySize(k);
      ReadOnlyExactly(OCTET_STRING, afterAlg, key);
      ReadOnlyExactly(OID, name, PRIME256V1);
      ReadNextExactly(OID, alg, EC_PUBLIC_KEY, name);
      ReadNextExactly(SEQUENCE, afterVersion, alg, afterAlg);
      ReadNextExactly(INTEGER, body, [0], afterVersion);
      Associated(Der(INTEGER, [0]), AlgorithmId(), Der(OCTET_STRING, key));
      ReadOnlyExactly(SEQUENCE, b, body);
    }
  }

  lemma EcPrivateKeySize(k: EcKey)
    requires IsP256(k)
    ensures |EcPrivateKey(k)| == 109
  {
  }

  lemma AlgorithmIdSize()
    ensures |AlgorithmId()| == 21
  {
  }

  // ---------------------------------------------------------------- building

  /** `as u8`. */
  function Truncated(n: int): Byte { n % 0x100 }

  lemma ShortDer(tag: Byte, content: Bytes)
    requires |content| < 0x80
    ensures Der(tag, content) == [tag, |content|] + content
  {
  }

  lemma AlgorithmIdBytes()
    ensures AlgorithmId() == [
      0x30, 0x13,
      0x06, 0x07, 0x2A, 0x86, 0x48, 0xCE, 0x3D, 0x02, 0x01,
      0x06, 0x08, 0x2A, 0x86, 0x48, 0xCE, 0x3D, 0x03, 0x01, 0x07]
  {
  }

  /** The whole key, byte by byte around scalar and point. */
  lemma Pkcs8WrittenOut(k: EcKey)
    requires IsP256(k)
    ensures Pkcs8(k) == [0x30, 0x81, 0x87, 0x02, 0x01, 0x00] + AlgorithmId() + [0x04, 0x6D] + EcPrivateKey(k)
    ensures AlgorithmId() == [
      0x30, 0x13,
      0x06, 0x07, 0x2A, 0x86, 0x48, 0xCE, 0x3D, 0x02, 0x01,
      0x06, 0x08, 0x2A, 0x86, 0x48, 0xCE, 0x3D, 0x03, 0x01, 0x07]
    ensures EcPrivateKey(k) == [0x30, 0x6B, 0x02, 0x01, 0x01, 0x04, 0x20] + k.scalar
                               + [0xA1, 0x44, 0x03, 0x42, 0x00] + k.point
  {
    AlgorithmIdBytes();
    EcPrivateKeyWrittenOut(k);
    hide Der, AlgorithmId, EcPrivateKey;
    AlgorithmIdSize();
    EcPrivateKeySize(k);
    var ec := EcPrivateKey(k);
    ShortDer(INTEGER, [0]);
    ShortDer(OCTET_STRING, ec);
    LongDer(SEQUENCE, Der(INTEGER, [0]) + AlgorithmId() + Der(OCTET_STRING, ec));
    assert Der(INTEGER, [0]) == [0x02, 0x01, 0x00] && Der(OCTET_STRING, ec) == [0x04, 0x6D] + ec;
    Assembled([0x30, 0x81, 0x87], [0x02, 0x01, 0x00], AlgorithmId(), [0x04, 0x6D], ec);
  }

  lemma Assembled(a: Bytes, b: Bytes, c: Bytes, d: Bytes, e: Bytes)
    ensures a + (b + c + (d + e)) == a + b + c + d + e
  {
  }

  lemma EcPrivateKeyWrittenOut(k: EcKey)
    requires IsP256(k)
    ensures EcPrivateKey(k) == [0x30, 0x6B, 0x02, 0x01, 0x01, 0x04, 0x20] + k.scalar
                               + [0xA1, 0x44, 0x03, 0x42, 0x00] + k.point
  {
    hide Der;
    var bits := Der(BIT_STRING, [0] + k.point);
    ShortDer(BIT_STRING, [0] + k.point);
    ShortDer(EXPLICIT_1, bits);
    ShortDer(OCTET_STRING, k.scalar);
    ShortDer(INTEGER, [1]);
    var ec := Der(INTEGER, [1]) + Der(OCTET_STRING, k.scalar) + Der(EXPLICIT_1, bits);
    assert ec == [0x02, 0x01, 0x01, 0x04, 0x20] + k.scalar + [0xA1, 0x44, 0x03, 0x42, 0x00] + k.point;
    ShortDer(SEQUENCE, ec);
  }

  lemma LongDer(tag: Byte, content: Bytes)
    requires 0x80 <= |content| < 0x100
    ensures Der(tag, content) == [tag, 0x81, |content|] + content
  {
  }

  /** The inner ECPrivateKey, with each length in one byte. */
  method EcSequence(scalar: Bytes, point: Bytes) returns (ecSeq: Bytes)
    requires |scalar| == 32 && |point| == 65
    ensures ecSeq == EcPrivateKey(EcKey(scalar, point))
  {
    hide Der;
    var ec: Bytes := [0x02, 0x01, 0x01];
    ec := ec + [0x04];
    ec := ec + [0x20];
    ec := ec + scalar;
    assert ec == Der(INTEGER, [1]) + Der(OCTET_STRING, scalar) by {
      ShortDer(INTEGER, [1]);
      ShortDer(OCTET_STRING, scalar);
    }
    ghost var head := ec;
    var bit := [0x03, Truncated(|point| + 1), 0x00];
    bit := bit + point;
    assert bit == Der(BIT_STRING, [0] + point) by {
      ShortDer(BIT_STRING, [0] + point);
    }
    ec := ec + [0xA1];
    ec := ec + [Truncated(|bit|)];
    ec := ec + bit;
    assert ec == head + Der(EXPLICIT_1, bit) by {
      ShortDer(EXPLICIT_1, bit);
    }
    ecSeq := [0x30, Truncated(|ec|)];
    ecSeq := ecSeq + ec;
    ShortDer(SEQUENCE, ec);
  }

  /** `pkcs8_from_parts`: every length is one byte written by hand, except the outermost. */
  method Pkcs8FromParts(scalar: Bytes, point: Bytes) returns (out: Bytes)
    requires |scalar| == 32 && |point| == 65
    ensures out == Pkcs8(EcKey(scalar, point))
    ensures |out| == 138 && out[..3] == [SEQUENCE, 0x81, 135]
  {
    hide EcPrivateKey, AlgorithmId;
    var ecSeq := EcSequence(scalar, point);
    EcPrivateKeySize(EcKey(scalar, point));
    AlgorithmIdBytes();
    var alg: Bytes := [
      0x30, 0x13,
      0x06, 0x07, 0x2A, 0x86, 0x48, 0xCE, 0x3D, 0x02, 0x01,
      0x06, 0x08, 0x2A, 0x86, 0x48, 0xCE, 0x3D, 0x03, 0x01, 0x07];
    var inner := [0x02, 0x01, 0x00] + alg;
    inner := inner + [0x04];
    inner := inner + [Truncated(|ecSeq|)];
    inner := inner + ecSeq;
    assert inner == Der(INTEGER, [0]) + AlgorithmId() + Der(OCTET_STRING, ecSeq) by {
      hide Der;
      ShortDer(INTEGER, [0]);
      ShortDer(OCTET_STRING, ecSeq);
    }
    out := [0x30];
    if |inner| < 128 {
      out := out + [Truncated(|inner|)];
    } else {
      out := out + [0x81];
      out := out + [Truncated(|inner|)];
    }
    out := out + inner;
  }

  // ---------------------------------------------------------------- reading SEC1

  /** The shape of a length field, whatever length it claims. */
  predicate IsLengthField(len: Bytes) {
    || (|len| == 1 && len[0] < 0x80)
    || (2 <= |len| <= 5 && len[0] == 0x80 + (|len| - 1))
  }

  const SEC1_HEAD: Bytes := [0x02, 0x01, 0x01, 0x04, 0x20]

  ghost predicate IsSec1(der: Bytes, scalar: Bytes) {
    && |scalar| == 32
    && exists len: Bytes, tail: Bytes :: IsLengthField(len) && der == [SEQUENCE] + len + SEC1_HEAD + scalar + tail
  }

  /** What `sec1_private_scalar` finds, by offsets. */
  function Sec1Scalar(der: Bytes): Result<Bytes> {
    if |der| < 2 || der[0] != SEQUENCE then Err(Error.Sign)
    else
      var k := if der[1] < 0x80 then 0 else der[1] - 0x80;
      if der[1] >= 0x80 && (k == 0 || k > 4) then Err(Error.Sign)
      else
        var i := 2 + k;
        if |der| < i + 37 || der[i..i + 5] != SEC1_HEAD then Err(Error.Sign) else Ok(der[i + 5..i + 37])
  }

  /** `sec1_private_scalar`: a cursor moved over the bytes. */
  method Sec1PrivateScalar(der: Bytes) returns (r: Result<Bytes>)
    ensures r == Sec1Scalar(der)
  {
    var i := 0;
    if |der| == 0 || der[0] != 0x30 {
      return Err(Error.Sign);
    }
    i := i + 1;
    if i >= |der| {
      return Err(Error.Sign);
    }
    var lenByte := der[i];
    i := i + 1;
    if lenByte >= 0x80 {
      var n := lenByte % 0x80;
      if n == 0 || n > 4 {
        return Err(Error.Sign);
      }
      i := i + n;
    }
    ghost var h := i;
    if i + 3 > |der| || der[i..i + 3] != [0x02, 0x01, 0x01] {
      assert h + 37 <= |der| ==> der[h..h + 5][..3] == der[h..h + 3];
      return Err(Error.Sign);
    }
    i := i + 3;
    if i + 2 > |der| || der[i..i + 2] != [0x04, 0x20] {
      assert h + 37 <= |der| ==> der[h..h + 5][3..] == der[i..i + 2];
      return Err(Error.Sign);
    }
    assert der[h..h + 5] == der[h..h + 3] + der[i..i + 2];
    i := i + 2;
    if i + 32 > |der| {
      return Err(Error.Sign);
    }
    r := Ok(der[i..i + 32]);
  }

  /**
   The scalar is found in exactly the SEC1 forms with a length field of one to five bytes; the length it claims is never
   looked at.
   */
  lemma Sec1ScalarFinds(der: Bytes, scalar: Bytes)
    ensures Sec1Scalar(der) == Ok(scalar) <==> IsSec1(der, scalar)
  {
    if Sec1Scalar(der) == Ok(scalar) {
      var i := 2 + if der[1] < 0x80 then 0 else der[1] - 0x80;
      var len := der[1..i];
      assert der == [SEQUENCE] + len + SEC1_HEAD + scalar + der[i + 37..];
      assert IsLengthField(len);
    }
    if IsSec1(der, scalar) {
      var len: Bytes, tail: Bytes :| IsLengthField(len) && der == [SEQUENCE] + len + SEC1_HEAD + scalar + tail;
      var i := 1 + |len|;
      assert der[1] == len[0];
      assert der[i..i + 5] == SEC1_HEAD && der[i + 5..i + 37] == scalar;
    }
  }

  /** Every DER encoding of a P-256 ECPrivateKey, with any optional fields, in short or long form, gives its scalar. */
  lemma Sec1RecoversScalar(scalar: Bytes, optional: Bytes)
    requires |scalar| == 32 && |optional| < 0xFF00
    ensures Sec1Scalar(Der(SEQUENCE, Der(INTEGER, [1]) + Der(OCTET_STRING, scalar) + optional)) == Ok(scalar)
  {
    var body := Der(INTEGER, [1]) + Der(OCTET_STRING, scalar) + optional;
    var len := DerLength(|body|);
    assert body == SEC1_HEAD + scalar + optional;
    assert Der(SEQUENCE, body) == [SEQUENCE] + len + SEC1_HEAD + scalar + optional;
    assert IsLengthField(len);
    Sec1ScalarFinds(Der(SEQUENCE, body), scalar);
  }

  // ---------------------------------------------------------------- the crossing

  /** `pkcs8_p256`: PKCS#8 passes through, SEC1 is wrapped, anything else is refused. */
  method Pkcs8P256(key: PrivateKey, certPoint: Result<Bytes>) returns (r: Result<Bytes>)
    requires certPoint.Ok? ==> |certPoint.value| == 65
    ensures key.kind.Pkcs8? ==> r == Ok(key.der)
    ensures key.kind.Pkcs1? ==> r == Err(Error.Sign)
    ensures key.kind.Sec1? ==>
      (r.Ok? <==> certPoint.Ok? && exists scalar :: IsSec1(key.der, scalar))
    ensures key.kind.Sec1? && r.Ok? ==>
      exists scalar :: IsSec1(key.der, scalar) && ReadPkcs8(r.value) == Ok(EcKey(scalar, certPoint.value))
  {
    match key.kind {
      case Pkcs8 => r := Ok(key.der);
      case Pkcs1 => r := Err(Error.Sign);
      case Sec1 =>
        var scalar := Sec1PrivateScalar(key.der);
        forall s: Bytes ensures scalar == Ok(s) <==> IsSec1(key.der, s) {
          Sec1ScalarFinds(key.der, s);
        }
        if scalar.Err? {
          return Err(scalar.error);
        }
        if certPoint.Err? {
          return Err(certPoint.error);
        }
        var out := Pkcs8FromParts(scalar.value, certPoint.value);
        Pkcs8IsRead(EcKey(scalar.value, certPoint.value));
        r := Ok(out);
    }
  }
}
