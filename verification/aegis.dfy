/**
 The AEGIS-256 record seam (src/aegis.rs): nonce, associated data, inner plaintext and tag of one TLS 1.3 record.
 The cipher itself is any inverse pair; unpadding follows section 5.4 of RFC 8446.
 */
module Aegis {
  import opened Prelude

  type Octets = seq<bv8>

  const TAG_LEN := 16
  const NONCE_LEN := 12
  const MAX_FRAGMENT_LEN := 16384

  // ---------------------------------------------------------------- nonce

  /** The sequence number in network order. */
  function SequenceBytes(s: bv64): (b: Octets)
    ensures |b| == 8
  {
    [((s >> 56) & 0xFF) as bv8, ((s >> 48) & 0xFF) as bv8, ((s >> 40) & 0xFF) as bv8, ((s >> 32) & 0xFF) as bv8,
     ((s >> 24) & 0xFF) as bv8, ((s >> 16) & 0xFF) as bv8, ((s >> 8) & 0xFF) as bv8, (s & 0xFF) as bv8]
  }

  function Padded(s: bv64): (b: Octets)
    ensures |b| == NONCE_LEN
  {
    [0, 0, 0, 0] + SequenceBytes(s)
  }

  function XorByte(a: bv8, b: bv8): bv8 { a ^ b }

  function Xor(a: Octets, b: Octets): (c: Octets)
    requires |a| == |b|
    ensures |c| == |a| && forall i :: 0 <= i < |a| ==> c[i] == XorByte(a[i], b[i])
  {
    seq(|a|, i requires 0 <= i < |a| => XorByte(a[i], b[i]))
  }

  /** Section 5.3 of RFC 8446: the padded sequence number, combined with the IV. */
  function TlsNonce(iv: Octets, s: bv64): (n: Octets)
    requires |iv| == NONCE_LEN
    ensures |n| == NONCE_LEN
  {
    Xor(Padded(s), iv)
  }

  function WideNonce(iv: Octets, s: bv64): (n: Octets)
    requires |iv| == NONCE_LEN
    ensures |n| == 32
  {
    TlsNonce(iv, s) + seq(20, _ => 0)
  }

  /** `nonce32`: copied into a zeroed array. */
  method Nonce32(iv: Octets, s: bv64) returns (out: array<bv8>)
    requires |iv| == NONCE_LEN
    ensures fresh(out) && out[..] == WideNonce(iv, s)
  {
    var tls := TlsNonce(iv, s);
    out := new bv8[32](_ => 0);
    for i := 0 to NONCE_LEN
      invariant forall j :: 0 <= j < 32 ==> out[j] == if j < i then tls[j] else 0
    {
      out[i] := tls[i];
    }
  }

  lemma SequenceBytesInjective(s: bv64, t: bv64)
    requires SequenceBytes(s) == SequenceBytes(t)
    ensures s == t
  {
  }

  lemma XorInjective(p: Octets, q: Octets, k: Octets)
    requires |p| == |q| == |k| && Xor(p, k) == Xor(q, k)
    ensures p == q
  {
  }

  /** Under one IV, different sequence numbers never share a nonce. */
  lemma NoncesAreUnique(iv: Octets, s: bv64, t: bv64)
    requires |iv| == NONCE_LEN
    requires WideNonce(iv, s) == WideNonce(iv, t)
    ensures s == t
  {
    hide SequenceBytes, Xor;
    assert TlsNonce(iv, s) == WideNonce(iv, s)[..NONCE_LEN] && TlsNonce(iv, t) == WideNonce(iv, t)[..NONCE_LEN];
    XorInjective(Padded(s), Padded(t), iv);
    assert SequenceBytes(s) == Padded(s)[4..] && SequenceBytes(t) == Padded(t)[4..];
    SequenceBytesInjective(s, t);
  }

  /** The eight bytes, most significant first, are the sequence number. */
  lemma SequenceReadsBack(s: bv64)
    ensures var b := SequenceBytes(s);
            (((b[0] as bv64) << 56) | ((b[1] as bv64) << 48) | ((b[2] as bv64) << 40) | ((b[3] as bv64) << 32)
             | ((b[4] as bv64) << 24) | ((b[5] as bv64) << 16) | ((b[6] as bv64) << 8) | (b[7] as bv64)) == s
  {
  }

  /** Where everything stands: the IV, its last eight bytes combined with the sequence number, then twenty zeros. */
  lemma NonceLayout(iv: Octets, s: bv64, i: nat)
    requires |iv| == 12 && i < 32
    ensures WideNonce(iv, s)[i] == if i < 4 then iv[i] else if i < 12 then iv[i] ^ SequenceBytes(s)[i - 4] else 0
  {
    hide SequenceBytes;
  }

  // ---------------------------------------------------------------- the cipher, ideally

  datatype Aead = Aead(
    seal: (Octets, Octets, Octets, Octets) -> (Octets, Octets),
    open: (Octets, Octets, Octets, Octets, Octets) -> Option<Octets>)

  /** Opening with the same key, nonce and associated data undoes sealing; lengths are kept and the tag has 16 bytes. */
  ghost predicate IsAead(c: Aead) {
    forall key, nonce, aad, plain ::
      var (ct, tag) := c.seal(key, nonce, aad, plain);
      |ct| == |plain| && |tag| == TAG_LEN && c.open(key, nonce, aad, ct, tag) == Some(plain)
  }

  /** Section 5.2 of RFC 8446: type, legacy version and the 16-bit record length. */
  function Tls13Aad(len: nat): Octets {
    [0x17, 0x03, 0x03, (len / 256 % 256) as bv8, (len % 256) as bv8]
  }

  /** Type 23 and version 3.3; the last two bytes, most significant first, are the digits of the length to base 256. */
  lemma AadNamesTheLength(len: nat) returns (high: nat, low: nat)
    requires len < 65536
    ensures high < 256 && low < 256 && 256 * high + low == len
    ensures Tls13Aad(len) == [23, 3, 3, high as bv8, low as bv8]
  {
    high, low := len / 256, len % 256;
  }

  function EncryptedPayloadLen(payloadLen: nat): nat { payloadLen + 1 + TAG_LEN }

  // ---------------------------------------------------------------- inner plaintext

  /** The content and the last nonzero byte, which is the content type; zeros after it are padding. */
  function Unpadded(p: Octets): Option<(Octets, bv8)> {
    if p == [] then None
    else if p[|p| - 1] == 0 then Unpadded(p[..|p| - 1])
    else Some((p[..|p| - 1], p[|p| - 1]))
  }

  function InnerPlaintext(p: Octets): Result<(Octets, bv8)> {
    if |p| > MAX_FRAGMENT_LEN + 1 then Err(OversizedRecord)
    else
      var inner := Unpadded(p);
      if inner.None? then Err(IllegalInnerPlaintext)
      else if |inner.value.0| > MAX_FRAGMENT_LEN then Err(OversizedRecord)
      else Ok(inner.value)
  }

  /** The content, its type, and nothing but zeros after it. */
  predicate PaddedTo(p: Octets, content: Octets, typ: bv8) {
    && |content| < |p| && p[..|content|] == content && p[|content|] == typ
    && forall i :: |content| < i < |p| ==> p[i] == 0
  }

  predicate AllZeros(p: Octets) { forall i :: 0 <= i < |p| ==> p[i] == 0 }

  lemma {:induction false} UnpaddedExactly(p: Octets, content: Octets, typ: bv8)
    ensures Unpadded(p) == Some((content, typ)) <==> typ != 0 && PaddedTo(p, content, typ)
    ensures Unpadded(p).None? <==> AllZeros(p)
  {
    if p != [] && p[|p| - 1] == 0 {
      var q := p[..|p| - 1];
      UnpaddedExactly(q, content, typ);
      assert |content| <= |q| ==> p[..|content|] == q[..|content|];
    } else if p != [] {
      assert PaddedTo(p, content, typ) ==> |content| == |p| - 1;
    }
  }

  /** Over all decrypted records: content and type, whatever the padding; refused are those too long or all zeros. */
  lemma InnerPlaintextExactly(p: Octets, content: Octets, typ: bv8)
    ensures InnerPlaintext(p) == Ok((content, typ)) <==> |p| <= 16385 && typ != 0 && PaddedTo(p, content, typ)
    ensures |p| > 16385 ==> InnerPlaintext(p) == Err(OversizedRecord)
    ensures |p| <= 16385 ==> (InnerPlaintext(p).Ok? <==> !AllZeros(p))
    ensures |p| <= 16385 && AllZeros(p) ==> InnerPlaintext(p) == Err(IllegalInnerPlaintext)
  {
    UnpaddedExactly(p, content, typ);
    var inner := Unpadded(p);
    if inner.Some? {
      UnpaddedExactly(p, inner.value.0, inner.value.1);
    }
  }

  // ---------------------------------------------------------------- records

  function Sealed(c: Aead, key: Octets, iv: Octets, payload: Octets, typ: bv8, s: bv64): Octets
    requires |iv| == NONCE_LEN
  {
    var (ct, tag) := c.seal(key, WideNonce(iv, s), Tls13Aad(EncryptedPayloadLen(|payload|)), payload + [typ]);
    ct + tag
  }

  function Opened(c: Aead, key: Octets, iv: Octets, record: Octets, s: bv64): Result<(Octets, bv8)>
    requires |iv| == NONCE_LEN
  {
    if |record| < TAG_LEN then Err(Decrypt)
    else
      var cut := |record| - TAG_LEN;
      var plain := c.open(key, WideNonce(iv, s), Tls13Aad(|record|), record[..cut], record[cut..]);
      if plain.None? then Err(Decrypt) else InnerPlaintext(plain.value)
  }

  /** What is under the seal: the payload with its type, the nonce, and the length of the record itself. */
  lemma SealedOverItsLength(c: Aead, key: Octets, iv: Octets, payload: Octets, typ: bv8, s: bv64)
    requires IsAead(c) && |iv| == NONCE_LEN
    ensures var record := Sealed(c, key, iv, payload, typ, s);
            var (ct, tag) := c.seal(key, WideNonce(iv, s), Tls13Aad(|record|), payload + [typ]);
            record == ct + tag && |ct| == |payload| + 1 && |tag| == 16
  {
    var (ct, tag) := c.seal(key, WideNonce(iv, s), Tls13Aad(|payload| + 17), payload + [typ]);
    assert c.open(key, WideNonce(iv, s), Tls13Aad(|payload| + 17), ct, tag) == Some(payload + [typ]);
  }

  /** A record without room for a tag, or that the cipher does not open, is refused as such. */
  lemma RefusedRecord(c: Aead, key: Octets, iv: Octets, record: Octets, s: bv64)
    requires |iv| == NONCE_LEN
    requires |record| >= 16 ==>
               c.open(key, WideNonce(iv, s), Tls13Aad(|record|), record[..|record| - 16], record[|record| - 16..]).None?
    ensures Opened(c, key, iv, record, s) == Err(Decrypt)
  {
  }

  /** Whatever a peer has sealed over the length of its record is judged by what was under the seal. */
  lemma SealedIsOpened(c: Aead, key: Octets, iv: Octets, plain: Octets, s: bv64)
    requires IsAead(c) && |iv| == NONCE_LEN
    ensures var (ct, tag) := c.seal(key, WideNonce(iv, s), Tls13Aad(|plain| + 16), plain);
            Opened(c, key, iv, ct + tag, s) == InnerPlaintext(plain)
  {
    var (ct, tag) := c.seal(key, WideNonce(iv, s), Tls13Aad(|plain| + 16), plain);
    assert c.open(key, WideNonce(iv, s), Tls13Aad(|plain| + 16), ct, tag) == Some(plain);
    var record := ct + tag;
    assert record[..|ct|] == ct && record[|ct|..] == tag;
  }

  /** A peer may pad: content, type and any number of zeros open to content and type, up to the size of a fragment. */
  lemma PaddedRecordOpens(c: Aead, key: Octets, iv: Octets, content: Octets, typ: bv8, zeros: nat, s: bv64)
    requires IsAead(c) && |iv| == NONCE_LEN && typ != 0 && |content| + 1 + zeros <= 16385
    ensures var plain := content + [typ] + seq(zeros, _ => 0);
            var (ct, tag) := c.seal(key, WideNonce(iv, s), Tls13Aad(|plain| + 16), plain);
            Opened(c, key, iv, ct + tag, s) == Ok((content, typ))
  {
    var plain := content + [typ] + seq(zeros, _ => 0);
    SealedIsOpened(c, key, iv, plain, s);
    assert plain[..|content|] == content;
    InnerPlaintextExactly(plain, content, typ);
  }

  /**
   The seam: at the same key, IV and sequence number, what was encrypted comes back exactly when it is a legal
   fragment, whatever bytes the payload ends in.
   */
  lemma RecordRoundTrip(c: Aead, key: Octets, iv: Octets, payload: Octets, typ: bv8, s: bv64)
    requires IsAead(c) && |iv| == NONCE_LEN
    ensures var record := Sealed(c, key, iv, payload, typ, s);
            && |record| == EncryptedPayloadLen(|payload|)
            && (Opened(c, key, iv, record, s) == Ok((payload, typ))
                <==> typ != 0 && |payload| <= MAX_FRAGMENT_LEN)
  {
    var plain := payload + [typ];
    SealedOverItsLength(c, key, iv, payload, typ, s);
    SealedIsOpened(c, key, iv, plain, s);
    assert plain[..|payload|] == payload;
    InnerPlaintextExactly(plain, payload, typ);
  }

  // ---------------------------------------------------------------- the objects

  /** A record body on its way through the record layer. */
  class RecordBuffer {
    var payload: Octets

    constructor (payload: Octets)
      ensures this.payload == payload
    {
      this.payload := payload;
    }
  }

  class Encrypter {
    const cipher: Aead
    const key: Octets
    const iv: Octets

    constructor (cipher: Aead, key: Octets, iv: Octets)
      ensures this.cipher == cipher && this.key == key && this.iv == iv
    {
      this.cipher, this.key, this.iv := cipher, key, iv;
    }

    /** Content, type byte, encryption in place, tag. */
    method Encrypt(payload: Octets, typ: bv8, s: bv64) returns (record: RecordBuffer)
      requires |iv| == NONCE_LEN
      ensures fresh(record) && record.payload == Sealed(cipher, key, iv, payload, typ, s)
    {
      var totalLen := EncryptedPayloadLen(|payload|);
      record := new RecordBuffer(payload);
      record.payload := record.payload + [typ];
      var aad := Tls13Aad(totalLen);
      var nonce := Nonce32(iv, s);
      var (ct, tag) := cipher.seal(key, nonce[..], aad, record.payload);
      record.payload := ct;
      record.payload := record.payload + tag;
    }
  }

  class Decrypter {
    const cipher: Aead
    const key: Octets
    const iv: Octets

    constructor (cipher: Aead, key: Octets, iv: Octets)
      ensures this.cipher == cipher && this.key == key && this.iv == iv
    {
      this.cipher, this.key, this.iv := cipher, key, iv;
    }

    /** Splits off the tag, decrypts in place, truncates and strips the padding. */
    method DecryptRecord(msg: RecordBuffer, s: bv64) returns (typ: Result<bv8>)
      requires |iv| == NONCE_LEN
      modifies msg
      ensures var spec := Opened(cipher, key, iv, old(msg.payload), s);
              && (spec.Ok? ==> typ == Ok(spec.value.1) && msg.payload == spec.value.0)
              && (spec.Err? ==> typ == Err(spec.error))
    {
      var len := |msg.payload|;
      if len < TAG_LEN {
        return Err(Decrypt);
      }
      var aad := Tls13Aad(len);
      var ct, tag := msg.payload[..len - TAG_LEN], msg.payload[len - TAG_LEN..];
      var nonce := Nonce32(iv, s);
      var plain := cipher.open(key, nonce[..], aad, ct, tag);
      if plain.None? {
        return Err(Decrypt);
      }
      msg.payload := plain.value;
      if |msg.payload| > MAX_FRAGMENT_LEN + 1 {
        return Err(OversizedRecord);
      }
      ghost var padded := msg.payload;
      while msg.payload != [] && msg.payload[|msg.payload| - 1] == 0
        invariant Unpadded(msg.payload) == Unpadded(padded)
        decreases |msg.payload|
      {
        msg.payload := msg.payload[..|msg.payload| - 1];
      }
      if msg.payload == [] {
        return Err(IllegalInnerPlaintext);
      }
      var last := msg.payload[|msg.payload| - 1];
      msg.payload := msg.payload[..|msg.payload| - 1];
      if |msg.payload| > MAX_FRAGMENT_LEN {
        return Err(OversizedRecord);
      }
      typ := Ok(last);
    }
  }
}
