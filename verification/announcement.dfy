/**
 Announcements and receipts (src/announcement.rs), over ideal signatures.

 A certificate is represented by what the protocol reads from its DER form: its SHA-256 fingerprint and
 its P-256 public key, if it has one. Two different certificates may share a fingerprint here; results that
 rest on collision-freeness say so in their hypotheses. A signature is the pair of key and signed bytes.
 */
module Announcements {
  import opened Prelude
  import opened Canonical
  import opened Text

  type Fp = s: string | IsFingerprint(s) witness seq(64, _ => '0')

  type Key = nat

  datatype Cert = Cert(fp: Fp, key: Option<Key>)

  /** Fingerprint and private key of one generation, as the announcer holds it. */
  datatype Held = Held(fp: string, key: Key)

  datatype Sig = Sig(key: Key, message: Bytes)

  function VerifySig(key: Option<Key>, message: Bytes, sig: Sig): Result<Unit> {
    if key == Some(sig.key) && sig.message == message then Ok(Unit) else Err(ProofInvalid)
  }

  // ---------------------------------------------------------------- PEM to certificate

  /** What the PEM reader yields for a text: one item per block, `None` for a malformed one. */
  type Pem = seq<Option<Cert>>

  function PemOf(c: Cert): Pem { [Some(c)] }

  /** Exactly one well-formed certificate block, or nothing. */
  function CertOf(pem: Pem): Result<Cert> {
    if |pem| == 1 && pem[0].Some? then Ok(pem[0].value) else Err(Error.Pem)
  }

  /** `der_from_pem`: one pass over the blocks. */
  method DerFromPem(pem: Pem) returns (r: Result<Cert>)
    ensures r == CertOf(pem)
  {
    var found: Option<Cert> := None;
    for i := 0 to |pem|
      invariant i <= 1
      invariant found == if i == 0 then None else pem[0]
      invariant i == 1 ==> found.Some?
    {
      if pem[i].None? {
        return Err(Error.Pem);
      }
      if found.Some? {
        return Err(Error.Pem);
      }
      found := pem[i];
    }
    r := if found.Some? then Ok(found.value) else Err(Error.Pem);
  }

  // ---------------------------------------------------------------- the announcement

  /** `P` is the certificate text and `S` a signature; the JSON forms use other choices than the protocol. */
  datatype AnnouncementOf<P, S> = Announcement(
    announcer: string,
    prevFp: Option<string>,
    currFp: string,
    newFp: string,
    newCertPem: P,
    sentAt: int,
    sigPrev: Option<S>,
    sigCurr: S)
  {
    function Canonical(): Result<Bytes> { RotateV2(announcer, prevFp, currFp, newFp, sentAt) }
  }

  /** What every deserialized announcement satisfies, whatever its certificate text and signatures. */
  predicate IsWellFormed<P, S>(k: AnnouncementOf<P, S>) {
    && IsComponentName(k.announcer)
    && IsFingerprint(k.currFp) && IsFingerprint(k.newFp)
    && (k.prevFp.Some? ==> IsFingerprint(k.prevFp.value))
    && (k.prevFp.Some? <==> k.sigPrev.Some?)
  }

  type Announcement = AnnouncementOf<Pem, Sig>

  /** `Announcement::new`: signs with the current key and, when there is one, with the previous key. */
  function Announce(announcer: string, prev: Option<Held>, curr: Held, pem: Pem, sentAt: int)
    : Result<Announcement>
  {
    var cert :- CertOf(pem);
    var prevFp := if prev.Some? then Some(prev.value.fp) else None;
    var message :- RotateV2(announcer, prevFp, curr.fp, cert.fp, sentAt);
    var sigPrev := if prev.Some? then Some(Sig(prev.value.key, message)) else None;
    Ok(Announcement(announcer, prevFp, curr.fp, cert.fp, pem, sentAt, sigPrev, Sig(curr.key, message)))
  }

  /** `Announcement::verify` against the receiver's own previous and current certificate. */
  function Verify(k: Announcement, prev: Option<Cert>, curr: Cert): Result<Unit> {
    var cert :- CertOf(k.newCertPem);
    if cert.fp != k.newFp then Err(ProofInvalid)
    else if curr.fp != k.currFp then Err(Chain)
    else
      var message :- k.Canonical();
      var _ :- VerifySig(curr.key, message, k.sigCurr);
      match (prev, k.prevFp, k.sigPrev)
      case (Some(c), Some(fp), Some(sig)) =>
        if c.fp != fp then Err(Chain) else VerifySig(c.key, message, sig)
      case (Some(_), _, _) => Err(ProofInvalid)
      case (None, None, None) => Ok(Unit)
      case (None, Some(_), Some(_)) => Ok(Unit)
      case (None, _, _) => Err(ProofInvalid)
  }

  // ---------------------------------------------------------------- the receipt

  datatype ReceiptOf<S> = Receipt(acker: string, announcer: string, newFp: string, sentAt: int, sig: S)
  {
    function Canonical(): Result<Bytes> { RotateAckV2(acker, announcer, newFp, sentAt) }
  }

  type Receipt = ReceiptOf<Sig>

  /** `Receipt::new`, signed with the acker's service key. */
  function Acknowledge(acker: string, announcer: string, newFp: string, sentAt: int, seed: Key)
    : Result<Receipt>
  {
    var message :- RotateAckV2(acker, announcer, newFp, sentAt);
    Ok(Receipt(acker, announcer, newFp, sentAt, Sig(seed, message)))
  }

  /** `Receipt::verify`: the right rotation, and the pinned key. */
  function VerifyReceipt(r: Receipt, pinned: Key, expected: string): Result<Unit> {
    if r.newFp != expected then Err(ProofInvalid)
    else
      var message :- r.Canonical();
      VerifySig(Some(pinned), message, r.sig)
  }

  // ---------------------------------------------------------------- what the two sides agree on

  /**
   A well-named announcer's announcement is accepted by exactly the receivers on its current generation that
   either hold the same previous generation or hold none at all.
   */
  lemma HonestAnnouncementVerifies(
    name: string, prev: Option<Cert>, prevKey: Key, curr: Cert, currKey: Key, newCert: Cert, sentAt: int,
    seenPrev: Option<Cert>, seen: Cert)
    requires IsComponentName(name)
    requires curr.key == Some(currKey) && (prev.Some? ==> prev.value.key == Some(prevKey))
    requires seen.fp == curr.fp ==> seen == curr
    requires seenPrev.Some? && prev.Some? && seenPrev.value.fp == prev.value.fp ==> seenPrev == prev
    ensures var held := if prev.Some? then Some(Held(prev.value.fp, prevKey)) else None;
            var r := Announce(name, held, Held(curr.fp, currKey), PemOf(newCert), sentAt);
            && r.Ok?
            && (Verify(r.value, seenPrev, seen).Ok?
                <==> seen == curr && (seenPrev.None? || seenPrev == prev))
  {
  }

  /** A receipt is accepted for exactly the announcement and the key it was made for. */
  lemma HonestReceiptVerifies(acker: string, announcer: string, newFp: string, sentAt: int, seed: Key,
                              pinned: Key, expected: string)
    requires IsComponentName(acker) && IsComponentName(announcer) && IsFingerprint(newFp)
    ensures var r := Acknowledge(acker, announcer, newFp, sentAt, seed);
            r.Ok? && (VerifyReceipt(r.value, pinned, expected).Ok? <==> pinned == seed && expected == newFp)
  {
  }

  /** What `new` makes of its arguments: every field as given, and one signature per generation over that very text. */
  lemma AnnounceExactly(name: string, prev: Option<Held>, curr: Held, pem: Pem, sentAt: int, k: Announcement)
    ensures Announce(name, prev, curr, pem, sentAt) == Ok(k) <==>
              && CertOf(pem).Ok? && k.newFp == CertOf(pem).value.fp
              && k.announcer == name && k.currFp == curr.fp && k.newCertPem == pem && k.sentAt == sentAt
              && k.prevFp == (if prev.Some? then Some(prev.value.fp) else None)
              && var m := Rotate(name, k.prevFp, curr.fp, k.newFp, sentAt);
                 var message := Utf8(Signable(m));
                 && FieldsOk(m) && k.sigCurr == Sig(curr.key, message)
                 && k.sigPrev == if prev.Some? then Some(Sig(prev.value.key, message)) else None
  {
    hide Signable, FieldsOk, Utf8, RotateV2;
    if CertOf(pem).Ok? {
      var prevFp := if prev.Some? then Some(prev.value.fp) else None;
      RotateResult(name, prevFp, curr.fp, CertOf(pem).value.fp, sentAt);
    }
  }

  lemma AcknowledgeExactly(acker: string, announcer: string, newFp: string, sentAt: int, seed: Key, r: Receipt)
    ensures Acknowledge(acker, announcer, newFp, sentAt, seed) == Ok(r) <==>
              var m := RotateAck(acker, announcer, newFp, sentAt);
              FieldsOk(m) && r == Receipt(acker, announcer, newFp, sentAt, Sig(seed, Utf8(Signable(m))))
  {
    hide Signable, FieldsOk, Utf8, RotateAckV2;
    RotateAckResult(acker, announcer, newFp, sentAt);
  }

  /**
   Over all receipts: accepted are exactly those that the holder of the pinned key would make, with these very fields,
   for the expected certificate.
   */
  lemma ReceiptVerifiesExactly(r: Receipt, pinned: Key, expected: string)
    ensures VerifyReceipt(r, pinned, expected).Ok?
            <==> r.newFp == expected && Acknowledge(r.acker, r.announcer, r.newFp, r.sentAt, pinned) == Ok(r)
    ensures VerifyReceipt(r, pinned, expected).Err? ==>
              VerifyReceipt(r, pinned, expected).error
              == if r.newFp == expected && r.Canonical().Err? then Params else ProofInvalid
  {
    RotateAckResult(r.acker, r.announcer, r.newFp, r.sentAt);
  }

  /** One signature is good for one receipt: no field can be changed under it. */
  lemma OneSignatureOneReceipt(r: Receipt, s: Receipt, a: Key, b: Key, x: string, y: string)
    requires VerifyReceipt(r, a, x).Ok? && VerifyReceipt(s, b, y).Ok? && r.sig == s.sig
    ensures r == s
  {
    CanonicalInjective(RotateAck(r.acker, r.announcer, r.newFp, r.sentAt),
                       RotateAck(s.acker, s.announcer, s.newFp, s.sentAt), r.sig.message);
  }

  /**
   Over all announcements, for a receiver with a previous generation: accepted are exactly those that the holder of both
   generation keys would make, with these very fields.
   */
  lemma DoubleSignedVerifiesExactly(k: Announcement, prev: Cert, curr: Cert)
    ensures Verify(k, Some(prev), curr).Ok?
            <==> prev.key.Some? && curr.key.Some?
                 && Announce(k.announcer, Some(Held(prev.fp, prev.key.value)), Held(curr.fp, curr.key.value),
                             k.newCertPem, k.sentAt) == Ok(k)
  {
  }

  /**
   And for a receiver without one: those the holder of the current key would make, at the first rotation or at a later
   whose second signature this receiver cannot check.
   */
  lemma SingleSignedVerifiesExactly(k: Announcement, curr: Cert)
    ensures Verify(k, None, curr).Ok?
            <==> curr.key.Some? && (k.prevFp.Some? <==> k.sigPrev.Some?)
                 && var prev := if k.prevFp.Some? then Some(Held(k.prevFp.value, 0)) else None;
                    var r := Announce(k.announcer, prev, Held(curr.fp, curr.key.value), k.newCertPem, k.sentAt);
                    r.Ok? && r.value.(sigPrev := k.sigPrev) == k
  {
  }

  /** What a refused announcement is refused for: its text, the chain it starts from, its fields, or a signature. */
  lemma RefusedFor(k: Announcement, prev: Option<Cert>, curr: Cert)
    requires Verify(k, prev, curr).Err?
    ensures var e := Verify(k, prev, curr).error;
            var mine := prev.Some? && k.prevFp.Some? && k.sigPrev.Some? && prev.value.fp != k.prevFp.value;
            && (e == Error.Pem <==> CertOf(k.newCertPem).Err?)
            && (e == Params <==>
                  CertOf(k.newCertPem).Ok? && CertOf(k.newCertPem).value.fp == k.newFp && curr.fp == k.currFp
                  && k.Canonical().Err?)
            && (e == Chain <==>
                  CertOf(k.newCertPem).Ok? && CertOf(k.newCertPem).value.fp == k.newFp
                  && (curr.fp != k.currFp
                      || (k.Canonical().Ok? && k.sigCurr.message == k.Canonical().value
                          && curr.key == Some(k.sigCurr.key) && mine)))
            && e in {Error.Pem, Params, Chain, ProofInvalid}
  {
    RotateResult(k.announcer, k.prevFp, k.currFp, k.newFp, k.sentAt);
  }

  /** A signature that verifies on two announcements fixes every signed field (the bytes are injective). */
  lemma SignedFieldsAgree(k: Announcement, j: Announcement, message: Bytes)
    requires k.Canonical() == Ok(message) && j.Canonical() == Ok(message)
    ensures k.announcer == j.announcer && k.prevFp == j.prevFp && k.currFp == j.currFp
    ensures k.newFp == j.newFp && k.sentAt == j.sentAt
  {
    CanonicalInjective(Rotate(k.announcer, k.prevFp, k.currFp, k.newFp, k.sentAt),
                       Rotate(j.announcer, j.prevFp, j.currFp, j.newFp, j.sentAt), message);
  }
}
