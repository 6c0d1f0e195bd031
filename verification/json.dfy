/**
 The serialized forms (src/announcement.rs:234-292 and 616-669, src/approval.rs:138-171, src/signature.rs:43-48):
 records of JSON fields with the signatures in hex. The JSON text itself is not modelled.
 */
module JsonForms {
  import opened Prelude
  import opened Text
  import opened Canonical
  import opened Announcements
  import opened Approvals

  /** The cap on an announced certificate, in bytes. */
  const MAX_CERT_PEM_LEN := 16 * 1024

  /** Lowercase hex, and never empty. */
  function FromHex(s: string): Result<Bytes> {
    if s == "" then Err(Proof) else HexDecode(s)
  }

  /** Hex of a non-empty byte string has one spelling. */
  lemma HexHasOneSpelling(b: Bytes, s: string)
    ensures FromHex(s) == Ok(b) <==> b != [] && s == HexEncode(b)
    ensures FromHex(s).Err? ==> FromHex(s).error == Proof
  {
    HexDecodeEncode(b);
    HexRefusals(s);
    if FromHex(s) == Ok(b) {
      HexEncodeDecode(s);
    }
  }

  function FromHexOption(s: Option<string>): Result<Option<Bytes>> {
    if s.None? then Ok(None)
    else
      var b :- FromHex(s.value);
      Ok(Some(b))
  }

  function HexEncodeOption(b: Option<Bytes>): Option<string> {
    if b.None? then None else Some(HexEncode(b.value))
  }

  // ---------------------------------------------------------------- announcements

  type WireAnnouncement = AnnouncementOf<string, Bytes>

  datatype AnnouncementJson = AnnouncementJson(
    v: string,
    announcer: string,
    prevFingerprint: Option<string>,
    currFingerprint: string,
    newFingerprint: string,
    newCertPem: string,
    sentAt: int,
    sigPrev: Option<string>,
    sigCurr: string)

  function AnnouncementToJson(k: WireAnnouncement): AnnouncementJson {
    AnnouncementJson(ROTATE_V2, k.announcer, k.prevFp, k.currFp, k.newFp, k.newCertPem, k.sentAt,
                     HexEncodeOption(k.sigPrev), HexEncode(k.sigCurr))
  }

  function AnnouncementFromJson(j: AnnouncementJson): Result<WireAnnouncement> {
    if j.v != ROTATE_V2 then Err(Proof)
    else
      var _ :- RequireComponentName(j.announcer);
      if |Utf8(j.newCertPem)| > MAX_CERT_PEM_LEN then Err(Params)
      else
        var _ :- RequireFingerprint(j.currFingerprint);
        var _ :- RequireFingerprint(j.newFingerprint);
        var _ :- (if j.prevFingerprint.Some? then RequireFingerprint(j.prevFingerprint.value) else Ok(Unit));
        if j.prevFingerprint.Some? != j.sigPrev.Some? then Err(Proof)
        else
          var sigPrev :- FromHexOption(j.sigPrev);
          var sigCurr :- FromHex(j.sigCurr);
          Ok(Announcement(j.announcer, j.prevFingerprint, j.currFingerprint, j.newFingerprint, j.newCertPem,
                          j.sentAt, sigPrev, sigCurr))
  }

  /** The announcements that can travel: well-formed, with non-empty signatures and a certificate within the cap. */
  predicate CanTravel(k: WireAnnouncement) {
    && IsWellFormed(k)
    && |Utf8(k.newCertPem)| <= 16384
    && (k.sigPrev.Some? ==> k.sigPrev.value != [])
    && k.sigCurr != []
  }

  /**
   Reading and writing are inverse on exactly the announcements that can travel: a JSON form is accepted as `k` if and
   only if it is the form `k` is written as.
   */
  lemma AnnouncementHasOneSpelling(j: AnnouncementJson, k: WireAnnouncement)
    ensures AnnouncementFromJson(j) == Ok(k) <==> CanTravel(k) && j == AnnouncementToJson(k)
  {
    hide Utf8, HexEncode, HexDecode, FromHex, IsFingerprint, IsComponentName;
    HexHasOneSpelling(k.sigCurr, j.sigCurr);
    if j.sigPrev.Some? && k.sigPrev.Some? {
      HexHasOneSpelling(k.sigPrev.value, j.sigPrev.value);
    }
  }

  /** A refused form has an illegal field or too long a certificate, or it is no proof: version, pairing or hex. */
  lemma AnnouncementRefusedFor(j: AnnouncementJson)
    requires AnnouncementFromJson(j).Err?
    ensures AnnouncementFromJson(j).error
            == if j.v == "nettls-rotate/v2"
                  && (|Utf8(j.newCertPem)| > 16384
                      || !FieldsOk(Rotate(j.announcer, j.prevFingerprint, j.currFingerprint, j.newFingerprint,
                                          j.sentAt)))
               then Params else Proof
  {
    hide Utf8, HexDecode, HexEncode, FromHex, IsFingerprint, IsComponentName;
    HexHasOneSpelling([], j.sigCurr);
    if j.sigPrev.Some? {
      HexHasOneSpelling([], j.sigPrev.value);
    }
  }

  /** A certificate the announcer itself managed to announce is refused on arrival exactly when it is over the cap. */
  lemma OversizedCertificateIsRefused(k: WireAnnouncement)
    requires IsWellFormed(k) && (k.sigPrev.Some? ==> k.sigPrev.value != []) && k.sigCurr != []
    ensures AnnouncementFromJson(AnnouncementToJson(k))
            == if |Utf8(k.newCertPem)| <= 16384 then Ok(k) else Err(Params)
  {
    AnnouncementHasOneSpelling(AnnouncementToJson(k), k);
  }

  /** The field checks are exactly what canonical bytes need, and the two `prev` fields come together. */
  lemma WellFormedHasCanonical<P, S>(k: AnnouncementOf<P, S>)
    ensures IsWellFormed(k) <==> k.Canonical().Ok? && (k.prevFp.Some? <==> k.sigPrev.Some?)
  {
  }

  /** What `Announcement::new` builds is well-formed. */
  lemma AnnouncedIsWellFormed(name: string, prev: Option<Held>, curr: Held, pem: Pem, sentAt: int)
    requires Announce(name, prev, curr, pem, sentAt).Ok?
    ensures IsWellFormed(Announce(name, prev, curr, pem, sentAt).value)
  {
  }

  // ---------------------------------------------------------------- receipts

  type WireReceipt = ReceiptOf<Bytes>

  datatype ReceiptJson = ReceiptJson(
    v: string, acker: string, announcer: string, newFingerprint: string, sentAt: int, sig: string)

  function ReceiptToJson(r: WireReceipt): ReceiptJson {
    ReceiptJson(ROTATE_ACK_V2, r.acker, r.announcer, r.newFp, r.sentAt, HexEncode(r.sig))
  }

  function ReceiptFromJson(j: ReceiptJson): Result<WireReceipt> {
    if j.v != ROTATE_ACK_V2 then Err(Proof)
    else
      var _ :- RequireComponentName(j.acker);
      var _ :- RequireComponentName(j.announcer);
      var _ :- RequireFingerprint(j.newFingerprint);
      var sig :- FromHex(j.sig);
      Ok(Receipt(j.acker, j.announcer, j.newFingerprint, j.sentAt, sig))
  }

  /** A receipt form is accepted as `r` if and only if `r` has canonical bytes, is signed, and is written that way. */
  lemma ReceiptHasOneSpelling(j: ReceiptJson, r: WireReceipt)
    ensures ReceiptFromJson(j) == Ok(r) <==> r.Canonical().Ok? && r.sig != [] && j == ReceiptToJson(r)
  {
    hide HexEncode, HexDecode, FromHex, IsFingerprint, IsComponentName, Assemble;
    HexHasOneSpelling(r.sig, j.sig);
  }

  lemma ReceiptRefusedFor(j: ReceiptJson)
    requires ReceiptFromJson(j).Err?
    ensures ReceiptFromJson(j).error
            == if j.v == "nettls-rotate-ack/v2"
                  && !FieldsOk(RotateAck(j.acker, j.announcer, j.newFingerprint, j.sentAt))
               then Params else Proof
  {
    hide HexDecode, HexEncode, FromHex, IsFingerprint, IsComponentName;
    HexHasOneSpelling([], j.sig);
  }

  // ---------------------------------------------------------------- approvals

  type WireApproval = ApprovalOf<Bytes>

  datatype ApprovalJson = ApprovalJson(
    v: string, peer: string, fingerprint: string, approvedBy: string, timestamp: int, keyId: string, sig: string)

  function ApprovalToJson(a: WireApproval): ApprovalJson {
    ApprovalJson(APPROVE_V1, a.peer, a.fingerprint, a.approvedBy, a.timestamp, a.keyId, HexEncode(a.sig))
  }

  function ApprovalFromJson(j: ApprovalJson): Result<WireApproval> {
    if j.v != APPROVE_V1 then Err(Proof)
    else
      var _ :- RequireComponentName(j.peer);
      var _ :- RequireFingerprint(j.fingerprint);
      var _ :- RequireName(j.approvedBy, 64);
      var _ :- RequireName(j.keyId, 64);
      var sig :- FromHex(j.sig);
      Ok(OperatorApproval(j.peer, j.fingerprint, j.approvedBy, j.timestamp, j.keyId, sig))
  }

  /** The same for approvals; `key_id`, which is not signed, has its own rule. */
  lemma ApprovalHasOneSpelling(j: ApprovalJson, a: WireApproval)
    ensures ApprovalFromJson(j) == Ok(a)
            <==> a.CanonicalBytes().Ok? && IsName(a.keyId, 64) && a.sig != [] && j == ApprovalToJson(a)
  {
    hide HexEncode, HexDecode, FromHex, IsFingerprint, IsComponentName, Assemble;
    HexHasOneSpelling(a.sig, j.sig);
  }

  lemma ApprovalRefusedFor(j: ApprovalJson)
    requires ApprovalFromJson(j).Err?
    ensures ApprovalFromJson(j).error
            == if j.v == "nettls-approve/v1"
                  && (!FieldsOk(Approval(j.peer, j.fingerprint, j.approvedBy, j.timestamp)) || !IsName(j.keyId, 64))
               then Params else Proof
  {
    hide HexDecode, HexEncode, FromHex, IsFingerprint, IsComponentName, IsName;
    HexHasOneSpelling([], j.sig);
  }
}
