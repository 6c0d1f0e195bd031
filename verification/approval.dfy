/** The operator's approval and the one verification path for recognitions (src/approval.rs), over ideal signatures. */
module Approvals {
  import opened Prelude
  import opened Text
  import opened Canonical
  import opened Announcements

  datatype ApprovalOf<S> = OperatorApproval(
    peer: string,
    fingerprint: string,
    approvedBy: string,
    timestamp: int,
    keyId: string,
    sig: S)
  {
    /** `key_id` is not part of the signed bytes. */
    function CanonicalBytes(): Result<Bytes> { ApproveV1(peer, fingerprint, approvedBy, timestamp) }
  }

  type SignedApproval = ApprovalOf<Sig>

  /** `Approval::new`. */
  function Sign(peer: string, fingerprint: string, approvedBy: string, timestamp: int, keyId: string, seed: Key)
    : Result<SignedApproval>
  {
    var message :- ApproveV1(peer, fingerprint, approvedBy, timestamp);
    var _ :- RequireName(keyId, 64);
    Ok(OperatorApproval(peer, fingerprint, approvedBy, timestamp, keyId, Sig(seed, message)))
  }

  /** `Approval::verify` against the call site's key registry. */
  function VerifyApproval(a: SignedApproval, keys: map<string, Key>): Result<Unit> {
    if a.keyId !in keys then Err(Chain)
    else
      var message :- a.CanonicalBytes();
      VerifySig(Some(keys[a.keyId]), message, a.sig)
  }

  datatype Recognition = Operator(approval: SignedApproval) | Schedule(announcement: Announcement)
  {
    function Fingerprint(): string {
      if Operator? then approval.fingerprint else announcement.newFp
    }

    /** The signature that ties this recognition to the key the receiver already holds. */
    function Signature(): Sig {
      if Operator? then approval.sig else announcement.sigCurr
    }
  }

  /** What the receiver brings: its key registry, and its own generations if it has any. */
  datatype Context = Context(keys: map<string, Key>, previous: Option<Cert>, current: Option<Cert>)

  function VerifyRecognition(r: Recognition, c: Context): Result<Unit> {
    match r
    case Operator(a) => VerifyApproval(a, c.keys)
    case Schedule(k) => if c.current.None? then Err(Chain) else Verify(k, c.previous, c.current.value)
  }

  /** An approval holds exactly where its key identifier is registered with the key that signed it. */
  lemma ApprovalVerifies(peer: string, fingerprint: string, approvedBy: string, timestamp: int, keyId: string,
                         seed: Key, keys: map<string, Key>)
    requires IsComponentName(peer) && IsFingerprint(fingerprint) && IsName(approvedBy, 64) && IsName(keyId, 64)
    ensures var r := Sign(peer, fingerprint, approvedBy, timestamp, keyId, seed);
            r.Ok? && (VerifyApproval(r.value, keys).Ok? <==> keyId in keys && keys[keyId] == seed)
  {
  }

  /** What `new` makes of its arguments; the key identifier has its own rule and is not signed. */
  lemma SignExactly(peer: string, fingerprint: string, approvedBy: string, timestamp: int, keyId: string, seed: Key,
                    a: SignedApproval)
    ensures Sign(peer, fingerprint, approvedBy, timestamp, keyId, seed) == Ok(a) <==>
              var m := Approval(peer, fingerprint, approvedBy, timestamp);
              FieldsOk(m) && IsName(keyId, 64)
              && a == OperatorApproval(peer, fingerprint, approvedBy, timestamp, keyId, Sig(seed, Utf8(Signable(m))))
  {
    hide Signable, Utf8, FieldsOk, IsName, ApproveV1;
    ApproveResult(peer, fingerprint, approvedBy, timestamp);
  }

  /** An unknown key identifier is a broken chain, an illegal field a bad parameter, and all else a bad signature. */
  lemma ApprovalRefusedFor(a: SignedApproval, keys: map<string, Key>)
    requires VerifyApproval(a, keys).Err?
    ensures VerifyApproval(a, keys).error
            == if a.keyId !in keys then Chain else if a.CanonicalBytes().Err? then Params else ProofInvalid
  {
    ApproveResult(a.peer, a.fingerprint, a.approvedBy, a.timestamp);
  }

  /** Accepted are exactly the approvals signed, as they stand, with the key registered for their identifier. */
  lemma ApprovalVerifiesExactly(a: SignedApproval, keys: map<string, Key>)
    ensures VerifyApproval(a, keys).Ok? <==>
              var m := Approval(a.peer, a.fingerprint, a.approvedBy, a.timestamp);
              a.keyId in keys && FieldsOk(m) && a.sig == Sig(keys[a.keyId], Utf8(Signable(m)))
  {
    hide Signable, Utf8, FieldsOk, ApproveV1;
    ApproveResult(a.peer, a.fingerprint, a.approvedBy, a.timestamp);
  }

  /** An announcement is recognised exactly by a receiver that has a current generation and accepts it as it stands. */
  lemma RecognitionVerifiesExactly(k: Announcement, c: Context)
    ensures VerifyRecognition(Schedule(k), c).Ok? <==>
              && c.current.Some? && c.current.value.key.Some?
              && var curr := Held(c.current.value.fp, c.current.value.key.value);
                 if c.previous.Some? then
                   c.previous.value.key.Some?
                   && Announce(k.announcer, Some(Held(c.previous.value.fp, c.previous.value.key.value)), curr,
                               k.newCertPem, k.sentAt) == Ok(k)
                 else
                   Verify(k, None, c.current.value).Ok?
    ensures c.current.None? ==> VerifyRecognition(Schedule(k), c) == Err(Chain)
  {
    hide Announce, Verify;
    if c.current.Some? && c.previous.Some? {
      DoubleSignedVerifiesExactly(k, c.previous.value, c.current.value);
    } else if c.current.Some? {
      SingleSignedVerifiesExactly(k, c.current.value);
    }
  }

  lemma VerifiedSignsItsMessage(r: Recognition, c: Context) returns (m: Message)
    requires VerifyRecognition(r, c).Ok?
    ensures Builds(m, r.Signature().message)
    ensures m.Approval? || m.Rotate?
    ensures m.Approval? <==> r.Operator?
    ensures r.Fingerprint() == if m.Approval? then m.fingerprint else m.newFp
  {
    match r {
      case Operator(a) => m := Approval(a.peer, a.fingerprint, a.approvedBy, a.timestamp);
      case Schedule(k) => m := Rotate(k.announcer, k.prevFp, k.currFp, k.newFp, k.sentAt);
    }
  }

  /**
   One signature recognises one identity in one way: whoever verifies it, in whatever context, an approval's signature
   never passes for an announcement's, and the certificate it speaks for is the same.
   */
  lemma OneSignatureOneRecognition(r: Recognition, c: Context, s: Recognition, d: Context)
    requires VerifyRecognition(r, c).Ok? && VerifyRecognition(s, d).Ok?
    requires r.Signature() == s.Signature()
    ensures r.Operator? == s.Operator?
    ensures r.Fingerprint() == s.Fingerprint()
  {
    var m := VerifiedSignsItsMessage(r, c);
    var n := VerifiedSignsItsMessage(s, d);
    CanonicalInjective(m, n, r.Signature().message);
  }
}
