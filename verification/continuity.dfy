/**
 Two-signature continuity over whole runs: what an adversary holding some generation keys can make a
 receiver believe (src/announcement.rs:160-231, src/generations.rs:180-205).
 */
module Continuity {
  import opened Prelude
  import opened Canonical
  import opened Announcements
  import opened Windows

  /** Everything one honest announcer ever produces: its certificates, keys and announcements. */
  datatype Lineage = Lineage(name: string, certs: seq<Cert>, keys: seq<Key>, announcements: seq<Announcement>)

  function PrevHeld(h: Lineage, i: nat): Option<Held>
    requires i < |h.certs| == |h.keys|
  {
    if i == 0 then None else Some(Held(h.certs[i - 1].fp, h.keys[i - 1]))
  }

  /** Announcement i names generation i+1 and is signed by generations i-1 and i. */
  ghost predicate Genuine(h: Lineage) {
    && |h.keys| == |h.certs|
    && |h.announcements| + 1 == |h.certs|
    && Distinct(h.certs)
    && (forall i :: 0 <= i < |h.certs| ==> h.certs[i].key == Some(h.keys[i]))
    && (forall i :: 0 <= i < |h.announcements| ==> AnnouncesAt(h, i))
  }

  ghost predicate AnnouncesAt(h: Lineage, i: nat)
    requires i + 1 < |h.certs| == |h.keys| && |h.announcements| + 1 == |h.certs|
  {
    Announce(h.name, PrevHeld(h, i), Held(h.certs[i].fp, h.keys[i]), PemOf(h.certs[i + 1]),
             h.announcements[i].sentAt) == Ok(h.announcements[i])
  }

  ghost predicate SignedAnnouncement(h: Lineage, s: Sig) {
    exists i :: 0 <= i < |h.announcements|
                && (h.announcements[i].sigCurr == s || h.announcements[i].sigPrev == Some(s))
  }

  /** A generation key also signs messages of the other forms, support statements among them. */
  ghost predicate SignedOtherForm(s: Sig) {
    exists m: Message :: !m.Rotate? && Builds(m, s.message)
  }

  ghost predicate HonestlySigned(h: Lineage, s: Sig) { SignedAnnouncement(h, s) || SignedOtherForm(s) }

  /** The adversary signs with any key it holds or made up, and replays whatever was honestly signed. */
  ghost predicate CanSign(h: Lineage, stolen: set<Key>, s: Sig) {
    s.key in h.keys && s.key !in stolen ==> HonestlySigned(h, s)
  }

  /** Any announcement with such signatures, as long as its certificate is no second preimage of an honest one. */
  ghost predicate CanSend(h: Lineage, stolen: set<Key>, k: Announcement) {
    && CanSign(h, stolen, k.sigCurr)
    && (k.sigPrev.Some? ==> CanSign(h, stolen, k.sigPrev.value))
    && (CertOf(k.newCertPem).Ok? ==> NoSecondPreimage(h, CertOf(k.newCertPem).value))
  }

  ghost predicate NoSecondPreimage(h: Lineage, c: Cert) {
    forall i :: 0 <= i < |h.certs| && h.certs[i].fp == c.fp ==> h.certs[i] == c
  }

  ghost predicate NoTwoConsecutive(h: Lineage, stolen: set<Key>) {
    forall i :: 0 <= i < |h.keys| - 1 ==> h.keys[i] !in stolen || h.keys[i + 1] !in stolen
  }

  // ---------------------------------------------------------------- one announcement

  /** No message of another form has the bytes of an announcement. */
  lemma NoOtherForm(k: Announcement, s: Sig)
    requires k.Canonical() == Ok(s.message)
    ensures !SignedOtherForm(s)
  {
    var a := Rotate(k.announcer, k.prevFp, k.currFp, k.newFp, k.sentAt);
    forall m: Message | Builds(m, s.message) ensures m.Rotate? {
      CanonicalInjective(m, a, s.message);
    }
  }

  /** An accepted announcement with one honest signature is the announcement of the receiver's own position. */
  lemma HonestSignatureFixesSuccessor(h: Lineage, k: Announcement, s: Sig, message: Bytes, i: nat)
    requires Genuine(h) && i < |h.certs|
    requires k.Canonical() == Ok(message) && s.message == message && HonestlySigned(h, s)
    requires k.currFp == h.certs[i].fp
    ensures i + 1 < |h.certs| && k.newFp == h.certs[i + 1].fp
  {
    NoOtherForm(k, s);
    var j :| 0 <= j < |h.announcements|
             && (h.announcements[j].sigCurr == s || h.announcements[j].sigPrev == Some(s));
    var a := h.announcements[j];
    assert AnnouncesAt(h, j);
    assert a.Canonical() == Ok(message);
    SignedFieldsAgree(k, a, message);
    assert a.currFp == h.certs[j].fp && a.newFp == h.certs[j + 1].fp;
    assert j == i;
  }

  /** The receiver can check enough: two signatures, or one against an anchor whose key is not stolen. */
  predicate Guarded(h: Lineage, stolen: set<Key>, w: Window, i: nat)
    requires i < |h.keys|
  {
    w.previous.Some? || h.keys[i] !in stolen
  }

  lemma AcceptedIsGenuine(h: Lineage, stolen: set<Key>, w: Window, i: nat, k: Announcement)
    requires Genuine(h) && NoTwoConsecutive(h, stolen)
    requires SlidingAt(w, h.certs, i) && Guarded(h, stolen, w, i)
    requires CanSend(h, stolen, k)
    ensures SlidingAt(AfterReceive(w, k), h.certs, i)
    ensures AfterReceive(w, k).previous == w.previous
  {
    var r := Receive(w, k);
    if r.Ok? && r.value.1 == Stored {
      var message := k.Canonical().value;
      assert k.sigCurr.message == message && k.sigCurr.key == h.keys[i];
      if h.keys[i] !in stolen {
        HonestSignatureFixesSuccessor(h, k, k.sigCurr, message, i);
      } else {
        var s := k.sigPrev.value;
        assert s.message == message && s.key == h.keys[i - 1];
        HonestSignatureFixesSuccessor(h, k, s, message, i);
      }
    }
  }

  // ---------------------------------------------------------------- whole runs

  /** What can happen to a receiver: a message, a presented certificate, a restart from its own snapshot. */
  datatype Event = Deliver(announcement: Announcement) | See(fp: string) | Reload

  function Step(w: Window, e: Event): Window {
    match e
    case Deliver(k) => AfterReceive(w, k)
    case See(fp) => Observed(w, fp).0
    case Reload =>
      var r := Restore(w.previous, w.current, w.next);
      if r.Ok? then r.value else w
  }

  function Run(w: Window, es: seq<Event>): Window
    decreases |es|
  {
    if es == [] then w else Run(Step(w, es[0]), es[1..])
  }

  /**
   Whatever is sent, shown or restarted, in any order and number, the receiver's window stays three consecutive
   certificates of the honest lineage, moves only forward, and can be restored unchanged.
   */
  lemma {:induction false} ContinuityOverRuns(h: Lineage, stolen: set<Key>, w: Window, i: nat, es: seq<Event>)
    returns (j: nat)
    requires Genuine(h) && NoTwoConsecutive(h, stolen)
    requires SlidingAt(w, h.certs, i) && Guarded(h, stolen, w, i)
    requires forall n :: 0 <= n < |es| && es[n].Deliver? ==> CanSend(h, stolen, es[n].announcement)
    ensures i <= j && SlidingAt(Run(w, es), h.certs, j)
    ensures var w' := Run(w, es); Restore(w'.previous, w'.current, w'.next) == Ok(w')
    decreases |es|
  {
    j := i;
    if es == [] {
      SlidingWindowRestores(w, h.certs, i);
    } else {
      var w' := Step(w, es[0]);
      match es[0] {
        case Deliver(k) => AcceptedIsGenuine(h, stolen, w, i, k);
        case See(fp) =>
          ObservedSlides(w, h.certs, i, fp);
          j := if Observed(w, fp).1 then i + 1 else i;
        case Reload => SlidingWindowRestores(w, h.certs, i);
      }
      j := ContinuityOverRuns(h, stolen, w', j, es[1..]);
    }
  }

  /** A certificate the receiver has moved two positions past never holds a role again, whatever follows. */
  lemma AbandonedNeverReturns(h: Lineage, stolen: set<Key>, w: Window, i: nat, es: seq<Event>, gone: nat)
    requires Genuine(h) && NoTwoConsecutive(h, stolen)
    requires SlidingAt(w, h.certs, i) && Guarded(h, stolen, w, i) && gone + 1 < i
    requires forall n :: 0 <= n < |es| && es[n].Deliver? ==> CanSend(h, stolen, es[n].announcement)
    ensures var w' := Run(w, es);
            && w'.previous != Some(h.certs[gone]) && w'.current != h.certs[gone] && w'.next != Some(h.certs[gone])
            && VerifyServerCert(w', h.certs[gone].fp) == Err(Certificate)
  {
    var j := ContinuityOverRuns(h, stolen, w, i, es);
    AbandonedHasNoRole(Run(w, es), h.certs, j, gone);
  }

  // ---------------------------------------------------------------- exactly two keys

  /**
   With a previous generation on record, a certificate outside the lineage gets stored exactly when the
   adversary holds both generation keys the receiver checks against.
   */
  lemma BothKeysAreNeededAndEnough(h: Lineage, stolen: set<Key>, i: nat, foreign: Cert)
    requires Genuine(h) && 0 < i < |h.certs| && IsComponentName(h.name)
    requires forall j :: 0 <= j < |h.certs| ==> h.certs[j].fp != foreign.fp
    ensures var w := Window(Some(h.certs[i - 1]), h.certs[i], None);
            (exists k :: CanSend(h, stolen, k) && AfterReceive(w, k).next == Some(foreign))
            <==> h.keys[i - 1] in stolen && h.keys[i] in stolen
  {
    var w := Window(Some(h.certs[i - 1]), h.certs[i], None);
    if h.keys[i - 1] in stolen && h.keys[i] in stolen {
      var curr, prev := Held(h.certs[i].fp, h.keys[i]), Held(h.certs[i - 1].fp, h.keys[i - 1]);
      HonestAnnouncementVerifies(h.name, Some(h.certs[i - 1]), h.keys[i - 1], h.certs[i], h.keys[i], foreign, 0,
                                 w.previous, w.current);
      var k := Announce(h.name, Some(prev), curr, PemOf(foreign), 0).value;
      assert CanSend(h, stolen, k) && AfterReceive(w, k).next == Some(foreign);
    } else {
      forall k | CanSend(h, stolen, k) ensures AfterReceive(w, k).next != Some(foreign) {
        if AfterReceive(w, k).next == Some(foreign) {
          ForeignNeedsBothKeys(h, stolen, w, i, k, foreign);
        }
      }
    }
  }

  lemma ForeignNeedsBothKeys(h: Lineage, stolen: set<Key>, w: Window, i: nat, k: Announcement, foreign: Cert)
    requires Genuine(h) && 0 < i < |h.certs| && CanSend(h, stolen, k)
    requires w == Window(Some(h.certs[i - 1]), h.certs[i], None)
    requires AfterReceive(w, k).next == Some(foreign)
    requires forall j :: 0 <= j < |h.certs| ==> h.certs[j].fp != foreign.fp
    ensures h.keys[i - 1] in stolen && h.keys[i] in stolen
  {
    var message := k.Canonical().value;
    if h.keys[i] !in stolen {
      HonestSignatureFixesSuccessor(h, k, k.sigCurr, message, i);
    }
    if h.keys[i - 1] !in stolen {
      HonestSignatureFixesSuccessor(h, k, k.sigPrev.value, message, i);
    }
  }
}
