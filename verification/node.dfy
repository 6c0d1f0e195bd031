/**
 One ring node (examples/ringnode.rs): the operations that wire announcer and receiver together.
 `Node` and its functions are the specification; `RingNode` performs the operations on its fields.
 */
module Nodes {
  import opened Prelude
  import opened Canonical
  import opened Announcements
  import opened Windows
  import opened Schedules

  /** Fingerprint, certificate text and private key of one own generation. */
  datatype Material = Material(fp: string, pem: Pem, key: Key)

  datatype PendingRotation = PendingRotation(announcement: Announcement, pem: Pem, key: Key)

  datatype Node = Node(
    name: string,
    seed: Key,
    current: Material,
    previous: Option<Material>,
    pending: Option<PendingRotation>,
    schedule: Sched,
    peers: map<string, Window>,
    peerKeys: map<string, Key>,
    rotations: nat,
    ackers: seq<string>)

  /** The certificate a new handshake presents. */
  function Served(n: Node): Result<Cert> { CertOf(n.current.pem) }

  // ---------------------------------------------------------------- server side

  /** `identity`: our certificate, and the announcement while one is pending. */
  function IdentityOf(n: Node): (Pem, Option<Announcement>) {
    (n.current.pem, if n.pending.Some? then Some(n.pending.value.announcement) else None)
  }

  /** `ack`: a receipt from a known acker, covering what we announced, signed by the pinned key. */
  function AckHandled(n: Node, r: Receipt): (Node, Result<Unit>) {
    if r.acker !in n.peerKeys then (n, Err(Chain))
    else
      var expected := if n.pending.Some? then n.pending.value.announcement.newFp else r.newFp;
      var verdict := VerifyReceipt(r, n.peerKeys[r.acker], expected);
      if verdict.Ok? then (n.(schedule := AckRecorded(n.schedule, r.acker)), verdict) else (n, verdict)
  }

  /**
   Over all receipts: an ack is recorded exactly if the pinned key of the named acker signed that very receipt, and,
   while an announcement is pending, for the announced certificate.
   */
  lemma AckHandledExactly(n: Node, r: Receipt)
    ensures var (n', reply) := AckHandled(n, r);
            && (reply.Ok? <==>
                  && r.acker in n.peerKeys
                  && Acknowledge(r.acker, r.announcer, r.newFp, r.sentAt, n.peerKeys[r.acker]) == Ok(r)
                  && (n.pending.Some? ==> r.newFp == n.pending.value.announcement.newFp))
            && n' == (if reply.Ok? then n.(schedule := AckRecorded(n.schedule, r.acker)) else n)
            && (r.acker !in n.peerKeys ==> reply == Err(Chain))
  {
    hide Acknowledge, VerifyReceipt;
    if r.acker in n.peerKeys {
      var expected := if n.pending.Some? then n.pending.value.announcement.newFp else r.newFp;
      ReceiptVerifiesExactly(r, n.peerKeys[r.acker], expected);
    }
  }

  // ---------------------------------------------------------------- client side

  function Approved(n: Node, peer: string, cert: Cert, key: Key): Node {
    n.(peers := n.peers[peer := Anchored(cert)], peerKeys := n.peerKeys[peer := key])
  }

  function KeyKnown(n: Node, peer: string, key: Key): Node { n.(peerKeys := n.peerKeys[peer := key]) }

  function AckRequired(n: Node, peer: string): Node {
    n.(schedule := PeerAdded(n.schedule, peer), ackers := n.ackers + [peer])
  }

  function Without(names: seq<string>, gone: string): (rest: seq<string>)
    ensures forall p :: p in rest <==> p in names && p != gone
  {
    if names == [] then []
    else
      assert names == [names[0]] + names[1..];
      if names[0] == gone then Without(names[1..], gone)
      else [names[0]] + Without(names[1..], gone)
  }

  /** Decommissioning: `Schedule::remove_peer`, and the name is dropped from the remembered ackers. */
  function AckWaived(n: Node, peer: string): Node {
    n.(schedule := PeerRemoved(n.schedule, peer), ackers := Without(n.ackers, peer))
  }

  /** A pinned connection to `peer` that presents `fp`; an unknown peer is not pinned. */
  ghost function HandshakeDone(n: Node, peer: string, fp: string): (Node, bool) {
    if peer !in n.peers then (n, true)
    else
      var r := VerifyServerCert(n.peers[peer], fp);
      if r.Ok? then (n.(peers := n.peers[peer := r.value]), true) else (n, false)
  }

  /**
   Over all nodes: a pinned peer's certificate is accepted exactly if it is the current or the stored next one, and only
   the next one changes anything; an unknown peer's is accepted unseen.
   */
  lemma HandshakeDoneExactly(n: Node, peer: string, fp: string)
    ensures var (n', accepted) := HandshakeDone(n, peer, fp);
            if peer !in n.peers then accepted && n' == n
            else
              var w := n.peers[peer];
              && (accepted <==> fp == w.current.fp || (w.next.Some? && fp == w.next.value.fp))
              && n' == if w.next.Some? && fp == w.next.value.fp
                       then n.(peers := n.peers[peer := Window(Some(w.current), w.next.value, None)]) else n
  {
    if peer in n.peers {
      HandshakeExactly(n.peers[peer], fp);
      assert n.peers[peer := n.peers[peer]] == n.peers;
    }
  }

  /** The receiving half of `fetch_and_ack`; the receipt is the reply, absent when the announcement is refused. */
  function OfferTaken(n: Node, peer: string, k: Announcement, now: int): (Node, Result<Receipt>) {
    if peer in n.peers then
      var r := Receive(n.peers[peer], k);
      if r.Err? then (n, Err(r.error))
      else (n.(peers := n.peers[peer := r.value.0]), Acknowledge(n.name, peer, k.newFp, now, n.seed))
    else (n, Acknowledge(n.name, peer, k.newFp, now, n.seed))
  }

  /** Over all announcements: what a pinned peer's window refuses changes nothing and is not answered; all else is. */
  lemma OfferTakenExactly(n: Node, peer: string, k: Announcement, now: int)
    ensures var (n', r) := OfferTaken(n, peer, k, now);
            var refused := peer in n.peers && Receive(n.peers[peer], k).Err?;
            && (refused ==> n' == n && r == Err(Receive(n.peers[peer], k).error))
            && (!refused ==> r == Acknowledge(n.name, peer, k.newFp, now, n.seed))
            && n' == n.(peers := n'.peers) && n'.peers.Keys == n.peers.Keys
            && forall p :: p in n.peers ==>
                 n'.peers[p] == if p == peer then AfterReceive(n.peers[p], k) else n.peers[p]
  {
    hide Acknowledge, Receive;
  }

  // ---------------------------------------------------------------- own rotation

  function HeldOf(m: Material): Held { Held(m.fp, m.key) }

  function PrevHeldOf(n: Node): Option<Held> {
    if n.previous.Some? then Some(HeldOf(n.previous.value)) else None
  }

  /** `prepare`: the pending announcement if there is one, else a new one for the given certificate. */
  function Prepared(n: Node, now: int, newCert: Cert, newKey: Key): (Node, Result<Announcement>) {
    if n.pending.Some? then (n, Ok(n.pending.value.announcement))
    else
      var k := Announce(n.name, PrevHeldOf(n), HeldOf(n.current), PemOf(newCert), now);
      if k.Err? then (n, k)
      else (n.(pending := Some(PendingRotation(k.value, PemOf(newCert), newKey)),
               schedule := MarkedAnnounced(n.schedule, now)), k)
  }

  predicate RollEnabled(n: Node, now: int) { MayRoll(n.schedule, now) && n.pending.Some? }

  /** `roll`: exactly two generations are kept. */
  function RollTried(n: Node, now: int, draw: Option<int>): Node {
    if !RollEnabled(n, now) then n
    else
      var p := n.pending.value;
      n.(current := Material(p.announcement.newFp, p.pem, p.key),
         previous := Some(n.current),
         pending := None,
         rotations := n.rotations + 1,
         schedule := AfterRoll(n.schedule, now, draw))
  }

  // ---------------------------------------------------------------- restart through the consumer's memory

  datatype Remembered = Remembered(previous: Option<Cert>, current: Cert, next: Option<Cert>)

  datatype Snapshot = Snapshot(
    current: Material,
    previous: Option<Material>,
    pending: Option<PendingRotation>,
    peers: map<string, Remembered>,
    keys: map<string, Key>,
    rotations: nat,
    ackers: seq<string>,
    waitingFor: set<string>,
    firstAnnounced: Option<int>)

  function Exported(n: Node): Snapshot {
    Snapshot(n.current, n.previous, n.pending,
             map p | p in n.peers :: Remembered(n.peers[p].previous, n.peers[p].current, n.peers[p].next),
             n.peerKeys, n.rotations, n.ackers, Waiting(n.schedule),
             if n.schedule.state.Announced? then Some(n.schedule.state.firstAnnounced) else None)
  }

  function Restored(d: Remembered): Result<Window> { Restore(d.previous, d.current, d.next) }

  function ImportedSchedule(s: Snapshot): Sched {
    var sched := Sched(Idle(0), (set p | p in s.ackers), None);
    if s.pending.Some?
    then AnnouncedAgain(sched, s.waitingFor, if s.firstAnnounced.Some? then s.firstAnnounced.value else 0)
    else sched
  }

  /** `import` into the node called `name`; a peer state that cannot be restored stops the node. */
  function Imported(name: string, seed: Key, s: Snapshot): Result<Node> {
    if forall p :: p in s.peers ==> Restored(s.peers[p]).Ok? then
      Ok(Node(name, seed, s.current, s.previous, s.pending, ImportedSchedule(s),
              map p | p in s.peers :: Restored(s.peers[p]).value, s.keys, s.rotations, s.ackers))
    else Err(Params)
  }

  /** Over all snapshots: it fails exactly on a window whose roles are not different, and otherwise takes all of it. */
  lemma ImportedExactly(name: string, seed: Key, s: Snapshot)
    ensures var r := Imported(name, seed, s);
            && (r.Ok? <==> forall p :: p in s.peers ==> Restored(s.peers[p]).Ok?)
            && (r.Err? ==> r.error == Params)
            && (r.Ok? ==>
                  var n := r.value;
                  && n.name == name && n.seed == seed && n.current == s.current && n.previous == s.previous
                  && n.pending == s.pending && n.peerKeys == s.keys && n.rotations == s.rotations
                  && n.ackers == s.ackers
                  && n.peers == (map p | p in s.peers
                                       :: Window(s.peers[p].previous, s.peers[p].current, s.peers[p].next))
                  && n.schedule.peers == (set p | p in s.ackers) && n.schedule.lastRolled.None?
                  && (s.pending.None? ==> forall t :: IsDue(n.schedule, t) <==> t >= 0)
                  && (s.pending.Some? ==>
                        n.schedule.state == Announced(s.waitingFor,
                                                      if s.firstAnnounced.Some? then s.firstAnnounced.value else 0)))
  {
    forall p | p in s.peers && Restored(s.peers[p]).Ok?
      ensures Restored(s.peers[p]).value == Window(s.peers[p].previous, s.peers[p].current, s.peers[p].next)
    {
      RestoreExactly(s.peers[p].previous, s.peers[p].current, s.peers[p].next);
    }
  }

  /** A restart loses only the time of the last roll and of the next attempt. */
  lemma RestartKeepsNode(n: Node)
    requires forall p :: p in n.peers ==>
               Restore(n.peers[p].previous, n.peers[p].current, n.peers[p].next) == Ok(n.peers[p])
    requires n.schedule.peers == set p | p in n.ackers
    requires n.pending.Some? <==> n.schedule.state.Announced?
    ensures Imported(n.name, n.seed, Exported(n))
            == Ok(n.(schedule := Sched(if n.pending.Some? then n.schedule.state else Idle(0), n.schedule.peers, None)))
  {
    var s := Exported(n);
    forall p | p in s.peers ensures Restored(s.peers[p]) == Ok(n.peers[p]) {
      assert p in n.peers;
    }
    assert (map p | p in s.peers :: Restored(s.peers[p]).value) == n.peers;
  }

  // ---------------------------------------------------------------- the object

  class RingNode {
    const name: string
    const seed: Key
    var current: Material
    var previous: Option<Material>
    var pending: Option<PendingRotation>
    var schedule: Schedule
    var peers: map<string, Window>
    var peerKeys: map<string, Key>
    var rotations: nat
    var ackers: seq<string>

    function View(): Node
      reads this, schedule
    {
      Node(name, seed, current, previous, pending, schedule.View(), peers, peerKeys, rotations, ackers)
    }

    constructor (name: string, seed: Key, own: Material)
      ensures fresh(schedule)
      ensures View() == Node(name, seed, own, None, None, Sched(Idle(0), {}, None), map[], map[], 0, [])
    {
      this.name, this.seed, current := name, seed, own;
      previous, pending, peers, peerKeys, rotations, ackers := None, None, map[], map[], 0, [];
      schedule := new Schedule({}, 0);
    }

    method HandleIdentity() returns (pem: Pem, announcement: Option<Announcement>)
      ensures (pem, announcement) == IdentityOf(View())
    {
      pem := current.pem;
      announcement := if pending.Some? then Some(pending.value.announcement) else None;
    }

    method HandleAck(r: Receipt) returns (reply: Result<Unit>)
      modifies schedule
      ensures (View(), reply) == AckHandled(old(View()), r)
    {
      if r.acker !in peerKeys {
        return Err(Chain);
      }
      var expected := if pending.Some? then pending.value.announcement.newFp else r.newFp;
      reply := VerifyReceipt(r, peerKeys[r.acker], expected);
      if reply.Ok? {
        schedule.Ack(r.acker);
      }
    }

    /** A connection on which the peer presents `fp`. */
    method Connect(peer: string, fp: string) returns (accepted: bool)
      modifies this`peers
      ensures (View(), accepted) == HandshakeDone(old(View()), peer, fp)
      ensures peer in old(peers) ==>
        var w := old(peers)[peer];
        accepted <==> fp == w.current.fp || (w.next.Some? && fp == w.next.value.fp)
    {
      if peer !in peers {
        return true;
      }
      var w := peers[peer];
      AcceptsMeansCurrentOrNext(w, fp);
      if w.current.fp != fp && (w.next.None? || w.next.value.fp != fp) {
        return false;
      }
      peers := peers[peer := Observed(w, fp).0];
      accepted := true;
    }

    /** `approve`: the certificate text the neighbour returned must hold one certificate. */
    method Approve(peer: string, pem: Pem, key: Key)
      requires CertOf(pem).Ok?
      modifies this`peers, this`peerKeys
      ensures View() == Approved(old(View()), peer, CertOf(pem).value, key)
      ensures peers == old(peers)[peer := Window(None, pem[0].value, None)] && peerKeys == old(peerKeys)[peer := key]
    {
      var cert := DerFromPem(pem);
      peers := peers[peer := Anchored(cert.value)];
      peerKeys := peerKeys[peer := key];
    }

    method RequireAckFrom(peer: string)
      modifies this`ackers, schedule
      ensures View() == AckRequired(old(View()), peer)
      ensures ackers == old(ackers) + [peer] && schedule.peers == old(schedule.peers) + {peer}
    {
      schedule.AddPeer(peer);
      ackers := ackers + [peer];
    }

    method Prepare(now: int, newCert: Cert, newKey: Key) returns (r: Result<Announcement>)
      modifies this`pending, schedule
      ensures (View(), r) == Prepared(old(View()), now, newCert, newKey)
    {
      if pending.Some? {
        return Ok(pending.value.announcement);
      }
      var prev := if previous.Some? then Some(HeldOf(previous.value)) else None;
      r := Announce(name, prev, HeldOf(current), PemOf(newCert), now);
      if r.Err? {
        return;
      }
      pending := Some(PendingRotation(r.value, PemOf(newCert), newKey));
      schedule.Announce(now);
    }

    /** The receiving half of `fetch_and_ack`. */
    method TakeOffer(peer: string, k: Announcement, now: int) returns (r: Result<Receipt>)
      modifies this`peers
      ensures (View(), r) == OfferTaken(old(View()), peer, k, now)
    {
      if peer in peers {
        var g := new Generations.Of(peers[peer]);
        var verdict := g.ReceiveAnnouncement(k);
        if verdict.Err? {
          return Err(verdict.error);
        }
        peers := peers[peer := g.View()];
      }
      r := Acknowledge(name, peer, k.newFp, now, seed);
    }

    method Roll(now: int, draw: Result<int>) returns (rolled: bool)
      modifies this`current, this`previous, this`pending, this`rotations, schedule
      ensures View() == RollTried(old(View()), now, if draw.Ok? then Some(draw.value) else None)
      ensures rolled <==> RollEnabled(old(View()), now)
      ensures rolled ==> previous == Some(old(current)) && pending.None? && rotations == old(rotations) + 1
                         && current.pem == old(pending).value.pem && current.key == old(pending).value.key
    {
      if !MayRoll(schedule.View(), now) {
        return false;
      }
      if pending.None? {
        return false;
      }
      var p := pending.value;
      pending := None;
      previous := Some(current);
      current := Material(p.announcement.newFp, p.pem, p.key);
      rotations := rotations + 1;
      var _ := schedule.Rolled(now, draw);
      rolled := true;
    }

    /** The peers of a snapshot, one by one. */
    static method RestorePeers(remembered: map<string, Remembered>) returns (r: Result<map<string, Window>>)
      ensures r.Ok? <==> forall p :: p in remembered ==> Restored(remembered[p]).Ok?
      ensures r.Ok? ==> r.value == map p | p in remembered :: Restored(remembered[p]).value
    {
      var restored: map<string, Window> := map[];
      var left := remembered.Keys;
      while left != {}
        invariant left <= remembered.Keys
        invariant restored.Keys == remembered.Keys - left
        invariant forall p :: p in restored ==> Restored(remembered[p]) == Ok(restored[p])
        decreases left
      {
        var p :| p in left;
        var w := Restored(remembered[p]);
        if w.Err? {
          return Err(w.error);
        }
        restored := restored[p := w.value];
        left := left - {p};
      }
      r := Ok(restored);
    }

    /**
     `import`: everything the consumer remembered, with a new schedule object. A window that cannot be restored stops it
     after the own generations and the promise have been replaced, and before anything else.
     */
    method Import(s: Snapshot) returns (r: Result<Unit>)
      modifies this
      ensures r.Ok? <==> Imported(name, seed, s).Ok?
      ensures r.Ok? ==> fresh(schedule) && View() == Imported(name, seed, s).value
      ensures r.Err? ==>
        schedule == old(schedule)
        && View() == old(View()).(current := s.current, previous := s.previous, pending := s.pending)
    {
      current, previous, pending := s.current, s.previous, s.pending;
      var restored := RestorePeers(s.peers);
      if restored.Err? {
        return Err(restored.error);
      }
      peers := restored.value;
      peerKeys := s.keys;
      schedule := new Schedule((set p | p in s.ackers), 0);
      if pending.Some? {
        schedule.RestoreAnnounced(s.waitingFor, if s.firstAnnounced.Some? then s.firstAnnounced.value else 0);
      }
      ackers := s.ackers;
      rotations := s.rotations;
      r := Ok(Unit);
    }
  }
}
