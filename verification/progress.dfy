/**
 From every reachable state a pending announcement can be carried through: one `fetch_and_ack` per waiting
 receiver, in any order, empties the list, and then only the rate limit stands between the node and its roll.
 */
module Progress {
  import opened Prelude
  import opened Canonical
  import opened Announcements
  import opened Windows
  import opened Schedules
  import opened Nodes
  import opened Continuity
  import Ring

  type World = Ring.World

  /** `j` can hear `i`: `i` has approved `j`, and `j` holds the key `i` signs with. */
  predicate CanAnswer(w: World, i: string, j: string) {
    && Ring.Pins(w, i, j) && i in w.nodes[j].peerKeys && w.nodes[j].peerKeys[i] == w.nodes[i].seed
  }

  /** Nothing but windows, messages and the waiting list of `j` has changed. */
  ghost predicate OnlyFetched(w: World, w': World, j: string) {
    && j in w.nodes
    && w'.nodes.Keys == w.nodes.Keys && w'.lineage == w.lineage
    && (forall a :: a in w.nodes ==>
          && w'.nodes[a].peers.Keys == w.nodes[a].peers.Keys
          && w'.nodes[a] == w.nodes[a].(peers := w'.nodes[a].peers, schedule := w'.nodes[a].schedule)
          && (a != j ==> w'.nodes[a].schedule == w.nodes[a].schedule))
    && w.nodes[j].schedule.state.Announced?
    && w'.nodes[j].schedule == WithWaiting(w.nodes[j].schedule, Waiting(w'.nodes[j].schedule))
  }

  lemma StillCanAnswer(w: World, w': World, i: string, j: string)
    requires OnlyFetched(w, w', j) && CanAnswer(w, i, j)
    ensures CanAnswer(w', i, j)
  {
  }

  lemma AnswererPins(w: World, i: string, j: string)
    requires CanAnswer(w, i, j)
    ensures Ring.Pins(w, i, j) && i in w.nodes && j in w.nodes
  {
  }

  /** Whoever could answer still can, and the promise is the same. */
  lemma Fetched(w: World, w': World, i: string, j: string, now: int)
    requires OnlyFetched(w, w', j) && CanAnswer(w, i, j) && w.nodes[j].pending.Some?
    ensures CanAnswer(w', i, j) && j in w'.nodes && i in w'.nodes && j in w.nodes && i in w.nodes
    ensures w'.nodes[j].pending == w.nodes[j].pending
    ensures w'.nodes[j].schedule.peers == w.nodes[j].schedule.peers
    ensures ReceiptOf(w', i, j, now) == ReceiptOf(w, i, j, now)
  {
    hide Acknowledge;
  }

  lemma OnlyFetchedTransitive(a: World, b: World, c: World, j: string)
    requires OnlyFetched(a, b, j) && OnlyFetched(b, c, j)
    ensures OnlyFetched(a, c, j)
  {
  }

  /** A receiver that keeps up is level with the announcer after one handshake. */
  lemma LevelAfterHandshake(w: World, i: string, j: string)
    requires Ring.Inv(w) && Ring.Pins(w, i, j) && i in w.nodes[j].schedule.peers && Served(w.nodes[j]).Ok?
    requires w.nodes[j].schedule.state.Announced?
    ensures var w' := Ring.HandshakeNext(w, i, j);
            && OnlyFetched(w, w', j) && w'.nodes[j].schedule == w.nodes[j].schedule
            && w'.net == w.net
            && Ring.EdgeOf(w', i, j).pos == Ring.EdgeOf(w, i, j).served
            && Ring.EdgeOf(w', i, j).served == Ring.EdgeOf(w, i, j).served
  {
    hide Ring.ChainOk, Ring.ScheduleOk, Ring.NodesOk, Ring.OffersOk, Ring.ReceiptsOk, Ring.EdgeOf, HandshakeDone,
         OnlyFetched, Observed;
    Ring.ServedCert(w, j);
    var e := Ring.EdgeOf(w, i, j);
    assert Ring.EdgeOk(e);
    Ring.HandshakeEdge(w, i, j);
    RegisteredEdge(w, i, j);
    ObservedSlides(e.window.value, e.certs, e.pos, e.certs[e.served].fp);
    HandshakeFetches(w, i, j);
  }

  lemma RegisteredEdge(w: World, i: string, j: string)
    requires j in w.nodes && j in w.lineage && i in w.nodes[j].schedule.peers
    ensures Ring.EdgeOf(w, i, j).registered && Ring.EdgeOf(w, i, j).certs == w.lineage[j].certs
  {
  }

  lemma HandshakeFetches(w: World, i: string, j: string)
    requires Ring.Pins(w, i, j) && Served(w.nodes[j]).Ok? && w.nodes[j].schedule.state.Announced?
    ensures var w' := Ring.HandshakeNext(w, i, j);
            OnlyFetched(w, w', j) && w'.nodes[j].schedule == w.nodes[j].schedule && w'.net == w.net
  {
    hide HandshakeDone, Observed, OnlyFetched;
    var n := w.nodes[i];
    Ring.HandshakeObserves(n, j, Served(w.nodes[j]).value.fp);
    var win := Observed(n.peers[j], Served(w.nodes[j]).value.fp).0;
    WindowFetched(w, Ring.HandshakeNext(w, i, j), i, j, win);
  }

  lemma WindowFetched(w: World, w': World, i: string, j: string, win: Window)
    requires Ring.Pins(w, i, j) && w.nodes[j].schedule.state.Announced?
    requires w'.nodes == w.nodes[i := w.nodes[i].(peers := w.nodes[i].peers[j := win])] && w'.lineage == w.lineage
    ensures OnlyFetched(w, w', j) && w'.nodes[j].schedule == w.nodes[j].schedule
  {
    assert w.nodes[i].peers[j := win].Keys == w.nodes[i].peers.Keys;
  }

  /** A receiver on the announcer's current certificate takes the pending announcement. */
  lemma PendingIsTaken(h: Lineage, win: Window, p: nat)
    requires Genuine(h) && IsComponentName(h.name) && p < |h.announcements| && SlidingAt(win, h.certs, p)
    ensures Receive(win, h.announcements[p]).Ok?
    ensures Receive(win, h.announcements[p]).value.0 == win.(next := Some(h.certs[p + 1]))
  {
    var k := h.announcements[p];
    assert AnnouncesAt(h, p);
    HonestAnnouncementVerifies(h.name, if p > 0 then Some(h.certs[p - 1]) else None, if p > 0 then h.keys[p - 1] else 0,
                               h.certs[p], h.keys[p], h.certs[p + 1], k.sentAt, win.previous, win.current);
  }

  /**
   What `identity` hands a level receiver: the certificate it already has as current, and, exactly while one is
   announced, an announcement that it takes and that names the successor.
   */
  lemma IdentityIsTaken(w: World, i: string, j: string)
    requires Ring.Inv(w) && Ring.Pins(w, i, j) && j in w.lineage
    requires Ring.EdgeOf(w, i, j).pos == Ring.EdgeOf(w, i, j).served
    ensures var ((pem, k), win, e) := (IdentityOf(w.nodes[j]), w.nodes[i].peers[j], Ring.EdgeOf(w, i, j));
            && CertOf(pem) == Ok(win.current)
            && (k.Some? <==> w.nodes[j].schedule.state.Announced?)
            && (k.Some? ==> 0 <= e.served && e.served + 1 < |e.certs| && Receive(win, k.value).Ok?
                            && Receive(win, k.value).value.0 == win.(next := Some(e.certs[e.served + 1])))
  {
    hide Genuine, Receive, Ring.ScheduleOk, Ring.Holds, Ring.EdgeOk, Ring.NodesOk, Ring.OffersOk, Ring.ReceiptsOk,
         Ring.ReceiptFor, Ring.Apart, IsComponentName;
    Ring.ChainOfNode(w, j);
    Ring.GenuineOf(w, j);
    Ring.ServedCert(w, j);
    PendingIsAnnounced(w, j);
    var e := Ring.EdgeOf(w, i, j);
    assert Ring.EdgeOk(e);
    Ring.EdgeBounds(e);
    if w.nodes[j].pending.Some? {
      Ring.PendingCert(w, j);
      PendingIsTaken(w.lineage[j], w.nodes[i].peers[j], e.pos);
    }
  }

  /** The receipt that `i` sends for `j`'s pending announcement. */
  function ReceiptOf(w: World, i: string, j: string, now: int): Result<Receipt>
    requires i in w.nodes && j in w.nodes && w.nodes[j].pending.Some?
  {
    Acknowledge(i, j, w.nodes[j].pending.value.announcement.newFp, now, w.nodes[i].seed)
  }

  lemma OfferIsAnswered(w: World, i: string, j: string, now: int)
    requires Ring.Inv(w) && Ring.Pins(w, i, j) && w.nodes[j].pending.Some?
    requires Ring.EdgeOf(w, i, j).pos == Ring.EdgeOf(w, i, j).served
    ensures var k := w.nodes[j].pending.value.announcement;
            var w' := Ring.TakeOfferNext(w, i, j, k, now);
            var r := ReceiptOf(w, i, j, now);
            && r.Ok? && Ring.Receipted(r.value) in w'.net
            && OnlyFetched(w, w', j) && w'.nodes[j].schedule == w.nodes[j].schedule
            && Ring.EdgeOf(w', i, j).pos == Ring.EdgeOf(w, i, j).pos
  {
    hide Genuine, Receive, Acknowledge, Ring.ScheduleOk, Ring.Holds, Ring.EdgeOk, Ring.NodesOk, Ring.OffersOk,
         Ring.ReceiptsOk, Ring.ReceiptFor, OnlyFetched, IsFingerprint, IsComponentName;
    Ring.ChainOfNode(w, j);
    Ring.ChainOfNode(w, i);
    Ring.GenuineOf(w, j);
    Ring.ServedCert(w, j);
    var e := Ring.EdgeOf(w, i, j);
    assert Ring.EdgeOk(e);
    Ring.EdgeBounds(e);
    assert w.nodes[j].schedule.state.Announced? by { PendingIsAnnounced(w, j); }
    PendingIsTaken(w.lineage[j], w.nodes[i].peers[j], e.pos);
    AckedFpIsFingerprint(w, j);
    AcknowledgeSucceeds(i, j, w.nodes[j].pending.value.announcement.newFp, now, w.nodes[i].seed);
    TakingFetches(w, i, j, w.nodes[j].pending.value.announcement, now);
  }

  lemma AcknowledgeSucceeds(acker: string, announcer: string, newFp: string, now: int, seed: Key)
    requires IsComponentName(acker) && IsComponentName(announcer) && IsFingerprint(newFp)
    ensures Acknowledge(acker, announcer, newFp, now, seed).Ok?
  {
  }

  lemma TakingFetches(w: World, i: string, j: string, k: Announcement, now: int)
    requires Ring.Pins(w, i, j) && w.nodes[j].schedule.state.Announced? && Receive(w.nodes[i].peers[j], k).Ok?
    ensures var w' := Ring.TakeOfferNext(w, i, j, k, now);
            OnlyFetched(w, w', j) && w'.nodes[j].schedule == w.nodes[j].schedule
  {
    hide Receive, Acknowledge, OnlyFetched;
    WindowFetched(w, Ring.TakeOfferNext(w, i, j, k, now), i, j, Receive(w.nodes[i].peers[j], k).value.0);
  }

  lemma PendingIsAnnounced(w: World, j: string)
    requires Ring.Inv(w) && j in w.nodes
    ensures w.nodes[j].pending.Some? <==> w.nodes[j].schedule.state.Announced?
    ensures forall p :: p in Waiting(w.nodes[j].schedule) ==> w.nodes[j].pending.Some? && p in w.nodes[j].schedule.peers
  {
    Ring.ChainOfNode(w, j);
  }

  lemma AckedFpIsFingerprint(w: World, j: string)
    requires Ring.Inv(w) && j in w.nodes && w.nodes[j].pending.Some?
    ensures IsFingerprint(w.nodes[j].pending.value.announcement.newFp)
  {
    hide Ring.Inv;
    Ring.ServedCert(w, j) by { PendingIsAnnounced(w, j); }
    Ring.PendingCert(w, j);
    HasLineage(w, j);
    var fp: Fp := w.lineage[j].certs[Ring.ServedAt(w.nodes[j], w.lineage[j]) + 1].fp;
    assert IsFingerprint(fp);
  }

  // ---------------------------------------------------------------- one fetch_and_ack

  /** The steps of one `fetch_and_ack`: two pinned connections, a request each. */
  function FetchAndAck(w: World, i: string, j: string, now: int): seq<Ring.Step>
    requires i in w.nodes && j in w.nodes && w.nodes[j].pending.Some? && ReceiptOf(w, i, j, now).Ok?
  {
    [Ring.Handshake(i, j),
     Ring.Identity(j),
     Ring.TakeOffer(i, j, j, w.nodes[j].pending.value.announcement, now),
     Ring.Handshake(i, j),
     Ring.DeliverReceipt(j, ReceiptOf(w, i, j, now).value)]
  }

  lemma FetchAndAckClears(w: World, i: string, j: string, now: int)
    requires Ring.Inv(w) && j in w.nodes && i in Waiting(w.nodes[j].schedule) && CanAnswer(w, i, j)
    ensures w.nodes[j].pending.Some? && ReceiptOf(w, i, j, now).Ok?
    ensures Ring.Allowed(w, FetchAndAck(w, i, j, now))
    ensures var w' := Ring.Run(w, FetchAndAck(w, i, j, now));
            && Ring.Inv(w') && OnlyFetched(w, w', j)
            && Waiting(w'.nodes[j].schedule) == Waiting(w.nodes[j].schedule) - {i}
  {
    hide *;
    PendingIsAnnounced(w, j);
    AnswererPins(w, i, j);
    var w1 := Connected(w, i, j);
    Fetched(w, w1, i, j, now);
    AnswererPins(w1, i, j);
    var w2 := OfferMade(w1, i, j);
    Fetched(w1, w2, i, j, now);
    AnswererPins(w2, i, j);
    var w3, r := OfferStored(w2, i, j, now);
    Fetched(w2, w3, i, j, now);
    AnswererPins(w3, i, j);
    var w4 := Connected(w3, i, j);
    Fetched(w3, w4, i, j, now);
    var w5 := Delivered(w4, i, j, now, r);
    OnlyFetchedTransitive(w, w1, w2, j);
    OnlyFetchedTransitive(w, w2, w3, j);
    OnlyFetchedTransitive(w, w3, w4, j);
    OnlyFetchedTransitive(w, w4, w5, j);
    TheSteps(w, i, j, now);
    FiveSteps(w, w1, w2, w3, w4, w5, FetchAndAck(w, i, j, now));
  }

  lemma TheSteps(w: World, i: string, j: string, now: int)
    requires i in w.nodes && j in w.nodes && w.nodes[j].pending.Some? && ReceiptOf(w, i, j, now).Ok?
    ensures var (steps, k) := (FetchAndAck(w, i, j, now), w.nodes[j].pending.value.announcement);
            && |steps| == 5 && steps[0] == steps[3] == Ring.Handshake(i, j) && steps[1] == Ring.Identity(j)
            && steps[2] == Ring.TakeOffer(i, j, j, k, now)
            && steps[4] == Ring.DeliverReceipt(j, ReceiptOf(w, i, j, now).value)
  {
    hide Acknowledge;
  }

  lemma FiveSteps(w: World, w1: World, w2: World, w3: World, w4: World, w5: World, steps: seq<Ring.Step>)
    requires |steps| == 5
    requires Ring.Enabled(w, steps[0]) && w1 == Ring.Next(w, steps[0])
    requires Ring.Enabled(w1, steps[1]) && w2 == Ring.Next(w1, steps[1])
    requires Ring.Enabled(w2, steps[2]) && w3 == Ring.Next(w2, steps[2])
    requires Ring.Enabled(w3, steps[3]) && w4 == Ring.Next(w3, steps[3])
    requires Ring.Enabled(w4, steps[4]) && w5 == Ring.Next(w4, steps[4])
    ensures Ring.Allowed(w, steps) && Ring.Run(w, steps) == w5
  {
    hide Ring.Enabled, Ring.Next;
    var (t1, t2) := (steps[1..], steps[2..]);
    var (t3, t4) := (steps[3..], steps[4..]);
    assert t1[1..] == t2 && t2[1..] == t3 && t3[1..] == t4 && t4[1..] == [];
    assert Ring.Allowed(w5, []) && Ring.Run(w5, []) == w5;
    assert Ring.Allowed(w4, t4) && Ring.Run(w4, t4) == w5;
    assert Ring.Allowed(w3, t3) && Ring.Run(w3, t3) == w5;
    assert Ring.Allowed(w2, t2) && Ring.Run(w2, t2) == w5;
    assert Ring.Allowed(w1, t1) && Ring.Run(w1, t1) == w5;
  }

  /** After a pinned connection the receiver is level with the announcer. */
  lemma Connected(w: World, i: string, j: string) returns (w': World)
    requires Ring.Inv(w) && Ring.Pins(w, i, j) && i in w.nodes[j].schedule.peers && w.nodes[j].pending.Some?
    ensures Ring.Enabled(w, Ring.Handshake(i, j)) && w' == Ring.Next(w, Ring.Handshake(i, j))
    ensures Ring.Inv(w') && OnlyFetched(w, w', j) && w'.nodes[j].schedule == w.nodes[j].schedule
    ensures w'.net == w.net
    ensures j in w'.nodes && j in w'.lineage && Ring.EdgeOf(w', i, j).pos == Ring.EdgeOf(w', i, j).served
  {
    hide Ring.Inv, Ring.EdgeOf;
    PendingIsAnnounced(w, j);
    Ring.ServedCert(w, j);
    HasLineage(w, j);
    w' := Ring.Next(w, Ring.Handshake(i, j));
    Ring.HandshakeKeeps(w, i, j);
    LevelAfterHandshake(w, i, j);
  }

  lemma HasLineage(w: World, j: string)
    requires Ring.Inv(w) && j in w.nodes
    ensures j in w.lineage
  {
  }

  lemma OfferMade(w: World, i: string, j: string) returns (w': World)
    requires Ring.Inv(w) && j in w.nodes && w.nodes[j].pending.Some? && j in w.lineage
    ensures Ring.Enabled(w, Ring.Identity(j)) && w' == Ring.Next(w, Ring.Identity(j))
    ensures Ring.Inv(w') && w'.nodes == w.nodes && w'.lineage == w.lineage
    ensures OnlyFetched(w, w', j)
    ensures Ring.EdgeOf(w', i, j).pos == Ring.EdgeOf(w, i, j).pos
    ensures Ring.EdgeOf(w', i, j).served == Ring.EdgeOf(w, i, j).served
    ensures Ring.Offer(j, w.nodes[j].pending.value.announcement) in w'.net
  {
    hide Ring.Inv;
    PendingIsAnnounced(w, j);
    w' := Ring.Next(w, Ring.Identity(j));
    Ring.IdentityKeeps(w, j);
  }

  lemma OfferStored(w: World, i: string, j: string, now: int) returns (w': World, r: Receipt)
    requires Ring.Inv(w) && Ring.Pins(w, i, j) && w.nodes[j].pending.Some? && j in w.lineage
    requires Ring.EdgeOf(w, i, j).pos == Ring.EdgeOf(w, i, j).served
    requires Ring.Offer(j, w.nodes[j].pending.value.announcement) in w.net
    ensures var s := Ring.TakeOffer(i, j, j, w.nodes[j].pending.value.announcement, now);
            Ring.Enabled(w, s) && w' == Ring.Next(w, s)
    ensures Ring.Inv(w') && OnlyFetched(w, w', j) && w'.nodes[j].schedule == w.nodes[j].schedule
    ensures ReceiptOf(w, i, j, now) == Ok(r) && Ring.Receipted(r) in w'.net
  {
    hide Ring.Inv, Ring.EdgeOf;
    var k := w.nodes[j].pending.value.announcement;
    OfferIsAnswered(w, i, j, now);
    Ring.TakeOfferKeeps(w, i, j, j, k, now);
    w', r := Ring.Next(w, Ring.TakeOffer(i, j, j, k, now)), ReceiptOf(w, i, j, now).value;
  }

  lemma Delivered(w: World, i: string, j: string, now: int, r: Receipt) returns (w': World)
    requires Ring.Inv(w) && CanAnswer(w, i, j) && w.nodes[j].pending.Some?
    requires ReceiptOf(w, i, j, now) == Ok(r)
    requires Ring.Receipted(r) in w.net
    ensures Ring.Enabled(w, Ring.DeliverReceipt(j, r)) && w' == Ring.Next(w, Ring.DeliverReceipt(j, r))
    ensures Ring.Inv(w') && OnlyFetched(w, w', j)
    ensures Waiting(w'.nodes[j].schedule) == Waiting(w.nodes[j].schedule) - {i}
  {
    hide Ring.Inv, Ring.EdgeOf, OnlyFetched, AckHandled, ReceiptOf;
    PendingIsAnnounced(w, j);
    assert Ring.CanForge(w, r.sig);
    w' := Ring.Next(w, Ring.DeliverReceipt(j, r));
    Ring.DeliverReceiptKeeps(w, j, r);
    ReceiptIsRecorded(w, i, j, now, r);
    AckFetched(w, i, j);
  }

  lemma ReceiptIsRecorded(w: World, i: string, j: string, now: int, r: Receipt)
    requires CanAnswer(w, i, j) && w.nodes[j].pending.Some? && ReceiptOf(w, i, j, now) == Ok(r)
    ensures var n := w.nodes[j]; AckHandled(n, r).0 == n.(schedule := AckRecorded(n.schedule, i))
  {
  }

  lemma AckFetched(w: World, i: string, j: string)
    requires j in w.nodes && w.nodes[j].schedule.state.Announced?
    ensures var s := AckRecorded(w.nodes[j].schedule, i);
            && OnlyFetched(w, Ring.SetNode(w, j, w.nodes[j].(schedule := s)), j)
            && Waiting(s) == Waiting(w.nodes[j].schedule) - {i}
  {
  }

  // ---------------------------------------------------------------- all of them, in any order

  /** Every receiver still waited for can answer. */
  ghost predicate AllCanAnswer(w: World, j: string) {
    j in w.nodes && forall i :: i in Waiting(w.nodes[j].schedule) ==> CanAnswer(w, i, j)
  }

  lemma NoStep(w: World)
    ensures Ring.Allowed(w, []) && Ring.Run(w, []) == w
  {
  }

  lemma OneStep(w: World, s: Ring.Step)
    requires Ring.Allowed(w, [s])
    ensures Ring.Enabled(w, s) && Ring.Run(w, [s]) == Ring.Next(w, s)
  {
    hide Ring.Enabled, Ring.Next;
    assert [s][1..] == [];
    assert Ring.Allowed(w, [s]) == (Ring.Enabled(w, s) && Ring.Allowed(Ring.Next(w, s), []));
  }

  lemma TwoSteps(w: World, s: Ring.Step, t: Ring.Step)
    requires Ring.Allowed(w, [s, t])
    ensures Ring.Enabled(w, s) && Ring.Enabled(Ring.Next(w, s), t)
    ensures Ring.Run(w, [s, t]) == Ring.Next(Ring.Next(w, s), t)
  {
    hide Ring.Enabled, Ring.Next;
    assert [s, t][1..] == [t];
    OneStep(Ring.Next(w, s), t);
  }

  lemma StepThen(w: World, s: Ring.Step, rest: seq<Ring.Step>)
    requires Ring.Enabled(w, s) && Ring.Allowed(Ring.Next(w, s), rest)
    ensures Ring.Allowed(w, [s] + rest) && Ring.Run(w, [s] + rest) == Ring.Run(Ring.Next(w, s), rest)
  {
    hide Ring.Enabled, Ring.Next;
    assert ([s] + rest)[1..] == rest;
  }

  lemma {:induction false} RunThen(w: World, a: seq<Ring.Step>, b: seq<Ring.Step>)
    requires Ring.Allowed(w, a) && Ring.Allowed(Ring.Run(w, a), b)
    ensures Ring.Allowed(w, a + b) && Ring.Run(w, a + b) == Ring.Run(Ring.Run(w, a), b)
    decreases |a|
  {
    hide Ring.Enabled, Ring.Next;
    if a == [] {
      assert a + b == b;
    } else {
      assert (a + b)[1..] == a[1..] + b;
      RunThen(Ring.Next(w, a[0]), a[1..], b);
    }
  }

  /** One `fetch_and_ack` for each name of `order`, whatever the order, clears exactly those names. */
  lemma {:induction false} EveryoneAcks(w: World, j: string, order: seq<string>, now: int)
    returns (steps: seq<Ring.Step>)
    requires Ring.Inv(w) && AllCanAnswer(w, j) && j in w.nodes && w.nodes[j].pending.Some?
    requires forall m :: 0 <= m < |order| ==> order[m] in Waiting(w.nodes[j].schedule)
    requires forall m, n :: 0 <= m < n < |order| ==> order[m] != order[n]
    ensures |steps| == 5 * |order| && Ring.Allowed(w, steps)
    ensures var w' := Ring.Run(w, steps);
            && Ring.Inv(w') && OnlyFetched(w, w', j)
            && Waiting(w'.nodes[j].schedule) == Waiting(w.nodes[j].schedule) - (set i | i in order)
    decreases |order|
  {
    hide *;
    if order == [] {
      PendingIsAnnounced(w, j);
      steps := [];
      NothingFetched(w, j);
    } else {
      var (i, others) := (order[0], order[1..]);
      var first := AnsweredBy(w, i, j, now);
      var w1 := Ring.Run(w, first);
      var rest := EveryoneAcks(w1, j, others, now);
      RunThen(w, first, rest);
      steps := first + rest;
      OnlyFetchedTransitive(w, w1, Ring.Run(w, steps), j);
      assert (set a | a in order) == {i} + (set a | a in others) by {
        assert order == [i] + others;
      }
    }
  }

  /** After one answer the rest can still answer. */
  lemma AnsweredBy(w: World, i: string, j: string, now: int) returns (steps: seq<Ring.Step>)
    requires Ring.Inv(w) && AllCanAnswer(w, j) && i in Waiting(w.nodes[j].schedule)
    ensures |steps| == 5 && Ring.Allowed(w, steps)
    ensures var w1 := Ring.Run(w, steps);
            && Ring.Inv(w1) && OnlyFetched(w, w1, j) && AllCanAnswer(w1, j)
            && j in w1.nodes && w1.nodes[j].pending.Some?
            && Waiting(w1.nodes[j].schedule) == Waiting(w.nodes[j].schedule) - {i}
  {
    hide Ring.Inv, Ring.Run, Ring.Allowed, OnlyFetched;
    FetchAndAckClears(w, i, j, now);
    steps := FetchAndAck(w, i, j, now);
    var w1 := Ring.Run(w, steps);
    PendingIsAnnounced(w, j);
    Fetched(w, w1, i, j, now);
    forall a | a in Waiting(w1.nodes[j].schedule) ensures CanAnswer(w1, a, j) {
      StillCanAnswer(w, w1, a, j);
    }
  }

  lemma NothingFetched(w: World, j: string)
    requires j in w.nodes && w.nodes[j].schedule.state.Announced?
    ensures Ring.Allowed(w, []) && Ring.Run(w, []) == w && OnlyFetched(w, w, j)
  {
  }

  /**
   Progress: from any state of any run in which an announcement is pending and every waiting receiver can answer, one
   `fetch_and_ack` each, in the given order, makes the roll depend on the rate limit alone.
   */
  lemma RotationCanFinish(start: World, past: seq<Ring.Step>, j: string, order: seq<string>, now: int)
    returns (steps: seq<Ring.Step>)
    requires Ring.Init(start) && Ring.Allowed(start, past)
    requires var w := Ring.Run(start, past);
             && AllCanAnswer(w, j) && w.nodes[j].pending.Some?
             && (set i | i in order) == Waiting(w.nodes[j].schedule)
    requires forall m, n :: 0 <= m < n < |order| ==> order[m] != order[n]
    ensures |steps| == 5 * |order| && Ring.Allowed(start, past + steps)
    ensures var (w, w') := (Ring.Run(start, past), Ring.Run(start, past + steps));
            j in w.nodes && j in w'.nodes
            && forall t :: RollEnabled(w'.nodes[j], t) <==> RateLimitOk(w.nodes[j].schedule, t)
  {
    hide Ring.Inv, Ring.Init, Ring.Credentials, Ring.Enabled, Ring.Next;
    var w := Ring.Run(start, past);
    Ring.InitInv(start);
    Ring.RunKeeps(start, past);
    forall m | 0 <= m < |order| ensures order[m] in Waiting(w.nodes[j].schedule) {
      assert order[m] in set i | i in order;
    }
    steps := EveryoneAcks(w, j, order, now);
    RunThen(start, past, steps);
  }
}
