/**
 The rotation protocol over any number of nodes. Every control operation, server request and handshake is one
 atomic step; the network only ever gains messages, so any message may be dropped, delayed, repeated or reordered.

 `lineage` and `pos` are history: what each node has ever announced, and how far along it each receiver's window is.
 */
module Ring {
  import opened Prelude
  import opened Canonical
  import opened Announcements
  import opened Windows
  import opened Schedules
  import opened Nodes
  import opened Continuity

  datatype Message =
    | Offer(from: string, announcement: Announcement)
    | Receipted(receipt: Receipt)

  datatype World = World(
    nodes: map<string, Node>,
    net: set<Message>,
    lineage: map<string, Lineage>,
    pos: map<(string, string), nat>)

  datatype Step =
    | KnowKey(j: string, i: string)
    | Approve(i: string, j: string)
    | RequireAck(j: string, i: string)
    | WaiveAck(j: string, i: string)
    | Prepare(j: string, now: int, newCert: Cert, newKey: Key)
    | Identity(j: string)
    | Handshake(i: string, j: string)
    | TakeOffer(i: string, j: string, from: string, k: Announcement, now: int)
    | DeliverReceipt(to: string, r: Receipt)
    | Roll(j: string, now: int, draw: Option<int>)
    | Restart(j: string)

  // ---------------------------------------------------------------- what the operators and callers owe

  ghost predicate ReceiptFor(net: set<Message>, i: string, j: string, fp: string) {
    exists r :: Receipted(r) in net && r.acker == i && r.announcer == j && r.newFp == fp
  }

  function PendingFp(n: Node): Option<string> {
    if n.pending.Some? then Some(n.pending.value.announcement.newFp) else None
  }

  /** A receipt of `i` for what `j` has pending is under way or delivered. */
  ghost predicate ReceiptOut(w: World, i: string, j: string) {
    j in w.nodes && PendingFp(w.nodes[j]).Some? && ReceiptFor(w.net, i, j, PendingFp(w.nodes[j]).value)
  }

  predicate Pins(w: World, i: string, j: string) {
    i in w.nodes && j in w.nodes && j in w.nodes[i].peers
  }

  /** A receiver is not approved anew while its receipt for the pending announcement is out. */
  ghost predicate ApprovalAllowed(w: World, i: string, j: string) { !ReceiptOut(w, i, j) }

  /** A receiver that already pins the announcer is registered while it accepts what the announcer serves. */
  ghost predicate RegistrationAllowed(w: World, j: string, i: string) {
    Pins(w, i, j) ==> Served(w.nodes[j]).Ok? && Accepts(w.nodes[i].peers[j], Served(w.nodes[j]).value.fp)
  }

  predicate NewTo(h: Lineage, fp: string) {
    forall n :: 0 <= n < |h.certs| ==> h.certs[n].fp != fp
  }

  /** A new certificate is unlike every earlier one of any node, and its key is known. */
  ghost predicate NewCertAllowed(w: World, j: string, newCert: Cert, newKey: Key) {
    newCert.key == Some(newKey) && j in w.lineage && forall b :: b in w.lineage ==> NewTo(w.lineage[b], newCert.fp)
  }

  /** A name that is not approved yet, so that nothing is checked, is dialled where the node of that name listens. */
  predicate OfferAllowed(w: World, i: string, j: string, from: string) { Pins(w, i, j) || from == j }

  /** Anybody signs with keys that belong to no node, and replays whatever a node's key has signed in any form. */
  ghost predicate CanForge(w: World, s: Sig) {
    (exists a :: a in w.nodes && w.nodes[a].seed == s.key) ==>
      || (exists r :: Receipted(r) in w.net && r.sig == s)
      || (exists m: Canonical.Message :: !m.RotateAck? && Builds(m, s.message))
  }

  ghost predicate Enabled(w: World, s: Step) {
    match s
    case KnowKey(j, i) => j in w.nodes && i in w.nodes
    case Approve(i, j) => i in w.nodes && j in w.nodes && Served(w.nodes[j]).Ok? && ApprovalAllowed(w, i, j)
    case RequireAck(j, i) => j in w.nodes && RegistrationAllowed(w, j, i)
    case WaiveAck(j, i) => j in w.nodes
    case Prepare(j, now, newCert, newKey) =>
      j in w.nodes && (w.nodes[j].pending.Some? || NewCertAllowed(w, j, newCert, newKey))
    case Identity(j) => j in w.nodes
    case Handshake(i, j) => i in w.nodes && j in w.nodes && Served(w.nodes[j]).Ok?
    case TakeOffer(i, j, from, k, now) => i in w.nodes && Offer(from, k) in w.net && OfferAllowed(w, i, j, from)
    case DeliverReceipt(to, r) => to in w.nodes && CanForge(w, r.sig)
    case Roll(j, now, draw) => j in w.nodes && draw.Some?
    case Restart(j) => j in w.nodes
  }

  // ---------------------------------------------------------------- the steps

  function SetNode(w: World, j: string, n: Node): World { w.(nodes := w.nodes[j := n]) }

  function Extended(h: Lineage, newCert: Cert, newKey: Key, k: Announcement): Lineage {
    Lineage(h.name, h.certs + [newCert], h.keys + [newKey], h.announcements + [k])
  }

  /** Index of the served certificate in the node's lineage; the announced one, if any, comes after it. */
  function ServedAt(n: Node, h: Lineage): int {
    |h.certs| - 1 - if n.pending.Some? then 1 else 0
  }

  /** History only: the window of `i` on `j` now stands at what `j` serves. */
  function Positioned(w: World, i: string, j: string): World
    requires j in w.nodes
  {
    if j in w.lineage && ServedAt(w.nodes[j], w.lineage[j]) >= 0
    then w.(pos := w.pos[(i, j) := ServedAt(w.nodes[j], w.lineage[j])]) else w
  }

  function PrepareNext(w: World, j: string, now: int, newCert: Cert, newKey: Key): World
    requires j in w.nodes
  {
    var (n, r) := Prepared(w.nodes[j], now, newCert, newKey);
    if w.nodes[j].pending.Some? || r.Err? || j !in w.lineage then w
    else SetNode(w, j, n).(lineage := w.lineage[j := Extended(w.lineage[j], newCert, newKey, r.value)])
  }

  ghost function HandshakeNext(w: World, i: string, j: string): World
    requires i in w.nodes && j in w.nodes && Served(w.nodes[j]).Ok?
  {
    var fp := Served(w.nodes[j]).value.fp;
    var promoted := j in w.nodes[i].peers && Observed(w.nodes[i].peers[j], fp).1;
    SetNode(if promoted then Positioned(w, i, j) else w, i, HandshakeDone(w.nodes[i], j, fp).0)
  }

  function TakeOfferNext(w: World, i: string, j: string, k: Announcement, now: int): World
    requires i in w.nodes
  {
    var (n, r) := OfferTaken(w.nodes[i], j, k, now);
    var w' := SetNode(w, i, n);
    if r.Ok? then w'.(net := w.net + {Receipted(r.value)}) else w'
  }

  function IdentityNext(w: World, j: string): World
    requires j in w.nodes
  {
    var k := IdentityOf(w.nodes[j]).1;
    if k.Some? then w.(net := w.net + {Offer(j, k.value)}) else w
  }

  function ApproveNext(w: World, i: string, j: string): World
    requires i in w.nodes && j in w.nodes && Served(w.nodes[j]).Ok?
  {
    SetNode(Positioned(w, i, j), i, Approved(w.nodes[i], j, Served(w.nodes[j]).value, w.nodes[j].seed))
  }

  function RestartNext(w: World, j: string): World
    requires j in w.nodes
  {
    var r := Imported(w.nodes[j].name, w.nodes[j].seed, Exported(w.nodes[j]));
    if r.Ok? then SetNode(w, j, r.value) else w
  }

  ghost function Next(w: World, s: Step): World
    requires Enabled(w, s)
  {
    match s
    case KnowKey(j, i) => SetNode(w, j, KeyKnown(w.nodes[j], i, w.nodes[i].seed))
    case Approve(i, j) => ApproveNext(w, i, j)
    case RequireAck(j, i) => SetNode(w, j, AckRequired(w.nodes[j], i))
    case WaiveAck(j, i) => SetNode(w, j, AckWaived(w.nodes[j], i))
    case Prepare(j, now, newCert, newKey) => PrepareNext(w, j, now, newCert, newKey)
    case Identity(j) => IdentityNext(w, j)
    case Handshake(i, j) => HandshakeNext(w, i, j)
    case TakeOffer(i, j, from, k, now) => TakeOfferNext(w, i, j, k, now)
    case DeliverReceipt(to, r) => SetNode(w, to, AckHandled(w.nodes[to], r).0)
    case Roll(j, now, draw) => SetNode(w, j, RollTried(w.nodes[j], now, draw))
    case Restart(j) => RestartNext(w, j)
  }

  // ---------------------------------------------------------------- the invariant

  ghost predicate Holds(m: Material, h: Lineage, n: int) {
    && 0 <= n < |h.certs| == |h.keys|
    && m == Material(h.certs[n].fp, m.pem, h.keys[n])
    && CertOf(m.pem) == Ok(h.certs[n])
  }

  /** A node's own chain: what it serves, signs with, and has announced, at the end of its lineage. */
  ghost predicate ChainOk(n: Node, h: Lineage) {
    var served := ServedAt(n, h);
    && h.name == n.name && IsComponentName(n.name)
    && Genuine(h)
    && Holds(n.current, h, served) && n.rotations == served
    && (n.previous.Some? <==> served > 0)
    && (n.previous.Some? ==> Holds(n.previous.value, h, served - 1))
    && (n.pending.Some? ==> n.pending.value.announcement == h.announcements[served]
                            && CertOf(n.pending.value.pem) == Ok(h.certs[served + 1])
                            && n.pending.value.key == h.keys[served + 1])
  }

  ghost predicate ScheduleOk(n: Node) {
    && (n.pending.Some? <==> n.schedule.state.Announced?)
    && (forall p :: p in n.schedule.peers <==> p in n.ackers)
    && (forall p :: p in Waiting(n.schedule) ==> p in n.schedule.peers)
  }

  /** Everything that matters between receiver `i` and announcer `j`. */
  datatype Edge = Edge(
    window: Option<Window>,
    pos: int,
    certs: seq<Cert>,
    served: int,
    registered: bool,
    cleared: bool,
    receipt: bool)

  ghost function EdgeOf(w: World, i: string, j: string): Edge
    requires j in w.nodes && j in w.lineage
  {
    var n := w.nodes[j];
    Edge(if i in w.nodes && j in w.nodes[i].peers then Some(w.nodes[i].peers[j]) else None,
         if (i, j) in w.pos then w.pos[(i, j)] else -1,
         w.lineage[j].certs,
         ServedAt(n, w.lineage[j]),
         i in n.schedule.peers,
         i in n.schedule.peers && n.schedule.state.Announced? && i !in n.schedule.state.waitingFor,
         ReceiptOut(w, i, j))
  }

  /** The receiver has seen every switch and has stored the pending announcement. */
  predicate Ready(e: Edge) { e.window.Some? && e.pos == e.served && e.window.value.next.Some? }

  /** At most one switch behind, and then holding the served certificate as `next`. */
  predicate KeepsUp(e: Edge)
    requires e.window.Some?
  {
    e.pos == e.served || (e.pos == e.served - 1 && e.window.value.next.Some?)
  }

  predicate EdgeOk(e: Edge) {
    && (e.window.Some? ==> 0 <= e.pos <= e.served && SlidingAt(e.window.value, e.certs, e.pos))
    && (e.registered && e.window.Some? ==> KeepsUp(e))
    && (e.cleared ==> e.receipt)
    && (e.receipt && e.window.Some? ==> Ready(e))
  }

  ghost predicate OfferOk(lineage: map<string, Lineage>, from: string, k: Announcement) {
    from in lineage && k in lineage[from].announcements
  }

  ghost predicate ReceiptOk(lineage: map<string, Lineage>, r: Receipt) {
    r.announcer in lineage && exists k :: k in lineage[r.announcer].announcements && k.newFp == r.newFp
  }

  ghost predicate OffersOk(net: set<Message>, lineage: map<string, Lineage>) {
    forall from, k :: Offer(from, k) in net ==> OfferOk(lineage, from, k)
  }

  ghost predicate ReceiptsOk(net: set<Message>, lineage: map<string, Lineage>) {
    forall r :: Receipted(r) in net ==> ReceiptOk(lineage, r)
  }

  ghost predicate NodesOk(nodes: map<string, Node>, lineage: map<string, Lineage>)
    requires lineage.Keys == nodes.Keys
  {
    forall j :: j in nodes ==> nodes[j].name == j && ChainOk(nodes[j], lineage[j]) && ScheduleOk(nodes[j])
  }

  predicate AllNewTo(h: Lineage, g: Lineage) {
    forall m :: 0 <= m < |h.certs| ==> NewTo(g, h.certs[m].fp)
  }

  /** No two nodes ever have certificates with the same fingerprint. */
  ghost predicate Apart(lineage: map<string, Lineage>) {
    forall a, b :: a in lineage && b in lineage && a != b ==> AllNewTo(lineage[a], lineage[b])
  }

  predicate PeersKnown(nodes: map<string, Node>) {
    forall i, j :: i in nodes && j in nodes[i].peers ==> j in nodes
  }

  ghost predicate EdgesOk(w: World)
    requires w.lineage.Keys == w.nodes.Keys
  {
    forall i, j :: j in w.nodes ==> EdgeOk(EdgeOf(w, i, j))
  }

  ghost predicate Inv(w: World) {
    && w.lineage.Keys == w.nodes.Keys
    && NodesOk(w.nodes, w.lineage)
    && Apart(w.lineage)
    && PeersKnown(w.nodes)
    && OffersOk(w.net, w.lineage)
    && ReceiptsOk(w.net, w.lineage)
    && EdgesOk(w)
  }

  // ---------------------------------------------------------------- steps that leave chains and windows alone

  predicate SameChain(n: Node, m: Node) {
    && n.name == m.name && n.current == m.current && n.previous == m.previous
    && n.pending == m.pending && n.rotations == m.rotations && n.peers == m.peers && n.seed == m.seed
  }

  lemma SameChainOk(n: Node, m: Node, h: Lineage)
    requires ChainOk(m, h) && SameChain(n, m)
    ensures ChainOk(n, h)
  {
  }

  lemma NodesUpdated(w: World, j: string, n: Node, h: Lineage)
    requires w.lineage.Keys == w.nodes.Keys && NodesOk(w.nodes, w.lineage) && PeersKnown(w.nodes)
    requires j in w.nodes && n.name == j && n.peers == w.nodes[j].peers && ChainOk(n, h) && ScheduleOk(n)
    ensures NodesOk(w.nodes[j := n], w.lineage[j := h]) && PeersKnown(w.nodes[j := n])
  {
    hide ChainOk, ScheduleOk;
  }

  lemma NodesStayOk(w: World, j: string, n: Node)
    requires w.lineage.Keys == w.nodes.Keys && NodesOk(w.nodes, w.lineage) && PeersKnown(w.nodes)
    requires j in w.nodes && SameChain(n, w.nodes[j]) && ScheduleOk(n)
    ensures NodesOk(w.nodes[j := n], w.lineage) && PeersKnown(w.nodes[j := n])
  {
    hide ChainOk, ScheduleOk;
    SameChainOk(n, w.nodes[j], w.lineage[j]);
    NodesUpdated(w, j, n, w.lineage[j]);
    assert w.lineage[j := w.lineage[j]] == w.lineage;
  }

  lemma EdgeElsewhere(w: World, j: string, n: Node, a: string, b: string)
    requires j in w.nodes && n.peers == w.nodes[j].peers && b in w.nodes && b in w.lineage && b != j
    ensures EdgeOf(SetNode(w, j, n), a, b) == EdgeOf(w, a, b)
  {
  }

  /** What `a` is to `j` once `j` has changed its schedule. */
  ghost function Rescheduled(e: Edge, s: Sched, a: string): Edge {
    e.(registered := a in s.peers, cleared := a in s.peers && s.state.Announced? && a !in s.state.waitingFor)
  }

  lemma EdgeRescheduled(w: World, j: string, n: Node, a: string)
    requires j in w.nodes && j in w.lineage && SameChain(n, w.nodes[j])
    ensures EdgeOf(SetNode(w, j, n), a, j) == Rescheduled(EdgeOf(w, a, j), n.schedule, a)
    ensures EdgeOf(w, a, j) == Rescheduled(EdgeOf(w, a, j), w.nodes[j].schedule, a)
  {
  }

  /** Who is registered and waited for may change, as long as everyone registered keeps up and the rest have acked. */
  lemma ScheduleStep(w: World, j: string, n: Node)
    requires Inv(w) && j in w.nodes && SameChain(n, w.nodes[j]) && ScheduleOk(n)
    requires forall i :: EdgeOk(Rescheduled(EdgeOf(w, i, j), n.schedule, i))
    ensures Inv(SetNode(w, j, n))
  {
    hide Rescheduled, EdgeOk, EdgeOf, ScheduleOk, Apart, OffersOk, ReceiptsOk, NodesOk, PeersKnown;
    var w' := SetNode(w, j, n);
    NodesStayOk(w, j, n);
    forall a, b | b in w'.nodes ensures EdgeOk(EdgeOf(w', a, b)) {
      if b == j {
        EdgeRescheduled(w, j, n, a);
      } else {
        EdgeElsewhere(w, j, n, a, b);
        assert EdgeOk(EdgeOf(w, a, b));
      }
    }
  }

  /** Every receiver's view of `j` is in order, seen through the schedule of `j`. */
  lemma EdgeNow(w: World, a: string, j: string)
    requires Inv(w) && j in w.nodes
    ensures EdgeOk(EdgeOf(w, a, j)) && EdgeOf(w, a, j) == Rescheduled(EdgeOf(w, a, j), w.nodes[j].schedule, a)
  {
    hide EdgeOk, NodesOk, PeersKnown, Apart, OffersOk, ReceiptsOk, ReceiptFor;
    EdgeRescheduled(w, j, w.nodes[j], a);
  }

  lemma KnowKeyKeeps(w: World, j: string, i: string)
    requires Inv(w) && Enabled(w, KnowKey(j, i))
    ensures Inv(Next(w, KnowKey(j, i)))
  {
    hide EdgeOf, EdgeOk, ChainOk, Inv, Rescheduled;
    ChainOfNode(w, j);
    forall a ensures EdgeOk(Rescheduled(EdgeOf(w, a, j), w.nodes[j].schedule, a)) {
      EdgeNow(w, a, j);
    }
    ScheduleStep(w, j, KeyKnown(w.nodes[j], i, w.nodes[i].seed));
  }

  /** What `j` serves has index `ServedAt` in its lineage. */
  lemma ServedCert(w: World, j: string)
    requires Inv(w) && j in w.nodes
    ensures var (n, h) := (w.nodes[j], w.lineage[j]);
            && 0 <= ServedAt(n, h) < |h.certs| && Served(n) == Ok(h.certs[ServedAt(n, h)])
            && Distinct(h.certs) && |h.announcements| + 1 == |h.certs|
  {
  }

  lemma RequireAckKeeps(w: World, j: string, i: string)
    requires Inv(w) && Enabled(w, RequireAck(j, i))
    ensures Inv(Next(w, RequireAck(j, i)))
  {
    hide ChainOk, Inv, SlidingAt, ReceiptFor;
    ChainOfNode(w, j);
    var n := AckRequired(w.nodes[j], i);
    ServedCert(w, j);
    forall a ensures EdgeOk(Rescheduled(EdgeOf(w, a, j), n.schedule, a)) {
      var e := EdgeOf(w, a, j);
      EdgeNow(w, a, j);
      if a == i && e.window.Some? {
        AcceptedKeepsUp(e);
      }
    }
    ScheduleStep(w, j, n);
  }

  /** A window that accepts what is served is level with it, or one behind with the successor stored. */
  lemma AcceptedKeepsUp(e: Edge)
    requires EdgeOk(e) && e.window.Some? && e.served < |e.certs| && Distinct(e.certs)
    requires Accepts(e.window.value, e.certs[e.served].fp)
    ensures KeepsUp(e)
  {
  }

  lemma WaiveAckKeeps(w: World, j: string, i: string)
    requires Inv(w) && Enabled(w, WaiveAck(j, i))
    ensures Inv(Next(w, WaiveAck(j, i)))
  {
    hide EdgeOf, ChainOk, Inv, SlidingAt;
    ChainOfNode(w, j);
    var n := AckWaived(w.nodes[j], i);
    forall a ensures EdgeOk(Rescheduled(EdgeOf(w, a, j), n.schedule, a)) {
      EdgeNow(w, a, j);
    }
    ScheduleStep(w, j, n);
  }

  /** Handling a receipt records an ack exactly when the receipt covers what is pending and verifies. */
  lemma AckCovers(n: Node, r: Receipt)
    ensures var n' := AckHandled(n, r).0;
            && SameChain(n', n) && n'.ackers == n.ackers
            && (n' == n || (n'.schedule == AckRecorded(n.schedule, r.acker)
                            && (n.pending.Some? ==> PendingFp(n) == Some(r.newFp))))
  {
  }

  /** A receipt for what `j` has pending was meant for `j`: the certificate is in nobody else's lineage. */
  lemma ReceiptIsForPending(w: World, j: string, r: Receipt)
    requires Inv(w) && j in w.nodes && Receipted(r) in w.net && PendingFp(w.nodes[j]) == Some(r.newFp)
    ensures r.announcer == j
  {
    hide ChainOk, NodesOk, EdgesOk, ScheduleOk, Genuine, OffersOk;
    ServedCert(w, j);
    PendingCert(w, j);
    assert ReceiptOk(w.lineage, r);
    var h := w.lineage[r.announcer];
    var k :| k in h.announcements && k.newFp == r.newFp;
    var m :| 0 <= m < |h.announcements| && h.announcements[m] == k;
    GenuineOf(w, r.announcer);
    GenuineLengths(h);
    AnnouncedFp(h, m);
    assert w.lineage[j].certs[ServedAt(w.nodes[j], w.lineage[j]) + 1].fp == h.certs[m + 1].fp;
  }

  lemma DeliverReceiptKeeps(w: World, j: string, r: Receipt)
    requires Inv(w) && j in w.nodes && Receipted(r) in w.net
    ensures Inv(SetNode(w, j, AckHandled(w.nodes[j], r).0))
  {
    hide EdgeOk, ChainOk, Inv, AckHandled;
    AckCovers(w.nodes[j], r);
    ChainOfNode(w, j);
    var n := AckHandled(w.nodes[j], r).0;
    forall a ensures EdgeOk(Rescheduled(EdgeOf(w, a, j), n.schedule, a)) {
      var (e, e') := (EdgeOf(w, a, j), Rescheduled(EdgeOf(w, a, j), n.schedule, a));
      EdgeNow(w, a, j);
      if e'.cleared && !e.cleared {
        ReceiptIsForPending(w, j, r);
        assert a == r.acker && ReceiptFor(w.net, a, j, r.newFp);
      }
      ClearedWithReceipt(e, e'.cleared);
    }
    ScheduleStep(w, j, n);
  }

  lemma ClearedWithReceipt(e: Edge, cleared: bool)
    requires EdgeOk(e) && (cleared ==> e.cleared || e.receipt)
    ensures EdgeOk(e.(cleared := cleared))
  {
  }

  lemma RestartKeeps(w: World, j: string)
    requires Inv(w) && Enabled(w, Restart(j))
    ensures Imported(j, w.nodes[j].seed, Exported(w.nodes[j])).Ok?
    ensures Inv(Next(w, Restart(j)))
  {
    hide EdgeOf, EdgeOk, ChainOk, Inv, Imported, Exported, Restore;
    ChainOfNode(w, j);
    var n := w.nodes[j];
    forall p | p in n.peers
      ensures Restore(n.peers[p].previous, n.peers[p].current, n.peers[p].next) == Ok(n.peers[p])
    {
      ReachableWindowRestores(w, j, p);
    }
    assert n.schedule.peers == set p | p in n.ackers;
    RestartKeepsNode(n);
    var n' := Imported(j, n.seed, Exported(n)).value;
    forall a ensures EdgeOk(Rescheduled(EdgeOf(w, a, j), n'.schedule, a)) {
      EdgeNow(w, a, j);
    }
    ScheduleStep(w, j, n');
  }

  /** Every window a run can reach restores to itself. */
  lemma ReachableWindowRestores(w: World, i: string, j: string)
    requires Inv(w) && i in w.nodes && j in w.nodes[i].peers
    ensures var win := w.nodes[i].peers[j]; Restore(win.previous, win.current, win.next) == Ok(win)
  {
    hide ChainOk, ScheduleOk, Apart, OffersOk, ReceiptsOk, ReceiptFor, Restore;
    ServedCert(w, j);
    var e := EdgeOf(w, i, j);
    assert EdgeOk(e);
    SlidingWindowRestores(e.window.value, e.certs, e.pos);
  }

  lemma IdentityKeeps(w: World, j: string)
    requires Inv(w) && Enabled(w, Identity(j))
    ensures Inv(Next(w, Identity(j)))
  {
    hide Apart, Genuine, EdgeOk, ScheduleOk, Holds;
    var w' := Next(w, Identity(j));
    assert ChainOk(w.nodes[j], w.lineage[j]);
    forall a, b | b in w'.nodes ensures EdgeOk(EdgeOf(w', a, b)) {
      assert EdgeOk(EdgeOf(w, a, b));
      assert forall fp :: ReceiptFor(w'.net, a, b, fp) <==> ReceiptFor(w.net, a, b, fp);
      assert EdgeOf(w', a, b) == EdgeOf(w, a, b);
    }
    if w.nodes[j].pending.Some? {
      ServedCert(w, j);
      assert OfferOk(w.lineage, j, w.nodes[j].pending.value.announcement);
    }
  }

  // ---------------------------------------------------------------- steps that change one window

  /** Only the window of `i` on `j` changes, and perhaps a receipt from `i` to `j` enters the network. */
  ghost predicate OneWindowChanged(w: World, w': World, i: string, j: string) {
    && i in w.nodes && j in w.nodes
    && w'.nodes.Keys == w.nodes.Keys && w'.lineage == w.lineage
    && (forall a :: a in w.nodes && a != i ==> w'.nodes[a] == w.nodes[a])
    && w'.nodes[i] == w.nodes[i].(peers := w'.nodes[i].peers, peerKeys := w'.nodes[i].peerKeys)
    && (forall b :: b != j ==> (b in w'.nodes[i].peers <==> b in w.nodes[i].peers))
    && (forall b :: b != j && b in w.nodes[i].peers ==> w'.nodes[i].peers[b] == w.nodes[i].peers[b])
    && (forall p :: p != (i, j) ==> (p in w'.pos <==> p in w.pos) && (p in w.pos ==> w'.pos[p] == w.pos[p]))
    && (forall m :: m in w.net ==> m in w'.net)
    && (forall m :: m in w'.net && m !in w.net ==>
          m.Receipted? && m.receipt.acker == i && m.receipt.announcer == j && ReceiptOk(w.lineage, m.receipt))
  }

  lemma OtherEdgesStay(w: World, w': World, i: string, j: string, a: string, b: string)
    requires OneWindowChanged(w, w', i, j)
    requires b in w.nodes && b in w.lineage && (a, b) != (i, j)
    ensures EdgeOf(w', a, b) == EdgeOf(w, a, b)
  {
    hide ReceiptOk;
    assert PendingFp(w'.nodes[b]) == PendingFp(w.nodes[b]);
    assert forall fp :: ReceiptFor(w'.net, a, b, fp) <==> ReceiptFor(w.net, a, b, fp);
  }

  lemma NodesKeepTheirChains(w: World, w': World, i: string, j: string)
    requires w.lineage.Keys == w.nodes.Keys && NodesOk(w.nodes, w.lineage) && PeersKnown(w.nodes)
    requires OneWindowChanged(w, w', i, j)
    ensures NodesOk(w'.nodes, w'.lineage) && PeersKnown(w'.nodes)
  {
    hide ChainOk, ScheduleOk, ReceiptOk;
    NodeStaysOk(w.nodes[i], w'.nodes[i], w.lineage[i]);
  }

  lemma MessagesStayOk(w: World, w': World, i: string, j: string)
    requires OneWindowChanged(w, w', i, j)
    requires OffersOk(w.net, w.lineage) && ReceiptsOk(w.net, w.lineage)
    ensures OffersOk(w'.net, w'.lineage) && ReceiptsOk(w'.net, w'.lineage)
  {
  }

  lemma WindowStep(w: World, w': World, i: string, j: string)
    requires Inv(w) && OneWindowChanged(w, w', i, j)
    requires EdgeOk(EdgeOf(w', i, j))
    ensures Inv(w')
  {
    hide EdgeOk, EdgeOf, Apart, ReceiptsOk, OffersOk, NodesOk, PeersKnown;
    NodesKeepTheirChains(w, w', i, j);
    MessagesStayOk(w, w', i, j);
    forall a, b | b in w'.nodes ensures EdgeOk(EdgeOf(w', a, b)) {
      if (a, b) != (i, j) {
        assert EdgeOk(EdgeOf(w, a, b));
        OtherEdgesStay(w, w', i, j, a, b);
      }
    }
  }

  lemma NodeStaysOk(n: Node, m: Node, h: Lineage)
    requires ChainOk(n, h) && ScheduleOk(n) && m == n.(peers := m.peers, peerKeys := m.peerKeys)
    ensures ChainOk(m, h) && ScheduleOk(m)
  {
    hide Genuine, Holds;
  }

  lemma ApproveKeeps(w: World, i: string, j: string)
    requires Inv(w) && Enabled(w, Approve(i, j))
    ensures Inv(Next(w, Approve(i, j)))
  {
    hide Genuine, NodesOk, Apart, OffersOk, ReceiptsOk, OneWindowChanged, EdgeOf, EdgeOk, SlidingAt, ReceiptFor;
    ServedCert(w, j);
    assert EdgeOk(EdgeOf(w, i, j));
    ApprovedEdge(w, i, j);
    ApproveChangesOneWindow(w, i, j);
    WindowStep(w, ApproveNext(w, i, j), i, j);
  }

  /** An anchored receiver stands at what is served, with nothing stored. */
  lemma ApprovedEdge(w: World, i: string, j: string)
    requires i in w.nodes && j in w.nodes && j in w.lineage && EdgeOk(EdgeOf(w, i, j)) && !ReceiptOut(w, i, j)
    requires var (p, h) := (ServedAt(w.nodes[j], w.lineage[j]), w.lineage[j]);
             0 <= p < |h.certs| && Served(w.nodes[j]) == Ok(h.certs[p]) && Distinct(h.certs)
    ensures EdgeOk(EdgeOf(ApproveNext(w, i, j), i, j))
  {
  }

  lemma ApproveChangesOneWindow(w: World, i: string, j: string)
    requires i in w.nodes && j in w.nodes && Served(w.nodes[j]).Ok?
    ensures OneWindowChanged(w, ApproveNext(w, i, j), i, j)
  {
  }

  lemma HandshakeObserves(n: Node, peer: string, fp: string)
    requires peer in n.peers
    ensures HandshakeDone(n, peer, fp).0 == n.(peers := n.peers[peer := Observed(n.peers[peer], fp).0])
  {
  }

  /** Seeing the served certificate leaves a window that is level with it, or unchanged. */
  lemma ServedCertObserved(e: Edge)
    requires EdgeOk(e) && e.window.Some? && e.served < |e.certs| && Distinct(e.certs)
    ensures var (win, promoted) := Observed(e.window.value, e.certs[e.served].fp);
            EdgeOk(e.(window := Some(win), pos := if promoted then e.served else e.pos))
            && (promoted ==> e.pos == e.served - 1)
  {
  }

  lemma HandshakeKeeps(w: World, i: string, j: string)
    requires Inv(w) && Enabled(w, Handshake(i, j))
    ensures Inv(Next(w, Handshake(i, j)))
  {
    hide Genuine, NodesOk, Apart, OffersOk, ReceiptsOk, EdgeOf, EdgeOk, HandshakeDone, Observed, OneWindowChanged;
    if j in w.nodes[i].peers {
      var w' := Next(w, Handshake(i, j));
      ServedCert(w, j);
      var e := EdgeOf(w, i, j);
      assert EdgeOk(e);
      HandshakeEdge(w, i, j);
      assert e.certs == w.lineage[j].certs;
      ServedCertObserved(e);
      HandshakeChangesOneWindow(w, i, j);
      WindowStep(w, w', i, j);
    } else {
      assert HandshakeDone(w.nodes[i], j, Served(w.nodes[j]).value.fp).0 == w.nodes[i] by {
        UnpinnedHandshake(w.nodes[i], j, Served(w.nodes[j]).value.fp);
      }
      assert Next(w, Handshake(i, j)) == w;
    }
  }

  lemma HandshakeEdge(w: World, i: string, j: string)
    requires Pins(w, i, j) && j in w.lineage
    requires var (p, h) := (ServedAt(w.nodes[j], w.lineage[j]), w.lineage[j]);
             0 <= p < |h.certs| && Served(w.nodes[j]) == Ok(h.certs[p])
    ensures var (e, e') := (EdgeOf(w, i, j), EdgeOf(HandshakeNext(w, i, j), i, j));
            var (win, promoted) := Observed(w.nodes[i].peers[j], e.certs[e.served].fp);
            && e.window == Some(w.nodes[i].peers[j]) && 0 <= e.served < |e.certs| && e.certs == w.lineage[j].certs
            && e' == e.(window := Some(win), pos := if promoted then e.served else e.pos)
  {
    hide HandshakeDone, Observed, ReceiptFor;
    HandshakeObserves(w.nodes[i], j, Served(w.nodes[j]).value.fp);
  }

  lemma HandshakeChangesOneWindow(w: World, i: string, j: string)
    requires Pins(w, i, j) && Served(w.nodes[j]).Ok?
    ensures OneWindowChanged(w, HandshakeNext(w, i, j), i, j)
  {
  }

  lemma UnpinnedHandshake(n: Node, peer: string, fp: string)
    requires peer !in n.peers
    ensures HandshakeDone(n, peer, fp) == (n, true)
  {
  }

  lemma EdgeBounds(e: Edge)
    requires EdgeOk(e) && e.window.Some?
    ensures 0 <= e.pos <= e.served && SlidingAt(e.window.value, e.certs, e.pos)
  {
  }

  /** A genuine announcement that is accepted names the successor of the receiver's current certificate. */
  lemma GenuineReceive(h: Lineage, win: Window, p: nat, k: Announcement)
    requires Genuine(h) && SlidingAt(win, h.certs, p) && k in h.announcements
    ensures var r := Receive(win, k);
            r.Ok? ==> p + 1 < |h.certs| && k == h.announcements[p]
                      && r.value.0 == win.(next := Some(h.certs[p + 1]))
  {
    var m :| 0 <= m < |h.announcements| && h.announcements[m] == k;
    assert AnnouncesAt(h, m);
    assert k.currFp == h.certs[m].fp && k.newFp == h.certs[m + 1].fp && CertOf(k.newCertPem) == Ok(h.certs[m + 1]);
  }

  /** Storing the successor brings the receiver to `Ready` if it was level with the announcer. */
  lemma SuccessorStored(e: Edge, e': Edge)
    requires EdgeOk(e) && e.window.Some? && e.pos + 1 < |e.certs|
    requires e' == e.(window := Some(e.window.value.(next := Some(e.certs[e.pos + 1]))), receipt := e'.receipt)
    requires e.receipt ==> e'.receipt
    requires e'.receipt ==> e.receipt || e.pos == e.served
    ensures EdgeOk(e')
  {
  }

  /** An announcement of another node is refused: its certificates are in no window on `j`. */
  lemma ForeignIsRefused(w: World, i: string, j: string, from: string, k: Announcement)
    requires Inv(w) && Pins(w, i, j) && Offer(from, k) in w.net && from != j
    ensures Receive(w.nodes[i].peers[j], k).Err?
  {
    hide ChainOk, NodesOk, ScheduleOk, ReceiptsOk, ReceiptFor, Genuine;
    ServedCert(w, j);
    var e := EdgeOf(w, i, j);
    assert EdgeOk(e);
    assert OfferOk(w.lineage, from, k);
    var h := w.lineage[from];
    var m :| 0 <= m < |h.announcements| && h.announcements[m] == k;
    GenuineOf(w, from);
    GenuineLengths(h);
    AnnouncedFp(h, m);
    assert k.currFp == h.certs[m].fp != e.certs[e.pos].fp;
    assert e.window.value.next.Some? ==> k.newFp == h.certs[m + 1].fp != e.certs[e.pos + 1].fp;
  }

  lemma TakeOfferKeeps(w: World, i: string, j: string, from: string, k: Announcement, now: int)
    requires Inv(w) && Enabled(w, TakeOffer(i, j, from, k, now))
    ensures Inv(Next(w, TakeOffer(i, j, from, k, now)))
  {
    hide Genuine, Apart, Holds, ChainOk, ScheduleOk, Receive, EdgeOk, SlidingAt, Acknowledge;
    var n := w.nodes[i];
    if !Pins(w, i, j) {
      UnapprovedAnswerKeeps(w, i, j, k, now);
    } else if from != j {
      ForeignIsRefused(w, i, j, from, k);
      assert Next(w, TakeOffer(i, j, from, k, now)).nodes == w.nodes;
    } else {
      ServedCert(w, j);
      GenuineOf(w, j);
      var e := EdgeOf(w, i, j);
      assert EdgeOk(e);
      EdgeBounds(e);
      GenuineReceive(w.lineage[j], n.peers[j], e.pos, k);
      if Receive(n.peers[j], k).Ok? {
        AnnouncedFp(w.lineage[j], e.pos);
        if PendingFp(w.nodes[j]) == Some(k.newFp) {
          PendingCert(w, j);
        }
        OfferStored(w, i, j, k, now, e);
      } else {
        assert Next(w, TakeOffer(i, j, from, k, now)).nodes == w.nodes;
      }
    }
  }

  /** Without an approval nothing is stored and a receipt goes out all the same; no window can miss what it covers. */
  lemma UnapprovedAnswerKeeps(w: World, i: string, j: string, k: Announcement, now: int)
    requires i in w.nodes && !Pins(w, i, j) && Offer(j, k) in w.net && Inv(w)
    ensures Inv(TakeOfferNext(w, i, j, k, now))
  {
    hide NodesOk, Apart, ReceiptsOk, ReceiptFor, Acknowledge, OneWindowChanged, SlidingAt, KeepsUp;
    assert OfferOk(w.lineage, j, k);
    ChainOfNode(w, i);
    var w' := TakeOfferNext(w, i, j, k, now);
    UnapprovedAnswerIsLocal(w, i, j, k, now);
    assert EdgeOk(EdgeOf(w, i, j));
    UnapprovedEdge(w, i, j, k, now);
    WindowStep(w, w', i, j);
  }

  lemma UnapprovedAnswerIsLocal(w: World, i: string, j: string, k: Announcement, now: int)
    requires i in w.nodes && j in w.nodes && !Pins(w, i, j) && OfferOk(w.lineage, j, k) && w.nodes[i].name == i
    ensures OneWindowChanged(w, TakeOfferNext(w, i, j, k, now), i, j)
  {
  }

  lemma UnapprovedEdge(w: World, i: string, j: string, k: Announcement, now: int)
    requires i in w.nodes && j in w.nodes && j in w.lineage && !Pins(w, i, j) && w.nodes[i].name == i
    ensures var (e, e') := (EdgeOf(w, i, j), EdgeOf(TakeOfferNext(w, i, j, k, now), i, j));
            e' == e.(receipt := e'.receipt) && e.window.None? && (e.receipt ==> e'.receipt)
  {
  }

  lemma OfferStored(w: World, i: string, j: string, k: Announcement, now: int, e: Edge)
    requires Pins(w, i, j) && j in w.lineage && e == EdgeOf(w, i, j) && Offer(j, k) in w.net
    requires 0 <= e.pos && e.pos + 1 < |e.certs|
    requires Receive(w.nodes[i].peers[j], k).Ok?
    requires Receive(w.nodes[i].peers[j], k).value.0 == w.nodes[i].peers[j].(next := Some(e.certs[e.pos + 1]))
    requires PendingFp(w.nodes[j]) == Some(k.newFp) ==> e.pos == e.served
    requires Inv(w)
    ensures Inv(TakeOfferNext(w, i, j, k, now))
  {
    hide Genuine, Holds, ChainOk, ScheduleOk, Receive, EdgeOk, SlidingAt, Acknowledge, ReceiptOk, OneWindowChanged,
         ReceiptFor;
    assert EdgeOk(e);
    OfferEdge(w, i, j, k, now);
    SuccessorStored(e, EdgeOf(TakeOfferNext(w, i, j, k, now), i, j));
    OfferChangesOneWindow(w, i, j, k, now);
    WindowStep(w, TakeOfferNext(w, i, j, k, now), i, j);
  }

  lemma OfferEdge(w: World, i: string, j: string, k: Announcement, now: int)
    requires Pins(w, i, j) && Receive(w.nodes[i].peers[j], k).Ok? && j in w.lineage
    ensures var (e, e') := (EdgeOf(w, i, j), EdgeOf(TakeOfferNext(w, i, j, k, now), i, j));
            && e' == e.(window := Some(Receive(w.nodes[i].peers[j], k).value.0), receipt := e'.receipt)
            && (e.receipt ==> e'.receipt)
            && (e'.receipt ==> e.receipt || PendingFp(w.nodes[j]) == Some(k.newFp))
  {
    hide Receive;
    ReceiptSent(w, i, j, k, now);
  }

  lemma OfferChangesOneWindow(w: World, i: string, j: string, k: Announcement, now: int)
    requires Pins(w, i, j) && Receive(w.nodes[i].peers[j], k).Ok? && OfferOk(w.lineage, j, k)
    requires w.nodes[i].name == i
    ensures OneWindowChanged(w, TakeOfferNext(w, i, j, k, now), i, j)
  {
    hide Receive;
  }

  lemma ReceiptSent(w: World, i: string, j: string, k: Announcement, now: int)
    requires Pins(w, i, j) && Receive(w.nodes[i].peers[j], k).Ok?
    ensures var w' := TakeOfferNext(w, i, j, k, now);
            && (ReceiptOut(w', i, j) ==> ReceiptOut(w, i, j) || PendingFp(w.nodes[j]) == Some(k.newFp))
            && (ReceiptOut(w, i, j) ==> ReceiptOut(w', i, j))
  {
    hide Receive;
  }

  lemma PendingCert(w: World, j: string)
    requires Inv(w) && j in w.nodes && w.nodes[j].pending.Some?
    ensures var (n, h) := (w.nodes[j], w.lineage[j]);
            ServedAt(n, h) + 2 == |h.certs| && PendingFp(n) == Some(h.certs[ServedAt(n, h) + 1].fp)
  {
    hide Apart, Genuine, EdgeOk, ScheduleOk, Holds, OfferOk, ReceiptOk;
    GenuineOf(w, j);
    assert ChainOk(w.nodes[j], w.lineage[j]);
    ServedCert(w, j);
    AnnouncedFp(w.lineage[j], ServedAt(w.nodes[j], w.lineage[j]));
  }

  lemma AnnouncedFp(h: Lineage, p: nat)
    requires Genuine(h) && p < |h.announcements|
    ensures h.announcements[p].currFp == h.certs[p].fp && h.announcements[p].newFp == h.certs[p + 1].fp
  {
    assert AnnouncesAt(h, p);
  }

  lemma GenuineOf(w: World, j: string)
    requires Inv(w) && j in w.nodes
    ensures Genuine(w.lineage[j])
  {
  }

  // ---------------------------------------------------------------- steps that move a chain

  /** Adding a fresh certificate, announced by the last two generations, keeps a lineage genuine. */
  lemma ExtendedIsGenuine(h: Lineage, newCert: Cert, newKey: Key, k: Announcement)
    requires Genuine(h) && |h.certs| > 0 && newCert.key == Some(newKey)
    requires NewTo(h, newCert.fp)
    requires var last := |h.certs| - 1;
             Announce(h.name, PrevHeld(h, last), Held(h.certs[last].fp, h.keys[last]), PemOf(newCert), k.sentAt)
             == Ok(k)
    ensures Genuine(Extended(h, newCert, newKey, k))
  {
    hide Announce;
    var h' := Extended(h, newCert, newKey, k);
    forall i | 0 <= i < |h'.announcements| ensures AnnouncesAt(h', i) {
      if i < |h.announcements| {
        assert AnnouncesAt(h, i);
      }
    }
  }

  lemma ChainOfNode(w: World, j: string)
    requires Inv(w) && j in w.nodes
    ensures j in w.lineage
    ensures w.nodes[j].name == j && ChainOk(w.nodes[j], w.lineage[j]) && ScheduleOk(w.nodes[j])
  {
  }

  lemma AnnounceSucceeds(name: string, prevFp: Option<Fp>, prev: Option<Held>, currFp: Fp, curr: Held, newCert: Cert,
                         now: int)
    requires IsComponentName(name) && curr.fp == currFp
    requires prev.Some? == prevFp.Some? && (prev.Some? ==> prev.value.fp == prevFp.value)
    ensures var r := Announce(name, prev, curr, PemOf(newCert), now);
            r.Ok? && r.value.newFp == newCert.fp && r.value.sentAt == now
  {
  }

  /** `prepare` on an idle node succeeds and leaves its chain in order, one announcement longer. */
  lemma PreparedChain(n: Node, h: Lineage, now: int, newCert: Cert, newKey: Key)
    requires ChainOk(n, h) && n.pending.None? && newCert.key == Some(newKey)
    requires NewTo(h, newCert.fp)
    ensures var (n', r) := Prepared(n, now, newCert, newKey);
            && r.Ok?
            && ChainOk(n', Extended(h, newCert, newKey, r.value))
            && ServedAt(n', Extended(h, newCert, newKey, r.value)) == ServedAt(n, h)
            && PendingFp(n') == Some(newCert.fp)
  {
    hide Announce, Genuine;
    GenuineLengths(h);
    var last := |h.certs| - 1;
    assert PrevHeldOf(n) == PrevHeld(h, last);
    AnnounceSucceeds(h.name, if last > 0 then Some(h.certs[last - 1].fp) else None, PrevHeldOf(n), h.certs[last].fp,
                     HeldOf(n.current), newCert, now);
    var k := Announce(n.name, PrevHeldOf(n), HeldOf(n.current), PemOf(newCert), now).value;
    ExtendedIsGenuine(h, newCert, newKey, k);
    var h' := Extended(h, newCert, newKey, k);
    assert h'.certs[last + 1] == newCert && h'.announcements[last] == k;
  }

  lemma NewToItself(w: World, j: string, newCert: Cert, newKey: Key)
    requires NewCertAllowed(w, j, newCert, newKey)
    ensures NewTo(w.lineage[j], newCert.fp)
  {
  }

  lemma PrepareKeeps(w: World, j: string, now: int, newCert: Cert, newKey: Key)
    requires Inv(w) && Enabled(w, Prepare(j, now, newCert, newKey))
    ensures Inv(Next(w, Prepare(j, now, newCert, newKey)))
  {
    hide Genuine, Holds, ChainOk, EdgeOk, Announce;
    if w.nodes[j].pending.None? {
      ChainOfNode(w, j);
      var (n, h) := (w.nodes[j], w.lineage[j]);
      PreparedChain(n, h, now, newCert, newKey);
      var (n', r) := Prepared(n, now, newCert, newKey);
      AnnouncementPublished(w, j, n', Extended(h, newCert, newKey, r.value), newCert);
    }
  }

  /** Everyone registered is waited for, and no receipt can cover a certificate nobody has heard of. */
  lemma AnnouncementPublished(w: World, j: string, n: Node, h: Lineage, newCert: Cert)
    requires j in w.nodes && j in w.lineage && w.nodes[j].pending.None? && n.pending.Some?
    requires n.name == j && n.peers == w.nodes[j].peers && n.schedule.peers == w.nodes[j].schedule.peers
    requires n.schedule.state.Announced? && n.schedule.state.waitingFor == n.schedule.peers
    requires ChainOk(n, h) && ScheduleOk(n) && ServedAt(n, h) == ServedAt(w.nodes[j], w.lineage[j])
    requires h.certs == w.lineage[j].certs + [newCert] && w.lineage[j].announcements <= h.announcements
    requires PendingFp(n) == Some(newCert.fp)
    requires forall b :: b in w.lineage ==> NewTo(w.lineage[b], newCert.fp)
    requires Inv(w)
    ensures Inv(SetNode(w, j, n).(lineage := w.lineage[j := h]))
  {
    hide Apart, NewTo, ChainOk, EdgeOk, EdgeOf, ScheduleOk, NodesOk, PeersKnown, OffersOk, ReceiptsOk;
    var w' := SetNode(w, j, n).(lineage := w.lineage[j := h]);
    NodesUpdated(w, j, n, h);
    StillApart(w.lineage, j, h, newCert);
    MessagesStillOk(w, j, h);
    forall a, b | b in w'.nodes ensures EdgeOk(EdgeOf(w', a, b)) {
      assert EdgeOk(EdgeOf(w, a, b));
      if b == j {
        NobodyAcked(w, a, j, newCert);
        PublishedEdge(w, j, n, h, newCert, a);
        LongerChain(EdgeOf(w, a, j), newCert);
      } else {
        EdgeElsewhere(w, j, n, a, b);
        assert EdgeOf(w', a, b) == EdgeOf(SetNode(w, j, n), a, b) by {
          SameLineageSameEdge(SetNode(w, j, n), w', a, b);
        }
      }
    }
  }

  lemma StillApart(lineage: map<string, Lineage>, j: string, h: Lineage, newCert: Cert)
    requires Apart(lineage) && j in lineage && h.certs == lineage[j].certs + [newCert]
    requires forall b :: b in lineage ==> NewTo(lineage[b], newCert.fp)
    ensures Apart(lineage[j := h])
  {
  }

  lemma SameLineageSameEdge(w: World, w': World, a: string, b: string)
    requires w' == w.(lineage := w'.lineage) && b in w.nodes && b in w.lineage && b in w'.lineage
    requires w.lineage[b] == w'.lineage[b]
    ensures EdgeOf(w', a, b) == EdgeOf(w, a, b)
  {
  }

  lemma PublishedEdge(w: World, j: string, n: Node, h: Lineage, newCert: Cert, a: string)
    requires j in w.nodes && j in w.lineage
    requires n.peers == w.nodes[j].peers && n.schedule.peers == w.nodes[j].schedule.peers
    requires n.schedule.state.Announced? && n.schedule.state.waitingFor == n.schedule.peers
    requires ServedAt(n, h) == ServedAt(w.nodes[j], w.lineage[j]) && h.certs == w.lineage[j].certs + [newCert]
    requires PendingFp(n) == Some(newCert.fp) && !ReceiptFor(w.net, a, j, newCert.fp)
    ensures var e := EdgeOf(w, a, j);
            EdgeOf(SetNode(w, j, n).(lineage := w.lineage[j := h]), a, j)
            == e.(certs := e.certs + [newCert], cleared := false, receipt := false)
  {
  }

  lemma MessagesStillOk(w: World, j: string, h: Lineage)
    requires j in w.lineage && w.lineage[j].announcements <= h.announcements
    requires OffersOk(w.net, w.lineage) && ReceiptsOk(w.net, w.lineage)
    ensures OffersOk(w.net, w.lineage[j := h]) && ReceiptsOk(w.net, w.lineage[j := h])
  {
  }

  lemma NobodyAcked(w: World, a: string, j: string, newCert: Cert)
    requires Inv(w) && j in w.nodes
    requires NewTo(w.lineage[j], newCert.fp)
    ensures !ReceiptFor(w.net, a, j, newCert.fp)
  {
    hide Holds, ChainOk, EdgeOk, ScheduleOk, Genuine;
    if ReceiptFor(w.net, a, j, newCert.fp) {
      var r :| Receipted(r) in w.net && r.acker == a && r.announcer == j && r.newFp == newCert.fp;
      assert ReceiptOk(w.lineage, r);
      var h := w.lineage[j];
      var k :| k in h.announcements && k.newFp == r.newFp;
      var m :| 0 <= m < |h.announcements| && h.announcements[m] == k;
      GenuineOf(w, j);
      AnnouncedFp(h, m);
      ServedCert(w, j);
    }
  }

  lemma LongerChain(e: Edge, newCert: Cert)
    requires EdgeOk(e)
    ensures EdgeOk(e.(certs := e.certs + [newCert], cleared := false, receipt := false))
  {
  }

  /** Rolling with every registered receiver ready leaves each of them one step behind with the successor stored. */
  lemma EdgeAfterRoll(e: Edge)
    requires EdgeOk(e) && (e.registered ==> e.cleared)
    ensures EdgeOk(e.(served := e.served + 1, cleared := false, receipt := false))
  {
  }

  lemma RolledChain(n: Node, h: Lineage, now: int, draw: Option<int>)
    requires ChainOk(n, h) && ScheduleOk(n) && RollEnabled(n, now) && draw.Some?
    ensures var n' := RollTried(n, now, draw);
            && ChainOk(n', h) && ScheduleOk(n') && ServedAt(n', h) == ServedAt(n, h) + 1
  {
    hide Genuine, Announce;
    GenuineLengths(h);
    AnnouncedFp(h, ServedAt(n, h));
  }

  lemma GenuineLengths(h: Lineage)
    requires Genuine(h)
    ensures |h.certs| == |h.keys| == |h.announcements| + 1
  {
  }

  lemma RollKeeps(w: World, j: string, now: int, draw: Option<int>)
    requires Inv(w) && Enabled(w, Roll(j, now, draw))
    ensures Inv(Next(w, Roll(j, now, draw)))
  {
    hide ChainOk, EdgeOk, EdgeOf, ScheduleOk, NodesOk, PeersKnown, Apart, OffersOk, ReceiptsOk, RollTried, RollEnabled;
    var (n, h) := (w.nodes[j], w.lineage[j]);
    var n' := RollTried(n, now, draw);
    var w' := SetNode(w, j, n');
    if RollEnabled(n, now) {
      ChainOfNode(w, j);
      RolledChain(n, h, now, draw);
      RollKeepsPeers(n, now, draw);
      NodesUpdated(w, j, n', h);
      assert w.lineage[j := h] == w.lineage;
      forall a, b | b in w'.nodes ensures EdgeOk(EdgeOf(w', a, b)) {
        assert EdgeOk(EdgeOf(w, a, b));
        if b == j {
          RolledEdge(w, j, now, draw, a);
          EdgeAfterRoll(EdgeOf(w, a, j));
        } else {
          EdgeElsewhere(w, j, n', a, b);
        }
      }
    } else {
      RefusedRoll(n, now, draw);
      assert w' == w by {
        assert w.nodes[j := n] == w.nodes;
      }
    }
  }

  lemma RollKeepsPeers(n: Node, now: int, draw: Option<int>)
    ensures RollTried(n, now, draw).name == n.name && RollTried(n, now, draw).peers == n.peers
  {
  }

  lemma RefusedRoll(n: Node, now: int, draw: Option<int>)
    requires !RollEnabled(n, now)
    ensures RollTried(n, now, draw) == n
  {
  }

  lemma RolledEdge(w: World, j: string, now: int, draw: Option<int>, a: string)
    requires j in w.nodes && j in w.lineage && ScheduleOk(w.nodes[j]) && RollEnabled(w.nodes[j], now) && draw.Some?
    ensures var e := EdgeOf(w, a, j);
            && EdgeOf(SetNode(w, j, RollTried(w.nodes[j], now, draw)), a, j)
               == e.(served := e.served + 1, cleared := false, receipt := false)
            && (e.registered ==> e.cleared)
  {
  }

  // ---------------------------------------------------------------- receipts carry their sender's signature

  predicate SignedBySender(w: World, r: Receipt) {
    r.acker in w.nodes
    && Acknowledge(r.acker, r.announcer, r.newFp, r.sentAt, w.nodes[r.acker].seed) == Ok(r)
  }

  predicate SameSeeds(w: World, w': World) {
    w'.nodes.Keys == w.nodes.Keys && forall a :: a in w.nodes ==> w'.nodes[a].seed == w.nodes[a].seed
  }

  lemma StepKeepsSeeds(w: World, s: Step)
    requires Enabled(w, s)
    ensures SameSeeds(w, Next(w, s))
  {
    hide HandshakeDone, OfferTaken, AckHandled, RollTried, Imported, Prepared, IdentityOf, CanForge;
    match s
    case Handshake(i, j) => HandshakeKeepsKeys(w.nodes[i], j, Served(w.nodes[j]).value.fp);
    case TakeOffer(i, j, _, k, now) => OfferKeepsKeys(w.nodes[i], j, k, now);
    case DeliverReceipt(to, r) => AckKeepsKeys(w.nodes[to], r);
    case Roll(j, now, draw) => RollKeepsKeys(w.nodes[j], now, draw);
    case Prepare(j, now, cert, key) => PrepareKeepsKeys(w.nodes[j], now, cert, key);
    case Restart(j) => ImportKeepsKeys(w.nodes[j].name, w.nodes[j].seed, Exported(w.nodes[j]));
    case _ =>
  }

  lemma HandshakeKeepsKeys(n: Node, peer: string, fp: string)
    ensures HandshakeDone(n, peer, fp).0.seed == n.seed && HandshakeDone(n, peer, fp).0.peerKeys == n.peerKeys
  {
  }

  lemma OfferKeepsKeys(n: Node, peer: string, k: Announcement, now: int)
    ensures OfferTaken(n, peer, k, now).0.seed == n.seed && OfferTaken(n, peer, k, now).0.peerKeys == n.peerKeys
  {
  }

  lemma AckKeepsKeys(n: Node, r: Receipt)
    ensures AckHandled(n, r).0.seed == n.seed && AckHandled(n, r).0.peerKeys == n.peerKeys
  {
  }

  lemma RollKeepsKeys(n: Node, now: int, draw: Option<int>)
    ensures RollTried(n, now, draw).seed == n.seed && RollTried(n, now, draw).peerKeys == n.peerKeys
  {
  }

  lemma PrepareKeepsKeys(n: Node, now: int, cert: Cert, key: Key)
    ensures Prepared(n, now, cert, key).0.seed == n.seed && Prepared(n, now, cert, key).0.peerKeys == n.peerKeys
  {
  }

  lemma ImportKeepsKeys(name: string, seed: Key, s: Snapshot)
    ensures Imported(name, seed, s).Ok? ==>
              Imported(name, seed, s).value.seed == seed && Imported(name, seed, s).value.peerKeys == s.keys
  {
  }

  /** Only answering an announcement puts a receipt on the network. */
  lemma NewReceipt(w: World, s: Step, r: Receipt)
    requires Enabled(w, s) && Receipted(r) in Next(w, s).net && Receipted(r) !in w.net
    ensures s.TakeOffer? && s.i in w.nodes
            && Acknowledge(w.nodes[s.i].name, s.j, s.k.newFp, s.now, w.nodes[s.i].seed) == Ok(r)
  {
    hide HandshakeDone, AckHandled, RollTried, Imported, Prepared, Receive, Acknowledge, CanForge;
  }

  lemma AcknowledgeFields(acker: string, announcer: string, newFp: string, sentAt: int, seed: Key)
    ensures var r := Acknowledge(acker, announcer, newFp, sentAt, seed);
            r.Ok? ==> r.value.acker == acker && r.value.announcer == announcer && r.value.newFp == newFp
                      && r.value.sentAt == sentAt
  {
  }

  /** Known keys are the real ones, and every receipt on the network is signed by its sender. */
  ghost predicate Credentials(w: World) {
    && (forall a, p :: a in w.nodes && p in w.nodes[a].peerKeys ==> KnowsKey(w, a, p))
    && (forall r :: Receipted(r) in w.net ==> SignedBySender(w, r))
  }

  predicate KnowsKey(w: World, a: string, p: string)
    requires a in w.nodes && p in w.nodes[a].peerKeys
  {
    p in w.nodes && w.nodes[a].peerKeys[p] == w.nodes[p].seed
  }

  lemma NewReceiptIsSigned(w: World, s: Step, r: Receipt)
    requires Inv(w) && Enabled(w, s) && Receipted(r) in Next(w, s).net && Receipted(r) !in w.net
    ensures SignedBySender(w, r)
  {
    hide Inv, Next, Acknowledge, Enabled;
    NewReceipt(w, s, r);
    ChainOfNode(w, s.i);
    AcknowledgeFields(s.i, s.j, s.k.newFp, s.now, w.nodes[s.i].seed);
  }

  /** A key that a step makes known is the real one. */
  lemma NewKeyIsReal(w: World, s: Step, a: string, p: string)
    requires Enabled(w, s) && a in Next(w, s).nodes && a in w.nodes && p in Next(w, s).nodes[a].peerKeys
    ensures (p in w.nodes[a].peerKeys && w.nodes[a].peerKeys[p] == Next(w, s).nodes[a].peerKeys[p])
            || (p in w.nodes && Next(w, s).nodes[a].peerKeys[p] == w.nodes[p].seed)
  {
    hide HandshakeDone, OfferTaken, AckHandled, RollTried, Imported, Prepared, IdentityOf, CanForge;
    match s
    case Handshake(i, j) => HandshakeKeepsKeys(w.nodes[i], j, Served(w.nodes[j]).value.fp);
    case TakeOffer(i, j, _, k, now) => OfferKeepsKeys(w.nodes[i], j, k, now);
    case DeliverReceipt(to, r) => AckKeepsKeys(w.nodes[to], r);
    case Roll(j, now, draw) => RollKeepsKeys(w.nodes[j], now, draw);
    case Prepare(j, now, cert, key) => PrepareKeepsKeys(w.nodes[j], now, cert, key);
    case Restart(j) => ImportKeepsKeys(w.nodes[j].name, w.nodes[j].seed, Exported(w.nodes[j]));
    case _ =>
  }

  lemma StepKeepsCredentials(w: World, s: Step)
    requires Inv(w) && Credentials(w) && Enabled(w, s)
    ensures Credentials(Next(w, s))
  {
    hide Inv, Next, Enabled, Acknowledge;
    var w' := Next(w, s);
    StepKeepsSeeds(w, s);
    forall r | Receipted(r) in w'.net ensures SignedBySender(w', r) {
      if Receipted(r) !in w.net {
        NewReceiptIsSigned(w, s, r);
      }
      assert SignedBySender(w, r);
    }
    forall a, p | a in w'.nodes && p in w'.nodes[a].peerKeys ensures KnowsKey(w', a, p) {
      NewKeyIsReal(w, s, a, p);
      assert p in w.nodes[a].peerKeys ==> KnowsKey(w, a, p);
    }
  }

  /** Without the acker's key no receipt is accepted that the acker has not sent, with these very fields. */
  lemma AcceptedWasSent(w: World, j: string, r: Receipt)
    requires Credentials(w) && j in w.nodes && CanForge(w, r.sig) && AckHandled(w.nodes[j], r).1.Ok?
    ensures Receipted(r) in w.net && SignedBySender(w, r)
  {
    hide Acknowledge, RotateAckV2;
    var mine := RotateAck(r.acker, r.announcer, r.newFp, r.sentAt);
    var key := w.nodes[j].peerKeys[r.acker];
    assert KnowsKey(w, j, r.acker);
    assert Builds(mine, r.sig.message);
    forall m: Canonical.Message | Builds(m, r.sig.message) ensures m.RotateAck? {
      CanonicalInjective(m, mine, r.sig.message);
    }
    var sent :| Receipted(sent) in w.net && sent.sig == r.sig;
    assert SignedBySender(w, sent);
    SentVerifies(sent, w.nodes[sent.acker].seed);
    ReceiptVerifiesExactly(r, key, r.newFp);
    OneSignatureOneReceipt(r, sent, key, w.nodes[sent.acker].seed, r.newFp, sent.newFp);
  }

  lemma SentVerifies(r: Receipt, seed: Key)
    requires Acknowledge(r.acker, r.announcer, r.newFp, r.sentAt, seed) == Ok(r)
    ensures VerifyReceipt(r, seed, r.newFp).Ok?
  {
    ReceiptVerifiesExactly(r, seed, r.newFp);
  }

  /** Delivering anything an adversary can make, to anybody, keeps the invariant. */
  lemma DeliverAnythingKeeps(w: World, j: string, r: Receipt)
    requires Inv(w) && Credentials(w) && Enabled(w, DeliverReceipt(j, r))
    ensures Inv(Next(w, DeliverReceipt(j, r)))
  {
    hide Inv, AckHandled, Credentials, CanForge;
    if AckHandled(w.nodes[j], r).1.Ok? {
      AcceptedWasSent(w, j, r);
      DeliverReceiptKeeps(w, j, r);
    } else {
      RefusedReceipt(w.nodes[j], r);
      assert w.nodes[j := w.nodes[j]] == w.nodes;
    }
  }

  lemma RefusedReceipt(n: Node, r: Receipt)
    requires AckHandled(n, r).1.Err?
    ensures AckHandled(n, r).0 == n
  {
  }

  // ---------------------------------------------------------------- whole runs

  lemma StepKeeps(w: World, s: Step)
    requires Inv(w) && Credentials(w) && Enabled(w, s)
    ensures Inv(Next(w, s)) && Credentials(Next(w, s))
  {
    hide Inv, Credentials;
    StepKeepsCredentials(w, s);
    match s
    case KnowKey(j, i) => KnowKeyKeeps(w, j, i);
    case Approve(i, j) => ApproveKeeps(w, i, j);
    case RequireAck(j, i) => RequireAckKeeps(w, j, i);
    case WaiveAck(j, i) => WaiveAckKeeps(w, j, i);
    case Prepare(j, now, newCert, newKey) => PrepareKeeps(w, j, now, newCert, newKey);
    case Identity(j) => IdentityKeeps(w, j);
    case Handshake(i, j) => HandshakeKeeps(w, i, j);
    case TakeOffer(i, j, from, k, now) => TakeOfferKeeps(w, i, j, from, k, now);
    case DeliverReceipt(to, r) => DeliverAnythingKeeps(w, to, r);
    case Roll(j, now, draw) => RollKeeps(w, j, now, draw);
    case Restart(j) => RestartKeeps(w, j);
  }

  /** Fresh nodes: one own certificate each, no two alike, nobody approved, nothing announced. */
  ghost predicate Init(w: World) {
    && w.net == {} && w.pos == map[] && w.lineage.Keys == w.nodes.Keys && Apart(w.lineage)
    && forall j :: j in w.nodes ==> NewNode(j, w.nodes[j], w.lineage[j])
  }

  ghost predicate NewNode(j: string, n: Node, h: Lineage) {
    && n.name == j && IsComponentName(j)
    && n.peers == map[] && n.peerKeys == map[] && n.ackers == []
    && n.previous.None? && n.pending.None? && n.rotations == 0
    && n.schedule == Sched(Idle(0), {}, None)
    && |h.certs| == 1 && h.certs[0].key == Some(n.current.key)
    && h == Lineage(j, h.certs, [n.current.key], [])
    && n.current == Material(h.certs[0].fp, PemOf(h.certs[0]), n.current.key)
  }

  /** Every step of the run is taken from a state that allows it. */
  ghost predicate Allowed(w: World, steps: seq<Step>)
    decreases |steps|
  {
    steps == [] || (Enabled(w, steps[0]) && Allowed(Next(w, steps[0]), steps[1..]))
  }

  ghost function Run(w: World, steps: seq<Step>): World
    requires Allowed(w, steps)
    decreases |steps|
  {
    if steps == [] then w else Run(Next(w, steps[0]), steps[1..])
  }

  lemma InitInv(w: World)
    requires Init(w)
    ensures Inv(w) && Credentials(w)
  {
    hide NewNode, Apart, ChainOk, ScheduleOk, EdgeOk, EdgeOf;
    forall b | b in w.nodes
      ensures w.nodes[b].name == b && ChainOk(w.nodes[b], w.lineage[b]) && ScheduleOk(w.nodes[b])
    {
      NewNodeOk(b, w.nodes[b], w.lineage[b]);
    }
    forall a, b | b in w.nodes ensures EdgeOk(EdgeOf(w, a, b)) {
      NewEdgeOk(w, a, b);
    }
    forall a | a in w.nodes ensures w.nodes[a].peers == map[] && w.nodes[a].peerKeys == map[] {
      assert NewNode(a, w.nodes[a], w.lineage[a]);
      NewNodeOk(a, w.nodes[a], w.lineage[a]);
    }
  }

  lemma NewNodeOk(j: string, n: Node, h: Lineage)
    requires NewNode(j, n, h)
    ensures n.name == j && n.peers == map[] && n.peerKeys == map[] && ChainOk(n, h) && ScheduleOk(n)
  {
  }

  lemma NewEdgeOk(w: World, a: string, b: string)
    requires Init(w) && b in w.nodes
    ensures EdgeOk(EdgeOf(w, a, b))
  {
    hide ReceiptFor, Apart;
    assert NewNode(b, w.nodes[b], w.lineage[b]);
    assert a in w.nodes ==> NewNode(a, w.nodes[a], w.lineage[a]);
  }

  lemma {:induction false} RunKeeps(w: World, steps: seq<Step>)
    requires Inv(w) && Credentials(w) && Allowed(w, steps)
    ensures Inv(Run(w, steps)) && Credentials(Run(w, steps))
    decreases |steps|
  {
    hide Inv, Credentials, Next, Enabled;
    if steps != [] {
      StepKeeps(w, steps[0]);
      RunKeeps(Next(w, steps[0]), steps[1..]);
    }
  }

  /**
   In any state of any run, a registered receiver accepts what its announcer serves: it is its current certificate, or
   it is its stored successor and the announcer's previous one is its current.
   */
  lemma RegisteredAccepts(w: World, i: string, j: string)
    requires Inv(w) && Pins(w, i, j) && i in w.nodes[j].schedule.peers
    ensures Served(w.nodes[j]).Ok?
    ensures var (n, win, cert) := (w.nodes[j], w.nodes[i].peers[j], Served(w.nodes[j]).value);
            && cert.fp == n.current.fp
            && (win.current == cert
                || (win.next == Some(cert) && n.previous.Some? && win.current.fp == n.previous.value.fp))
            && HandshakeDone(w.nodes[i], j, cert.fp).1
  {
    hide Genuine, ScheduleOk, NodesOk, Apart, OffersOk, ReceiptsOk, ReceiptFor, Distinct;
    ServedCert(w, j);
    ChainOfNode(w, j);
    var e := EdgeOf(w, i, j);
    assert EdgeOk(e);
    AcceptsMeansCurrentOrNext(e.window.value, e.certs[e.served].fp);
  }

  /**
   No interleaving ever breaks a handshake: from fresh nodes, whatever is prepared, fetched, stored, acked, rolled,
   registered, removed or restarted, and whatever the network drops, repeats or reorders.
   */
  lemma NoHandshakeBreaks(w: World, steps: seq<Step>, i: string, j: string)
    requires Init(w) && Allowed(w, steps)
    requires var w' := Run(w, steps); Pins(w', i, j) && i in w'.nodes[j].schedule.peers
    ensures var w' := Run(w, steps);
            && Served(w'.nodes[j]).Ok?
            && HandshakeDone(w'.nodes[i], j, Served(w'.nodes[j]).value.fp).1
  {
    hide Inv, Credentials, Enabled, Next;
    InitInv(w);
    RunKeeps(w, steps);
    RegisteredAccepts(Run(w, steps), i, j);
  }

  // ---------------------------------------------------------------- what the hypotheses buy

  /** Registering keeps the invariant exactly when a receiver that already pins the announcer accepts what it serves. */
  lemma RegistrationIsExact(w: World, j: string, i: string)
    requires Inv(w) && j in w.nodes
    ensures Inv(SetNode(w, j, AckRequired(w.nodes[j], i))) <==> RegistrationAllowed(w, j, i)
  {
    hide Genuine, EdgeOk, ChainOk, ScheduleOk, HandshakeDone;
    var w' := SetNode(w, j, AckRequired(w.nodes[j], i));
    if RegistrationAllowed(w, j, i) {
      assert w' == Next(w, RequireAck(j, i));
      RequireAckKeeps(w, j, i);
    } else if Inv(w') {
      RegisteredAccepts(w', i, j);
      ServedCert(w, j);
      AcceptsMeansCurrentOrNext(w.nodes[i].peers[j], Served(w.nodes[j]).value.fp);
    }
  }

  /** Approving keeps the invariant exactly when no receipt for the pending announcement is out. */
  lemma ApprovalIsExact(w: World, i: string, j: string)
    requires i in w.nodes && j in w.nodes && Served(w.nodes[j]).Ok? && Inv(w)
    ensures Inv(ApproveNext(w, i, j)) <==> ApprovalAllowed(w, i, j)
  {
    hide Inv, ReceiptFor;
    ChainOfNode(w, j);
    if ApprovalAllowed(w, i, j) {
      ApproveKeeps(w, i, j);
    } else {
      ReceiptWithoutSuccessor(ApproveNext(w, i, j), i, j);
    }
  }

  lemma ReceiptWithoutSuccessor(w: World, i: string, j: string)
    requires j in w.nodes && j in w.lineage && EdgeOf(w, i, j).receipt
    requires EdgeOf(w, i, j).window.Some? && !Ready(EdgeOf(w, i, j))
    ensures !Inv(w)
  {
    hide EdgeOf, Apart, ReceiptsOk, OffersOk, NodesOk, PeersKnown;
  }

  /** Approving anew after the ack, and then rolling, leaves a registered receiver that refuses what is served. */
  lemma ApprovalAfterAckBreaks(w: World, i: string, j: string, now: int, draw: Option<int>)
    requires Inv(w) && Pins(w, i, j) && i in w.nodes[j].schedule.peers && Served(w.nodes[j]).Ok?
    requires RollEnabled(w.nodes[j], now) && draw.Some?
    ensures var w1 := ApproveNext(w, i, j);
            var w2 := SetNode(w1, j, RollTried(w1.nodes[j], now, draw));
            && i in w2.nodes[j].schedule.peers && Served(w2.nodes[j]).Ok?
            && !HandshakeDone(w2.nodes[i], j, Served(w2.nodes[j]).value.fp).1
  {
    hide Genuine, EdgeOk, ScheduleOk, Holds;
    ServedCert(w, j);
    PendingCert(w, j);
    ChainOfNode(w, j);
    var h := w.lineage[j];
    var win := Anchored(Served(w.nodes[j]).value);
    AcceptsMeansCurrentOrNext(win, h.certs[ServedAt(w.nodes[j], h) + 1].fp);
  }
}
