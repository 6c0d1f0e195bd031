/**
 The whole network with a disk-backed announcer (src/announcer.rs) behind every node: the announcers' calls, their
 restarts among them, are steps of the ring, so no registered receiver ever refuses what an announcer's resolver serves.
 */
module Composition {
  import opened Prelude
  import opened Announcements
  import opened Schedules
  import opened Disks
  import opened Refinement
  import A = Announcers
  import N = Nodes
  import W = Windows
  import Progress
  import Ring

  datatype System = System(world: Ring.World, own: map<string, A.State>)

  /** Peers are given to an announcer when it is built, so they change by a restart. */
  datatype Event =
    | Elsewhere(step: Ring.Step)
    | Prepare(j: string, now: int, newCert: Cert, newKey: Key)
    | Receive(j: string, r: Receipt)
    | Roll(j: string, now: int, draw: int)
    | Restart(j: string)
    | Register(j: string, i: string)
    | Deregister(j: string, i: string)

  /** The node whose own half a step of the ring is about. */
  function Owner(s: Ring.Step): Option<string> {
    match s
    case RequireAck(j, _) => Some(j)
    case WaiveAck(j, _) => Some(j)
    case Prepare(j, _, _, _) => Some(j)
    case DeliverReceipt(to, _) => Some(to)
    case Roll(j, _, _) => Some(j)
    case Restart(j) => Some(j)
    case _ => None
  }

  function StepsOf(e: Event): seq<Ring.Step> {
    match e
    case Elsewhere(step) => [step]
    case Prepare(j, now, cert, key) => [Ring.Prepare(j, now, cert, key)]
    case Receive(j, r) => [Ring.DeliverReceipt(j, r)]
    case Roll(j, now, draw) => [Ring.Roll(j, now, Some(draw))]
    case Restart(j) => [Ring.Restart(j)]
    case Register(j, i) => [Ring.RequireAck(j, i), Ring.Restart(j)]
    case Deregister(j, i) => [Ring.WaiveAck(j, i), Ring.Restart(j)]
  }

  /** The rules of the ring; certificates are always made anew, and peers change only while nothing is announced. */
  ghost predicate Possible(y: System, e: Event) {
    && Ring.Allowed(y.world, StepsOf(e))
    && (e.Elsewhere? ==> Owner(e.step).None?)
    && (!e.Elsewhere? ==> e.j in y.own && e.j in y.world.nodes)
    && (e.Prepare? ==> Ring.NewCertAllowed(y.world, e.j, e.newCert, e.newKey))
    && (e.Register? || e.Deregister? ==> y.own[e.j].pending.None?)
  }

  /** A call whose rule is met, on a working disk. */
  function Call(s: A.State, anchor: A.OwnMaterial, c: A.Call): A.State {
    if A.CallAllowed(s, c) then A.Called(s, anchor, c) else s
  }

  /** The announcer built again over its own disk, with a resolver that serves the end of its chain. */
  function RestartedOver(s: A.State, anchor: A.OwnMaterial): A.State {
    Call(s, anchor, A.Restart(0, s.material.current.fp))
  }

  ghost function OwnAfter(n: N.Node, s: A.State, anchor: A.OwnMaterial, e: Event): A.State {
    match e
    case Elsewhere(_) => s
    case Prepare(_, now, cert, key) => Call(s, anchor, A.Prepare(now, Ok(TlsMaterial([cert], key))))
    case Receive(_, r) => if N.AckHandled(n, r).1.Ok? then Call(s, anchor, A.Ack(r.acker)) else s
    case Roll(_, now, draw) => Call(s, anchor, A.Roll(now, true, draw))
    case Restart(_) => RestartedOver(s, anchor)
    case Register(_, i) => RestartedOver(s.(schedule := PeerAdded(s.schedule, i)), anchor)
    case Deregister(_, i) => RestartedOver(s.(schedule := PeerRemoved(s.schedule, i)), anchor)
  }

  ghost function After(y: System, anchors: map<string, A.OwnMaterial>, e: Event): System
    requires Possible(y, e) && y.own.Keys <= anchors.Keys
  {
    System(Ring.Run(y.world, StepsOf(e)),
           if e.Elsewhere? then y.own else y.own[e.j := OwnAfter(y.world.nodes[e.j], y.own[e.j], anchors[e.j], e)])
  }

  // ---------------------------------------------------------------- what is kept

  /** An up-to-date announcer that stands where its node stands. */
  ghost predicate Agrees(n: N.Node, s: A.State, anchor: A.OwnMaterial) {
    A.Quiescent(s, anchor) && OfAnnouncer(s) == OfNode(n)
  }

  ghost predicate Coupled(y: System, anchors: map<string, A.OwnMaterial>) {
    && y.own.Keys == y.world.nodes.Keys == anchors.Keys
    && (forall j :: j in y.own ==> Agrees(y.world.nodes[j], y.own[j], anchors[j]))
    && Ring.Inv(y.world) && Ring.Credentials(y.world)
  }

  ghost predicate Start(y: System, anchors: map<string, A.OwnMaterial>) {
    && y.own.Keys == y.world.nodes.Keys == anchors.Keys
    && (forall j :: j in y.own ==>
          A.FirstBoot(y.own[j], anchors[j]) && OfAnnouncer(y.own[j]) == OfNode(y.world.nodes[j]))
    && Ring.Init(y.world)
  }

  /** A step leaves the own half of every other node alone. */
  lemma OthersStay(w: Ring.World, s: Ring.Step, b: string)
    requires Ring.Enabled(w, s) && b in w.nodes && Owner(s) != Some(b)
    ensures Ring.Next(w, s).nodes.Keys == w.nodes.Keys
    ensures OfNode(Ring.Next(w, s).nodes[b]) == OfNode(w.nodes[b])
  {
    hide N.HandshakeDone, N.OfferTaken, N.AckHandled, N.RollTried, N.Imported, N.Prepared;
    match s
    case Handshake(i, j) => HandshakeLeavesOwn(w.nodes[i], j, N.Served(w.nodes[j]).value.fp);
    case TakeOffer(i, j, _, k, now) => OfferLeavesOwn(w.nodes[i], j, k, now);
    case _ =>
  }

  lemma HandshakeLeavesOwn(n: N.Node, peer: string, fp: string)
    ensures OfNode(N.HandshakeDone(n, peer, fp).0) == OfNode(n)
  {
  }

  lemma OfferLeavesOwn(n: N.Node, peer: string, k: Announcement, now: int)
    ensures OfNode(N.OfferTaken(n, peer, k, now).0) == OfNode(n)
  {
  }

  // ---------------------------------------------------------------- one call, one step

  /** A call of an agreeing announcer moves it as the node is moved. */
  lemma CallAgrees(n: N.Node, s: A.State, anchor: A.OwnMaterial, c: A.Call)
    requires Agrees(n, s, anchor) && A.CallAllowed(s, c)
    ensures Agrees(NodeCalled(n, c), Call(s, anchor, c), anchor)
  {
    hide A.Quiescent, A.Called, A.CallAllowed, NodeCalled;
    A.CallKeepsQuiescent(s, anchor, c);
    CallRefines(s, anchor, n, c);
  }

  lemma PrepareAgrees(w: Ring.World, s: A.State, anchor: A.OwnMaterial, j: string, now: int, cert: Cert, key: Key)
    requires Ring.Inv(w) && j in w.nodes && Agrees(w.nodes[j], s, anchor) && Ring.NewCertAllowed(w, j, cert, key)
    ensures j in Ring.PrepareNext(w, j, now, cert, key).nodes
    ensures Agrees(Ring.PrepareNext(w, j, now, cert, key).nodes[j],
                   Call(s, anchor, A.Prepare(now, Ok(TlsMaterial([cert], key)))), anchor)
  {
    hide Ring.Inv, Call, A.Quiescent, N.Prepared;
    Ring.ServedCert(w, j);
    CurrentIsServed(w, s, j);
    CallAgrees(w.nodes[j], s, anchor, A.Prepare(now, Ok(TlsMaterial([cert], key))));
    PreparedStaysPut(w.nodes[j], now, cert, key);
  }

  lemma CurrentIsServed(w: Ring.World, s: A.State, j: string)
    requires Ring.Inv(w) && j in w.nodes && OfAnnouncer(s) == OfNode(w.nodes[j])
    ensures j in w.lineage
    ensures N.Served(w.nodes[j]).Ok? && N.Served(w.nodes[j]).value.fp == s.material.current.fp
    ensures exists m :: 0 <= m < |w.lineage[j].certs| && w.lineage[j].certs[m].fp == s.material.current.fp
  {
    hide Ring.Inv;
    Ring.ChainOfNode(w, j);
    Ring.ServedCert(w, j);
  }

  lemma PreparedStaysPut(n: N.Node, now: int, cert: Cert, key: Key)
    ensures n.pending.Some? || N.Prepared(n, now, cert, key).1.Err? ==> N.Prepared(n, now, cert, key).0 == n
  {
  }

  lemma ReceiptAgrees(n: N.Node, s: A.State, anchor: A.OwnMaterial, r: Receipt)
    requires Agrees(n, s, anchor)
    ensures var (n', verdict) := N.AckHandled(n, r);
            Agrees(n', if verdict.Ok? then Call(s, anchor, A.Ack(r.acker)) else s, anchor)
  {
    hide A.Quiescent, Call;
    CallAgrees(n, s, anchor, A.Ack(r.acker));
  }

  lemma RestartAgrees(w: Ring.World, s: A.State, anchor: A.OwnMaterial, j: string)
    requires Ring.Inv(w) && j in w.nodes && Agrees(w.nodes[j], s, anchor)
    ensures j in Ring.RestartNext(w, j).nodes
    ensures Agrees(Ring.RestartNext(w, j).nodes[j], RestartedOver(s, anchor), anchor)
  {
    hide Ring.Inv, A.Quiescent, N.Imported, N.Exported, Call, NodeCalled;
    var n := w.nodes[j];
    Ring.ChainOfNode(w, j);
    assert n.schedule.peers == set p | p in n.ackers;
    forall p | p in n.peers
      ensures W.Restore(n.peers[p].previous, n.peers[p].current, n.peers[p].next) == Ok(n.peers[p])
    {
      Ring.ReachableWindowRestores(w, j, p);
    }
    RestartIsImport(n, s.material.current.fp);
    CallAgrees(n, s, anchor, A.Restart(0, s.material.current.fp));
  }

  /** With nothing announced, the peer set is no part of what is on disk. */
  lemma PeersAgree(n: N.Node, s: A.State, anchor: A.OwnMaterial, i: string)
    requires Agrees(n, s, anchor) && s.pending.None?
    ensures Agrees(N.AckRequired(n, i), s.(schedule := PeerAdded(s.schedule, i)), anchor)
    ensures Agrees(N.AckWaived(n, i), s.(schedule := PeerRemoved(s.schedule, i)), anchor)
  {
  }

  // ---------------------------------------------------------------- events

  /** The announcer an event is about moves as its node does. */
  lemma OwnEventAgrees(y: System, anchor: A.OwnMaterial, e: Event)
    requires Possible(y, e) && !e.Elsewhere? && Ring.Inv(y.world) && Agrees(y.world.nodes[e.j], y.own[e.j], anchor)
    ensures var w' := Ring.Run(y.world, StepsOf(e));
            e.j in w'.nodes && Agrees(w'.nodes[e.j], OwnAfter(y.world.nodes[e.j], y.own[e.j], anchor, e), anchor)
  {
    hide Ring.Inv, Ring.Run, Ring.Allowed, Agrees, RestartedOver, Call, Ring.PrepareNext, Ring.RestartNext;
    var (w, s, n) := (y.world, y.own[e.j], y.world.nodes[e.j]);
    match e
    case Prepare(j, now, cert, key) =>
      Progress.OneStep(w, Ring.Prepare(j, now, cert, key));
      PrepareAgrees(w, s, anchor, j, now, cert, key);
    case Receive(j, r) =>
      Progress.OneStep(w, Ring.DeliverReceipt(j, r));
      ReceiptAgrees(n, s, anchor, r);
    case Roll(j, now, draw) =>
      Progress.OneStep(w, Ring.Roll(j, now, Some(draw)));
      CallAgrees(n, s, anchor, A.Roll(now, true, draw));
    case Restart(j) =>
      Progress.OneStep(w, Ring.Restart(j));
      RestartAgrees(w, s, anchor, j);
    case Register(j, i) =>
      Progress.TwoSteps(w, Ring.RequireAck(j, i), Ring.Restart(j));
      Ring.RequireAckKeeps(w, j, i);
      PeersAgree(n, s, anchor, i);
      RestartAgrees(Ring.Next(w, Ring.RequireAck(j, i)), s.(schedule := PeerAdded(s.schedule, i)), anchor, j);
    case Deregister(j, i) =>
      Progress.TwoSteps(w, Ring.WaiveAck(j, i), Ring.Restart(j));
      Ring.WaiveAckKeeps(w, j, i);
      PeersAgree(n, s, anchor, i);
      RestartAgrees(Ring.Next(w, Ring.WaiveAck(j, i)), s.(schedule := PeerRemoved(s.schedule, i)), anchor, j);
  }

  lemma OthersStayThrough(y: System, e: Event, b: string)
    requires Possible(y, e) && b in y.world.nodes && (!e.Elsewhere? ==> b != e.j)
    ensures var w' := Ring.Run(y.world, StepsOf(e));
            w'.nodes.Keys == y.world.nodes.Keys && OfNode(w'.nodes[b]) == OfNode(y.world.nodes[b])
  {
    hide Ring.Run, Ring.Allowed, Ring.Enabled, Ring.Next, OfNode;
    var (w, steps) := (y.world, StepsOf(e));
    if |steps| == 1 {
      assert steps == [steps[0]];
      Progress.OneStep(w, steps[0]);
      OthersStay(w, steps[0], b);
    } else {
      assert steps == [steps[0], steps[1]];
      Progress.TwoSteps(w, steps[0], steps[1]);
      OthersStay(w, steps[0], b);
      OthersStay(Ring.Next(w, steps[0]), steps[1], b);
    }
  }

  lemma EventKeepsCoupling(y: System, anchors: map<string, A.OwnMaterial>, e: Event)
    requires Coupled(y, anchors) && Possible(y, e)
    ensures Coupled(After(y, anchors, e), anchors)
  {
    hide Ring.Inv, Ring.Credentials, Ring.Run, Ring.Allowed, A.Quiescent, OfNode, OfAnnouncer, OwnAfter;
    var y' := After(y, anchors, e);
    Ring.RunKeeps(y.world, StepsOf(e));
    SomeoneStays(y, e);
    forall b | b in y'.own ensures Agrees(y'.world.nodes[b], y'.own[b], anchors[b]) {
      if e.Elsewhere? || b != e.j {
        OthersStayThrough(y, e, b);
      } else {
        OwnEventAgrees(y, anchors[b], e);
      }
    }
  }

  /** No event adds or removes a node. */
  lemma SomeoneStays(y: System, e: Event)
    requires Possible(y, e)
    ensures Ring.Run(y.world, StepsOf(e)).nodes.Keys == y.world.nodes.Keys
  {
    hide Ring.Run, Ring.Allowed;
    var (w, steps) := (y.world, StepsOf(e));
    if |steps| == 1 {
      assert steps == [steps[0]];
      Progress.OneStep(w, steps[0]);
      StepKeepsNodes(w, steps[0]);
    } else {
      assert steps == [steps[0], steps[1]];
      Progress.TwoSteps(w, steps[0], steps[1]);
      StepKeepsNodes(w, steps[0]);
      StepKeepsNodes(Ring.Next(w, steps[0]), steps[1]);
    }
  }

  lemma StepKeepsNodes(w: Ring.World, s: Ring.Step)
    requires Ring.Enabled(w, s)
    ensures Ring.Next(w, s).nodes.Keys == w.nodes.Keys
  {
    hide N.HandshakeDone, N.OfferTaken, N.AckHandled, N.RollTried, N.Imported, N.Prepared;
  }

  // ---------------------------------------------------------------- whole runs

  ghost predicate AllPossible(y: System, anchors: map<string, A.OwnMaterial>, es: seq<Event>)
    requires y.own.Keys <= anchors.Keys
    decreases |es|
  {
    es == [] || (Possible(y, es[0]) && AllPossible(After(y, anchors, es[0]), anchors, es[1..]))
  }

  ghost function AfterAll(y: System, anchors: map<string, A.OwnMaterial>, es: seq<Event>): System
    requires y.own.Keys <= anchors.Keys && AllPossible(y, anchors, es)
    decreases |es|
  {
    if es == [] then y else AfterAll(After(y, anchors, es[0]), anchors, es[1..])
  }

  lemma {:induction false} RunKeepsCoupling(y: System, anchors: map<string, A.OwnMaterial>, es: seq<Event>)
    requires Coupled(y, anchors) && AllPossible(y, anchors, es)
    ensures Coupled(AfterAll(y, anchors, es), anchors)
    decreases |es|
  {
    hide Coupled, Possible, After;
    if es != [] {
      CoupledKeys(y, anchors);
      EventKeepsCoupling(y, anchors, es[0]);
      CoupledKeys(After(y, anchors, es[0]), anchors);
      RunKeepsCoupling(After(y, anchors, es[0]), anchors, es[1..]);
    }
  }

  lemma CoupledKeys(y: System, anchors: map<string, A.OwnMaterial>)
    requires Coupled(y, anchors)
    ensures y.own.Keys == y.world.nodes.Keys == anchors.Keys
  {
  }

  lemma StartIsCoupled(y: System, anchors: map<string, A.OwnMaterial>)
    requires Start(y, anchors)
    ensures Coupled(y, anchors)
  {
    hide Ring.Init, Ring.Inv, Ring.Credentials, A.Quiescent, A.FirstBoot, OfNode, OfAnnouncer;
    Ring.InitInv(y.world);
    forall j | j in y.own ensures Agrees(y.world.nodes[j], y.own[j], anchors[j]) {
      A.FirstBootIsQuiescent(y.own[j], anchors[j]);
    }
  }

  /**
   With a disk-backed announcer behind every node and any interleaving of their calls, their restarts, and whatever the
   receivers and the network do: what an announcer's resolver serves is what its node serves, and every registered
   receiver accepts it.
   */
  lemma ServedIsAccepted(y: System, anchors: map<string, A.OwnMaterial>, es: seq<Event>, i: string, j: string)
    requires Start(y, anchors) && AllPossible(y, anchors, es)
    requires var w := AfterAll(y, anchors, es).world; Ring.Pins(w, i, j) && i in w.nodes[j].schedule.peers
    ensures var y' := AfterAll(y, anchors, es);
            && j in y'.own && i in y'.own[j].schedule.peers
            && N.Served(y'.world.nodes[j]).Ok? && N.Served(y'.world.nodes[j]).value.fp == y'.own[j].served
            && N.HandshakeDone(y'.world.nodes[i], j, y'.own[j].served).1
  {
    hide Start, AllPossible, AfterAll, Ring.Inv, Ring.Credentials, N.HandshakeDone, A.Quiescent;
    StartIsCoupled(y, anchors);
    RunKeepsCoupling(y, anchors, es);
    var y' := AfterAll(y, anchors, es);
    assert Agrees(y'.world.nodes[j], y'.own[j], anchors[j]);
    A.QuiescentServes(y'.own[j], anchors[j]);
    CurrentIsServed(y'.world, y'.own[j], j);
    Ring.RegisteredAccepts(y'.world, i, j);
  }
}
