/**
 The announcer with its disk (src/announcer.rs) does what the ring node's own half does (examples/ringnode.rs:307-529):
 every call on a working disk is the corresponding step of the node, and every failing or refused call changes nothing
 that the protocol can see.
 */
module Refinement {
  import opened Prelude
  import opened Announcements
  import opened Schedules
  import opened Disks
  import W = Windows
  import A = Announcers
  import N = Nodes

  /** What the protocol sees of an announcer: its two generations, its promise and its schedule. */
  datatype Own = Own(
    name: string,
    previous: Option<Held>,
    current: Held,
    pending: Option<(Announcement, Key)>,
    schedule: Sched)

  function OfAnnouncer(s: A.State): Own {
    Own(s.name, s.material.previous, s.material.current,
        if s.pending.Some? then Some((s.pending.value.announcement, s.pending.value.newKey)) else None, s.schedule)
  }

  function OfNode(n: N.Node): Own {
    Own(n.name, N.PrevHeldOf(n), N.HeldOf(n.current),
        if n.pending.Some? then Some((n.pending.value.announcement, n.pending.value.key)) else None, n.schedule)
  }

  /** The node's counterpart of each call of the announcer. */
  function NodeCalled(n: N.Node, c: A.Call): N.Node
    requires c.Prepare? && c.generated.Ok? ==> IsMaterial(c.generated.value)
  {
    match c
    case Prepare(now, generated) =>
      if generated.Ok? then N.Prepared(n, now, generated.value.chain[0], generated.value.key).0 else n
    case Ack(peer) => n.(schedule := AckRecorded(n.schedule, peer))
    case Roll(now, safe, draw) => if safe then N.RollTried(n, now, Some(draw)) else n
    case Restart(attemptAt, _) =>
      n.(schedule := Sched(if n.pending.Some? then n.schedule.state else Idle(attemptAt), n.schedule.peers, None))
  }

  /** The node's restart is `import` of what `export` wrote, which schedules the next attempt at 0. */
  lemma RestartIsImport(n: N.Node, served: string)
    requires forall p :: p in n.peers ==>
               W.Restore(n.peers[p].previous, n.peers[p].current, n.peers[p].next) == Ok(n.peers[p])
    requires n.schedule.peers == set p | p in n.ackers
    requires n.pending.Some? <==> n.schedule.state.Announced?
    ensures N.Imported(n.name, n.seed, N.Exported(n)) == Ok(NodeCalled(n, A.Restart(0, served)))
  {
    N.RestartKeepsNode(n);
  }

  /** Preparing announces the same thing, or fails without a trace. */
  lemma PrepareRefines(s: A.State, n: N.Node, now: int, m: TlsMaterial, faults: set<Write>)
    requires OfAnnouncer(s) == OfNode(n) && IsMaterial(m)
    ensures var (s', r) := A.Prepared(s, now, Ok(m), faults);
            var (n', k) := N.Prepared(n, now, m.chain[0], m.key);
            if r.Ok? then r == k && OfAnnouncer(s') == OfNode(n') else OfAnnouncer(s') == OfAnnouncer(s)
  {
    hide Announce;
  }

  /**
   Rolling switches to the same certificate and key and serves it, or leaves no trace; a failing write of the previous
   key is the one exception.
   */
  lemma RollRefines(s: A.State, n: N.Node, now: int, draw: int, faults: set<Write>)
    requires OfAnnouncer(s) == OfNode(n) && A.Sound(s) && PreviousFile !in faults
    ensures var (s', r) := A.Rolled(s, now, true, Some(draw), faults);
            && A.Serving(s')
            && OfAnnouncer(s') == if r.Ok? then OfNode(N.RollTried(n, now, Some(draw))) else OfAnnouncer(s)
  {
  }

  /** On a working disk a sound announcer's roll cannot fail. */
  lemma RollSucceeds(s: A.State, now: int, draw: int)
    requires A.Sound(s)
    ensures A.Rolled(s, now, true, Some(draw), {}).1.Ok?
  {
  }

  /** One call on a working disk, with `save_pending` after it, is one step of the node. */
  lemma CallRefines(s: A.State, anchor: A.OwnMaterial, n: N.Node, c: A.Call)
    requires A.Quiescent(s, anchor) && A.CallAllowed(s, c) && OfAnnouncer(s) == OfNode(n)
    ensures OfAnnouncer(A.Called(s, anchor, c)) == OfNode(NodeCalled(n, c))
  {
    match c {
      case Prepare(now, generated) =>
        if generated.Ok? {
          PreparedWithoutFaults(s, n, now, generated.value);
        }
      case Ack(peer) =>
      case Roll(now, safe, draw) =>
        if safe {
          RollRefines(s, n, now, draw, {});
          RollSucceeds(s, now, draw);
        }
      case Restart(attemptAt, served) => A.RestartIsStutter(s, anchor, attemptAt, served);
    }
  }

  /** With a working disk and the certificate made, `prepare` fails only where the node's does. */
  lemma PreparedWithoutFaults(s: A.State, n: N.Node, now: int, m: TlsMaterial)
    requires OfAnnouncer(s) == OfNode(n) && IsMaterial(m)
    ensures OfAnnouncer(A.Prepared(s, now, Ok(m), {}).0) == OfNode(N.Prepared(n, now, m.chain[0], m.key).0)
  {
    hide Announce;
  }

  function NodeCalledAll(n: N.Node, cs: seq<A.Call>): N.Node
    requires forall i :: 0 <= i < |cs| && cs[i].Prepare? && cs[i].generated.Ok? ==> IsMaterial(cs[i].generated.value)
    decreases |cs|
  {
    if cs == [] then n else NodeCalledAll(NodeCalled(n, cs[0]), cs[1..])
  }

  /** Calls that may be made make material that holds together. */
  lemma {:induction false} AllowedCallsMakeMaterial(s: A.State, anchor: A.OwnMaterial, cs: seq<A.Call>)
    requires A.CallsAllowed(s, anchor, cs)
    ensures forall i :: 0 <= i < |cs| && cs[i].Prepare? && cs[i].generated.Ok? ==> IsMaterial(cs[i].generated.value)
    decreases |cs|
  {
    hide A.Called;
    if cs != [] {
      AllowedCallsMakeMaterial(A.Called(s, anchor, cs[0]), anchor, cs[1..]);
      forall i | 0 <= i < |cs| && cs[i].Prepare? && cs[i].generated.Ok? ensures IsMaterial(cs[i].generated.value) {
        if i > 0 {
          assert cs[i] == cs[1..][i - 1];
        }
      }
    }
  }

  /**
   The disk-backed announcer refines the node: after any sequence of calls and restarts, the two have the same
   generations, the same promise and the same schedule.
   */
  lemma {:induction false} RunRefines(s: A.State, anchor: A.OwnMaterial, n: N.Node, cs: seq<A.Call>)
    requires A.Quiescent(s, anchor) && A.CallsAllowed(s, anchor, cs) && OfAnnouncer(s) == OfNode(n)
    ensures forall i :: 0 <= i < |cs| && cs[i].Prepare? && cs[i].generated.Ok? ==> IsMaterial(cs[i].generated.value)
    ensures OfAnnouncer(A.CalledAll(s, anchor, cs)) == OfNode(NodeCalledAll(n, cs))
    decreases |cs|
  {
    hide A.Called, A.Quiescent, OfAnnouncer, OfNode, NodeCalled;
    AllowedCallsMakeMaterial(s, anchor, cs);
    if cs != [] {
      A.CallKeepsQuiescent(s, anchor, cs[0]);
      CallRefines(s, anchor, n, cs[0]);
      RunRefines(A.Called(s, anchor, cs[0]), anchor, NodeCalled(n, cs[0]), cs[1..]);
    }
  }
}
