/**
 The Python announcer and its memory (python/nettls.py:1615-1790): the consumer stores what `state` hands out, and
 `restore` builds the announcer again. `PyView` and its functions are the specification. The window is here too.
 */
module PyTwin {
  import opened Prelude
  import opened Announcements
  import opened Schedules
  import Nodes
  import W = Windows

  type Material = Nodes.Material

  type PendingRotation = Nodes.PendingRotation

  datatype PyView = PyView(
    name: string,
    previous: Option<Material>,
    current: Material,
    pending: Option<PendingRotation>,
    schedule: Sched)

  /** What the consumer stores. */
  datatype Memory = Memory(
    name: string,
    previous: Option<Material>,
    current: Material,
    pending: Option<PendingRotation>,
    peers: set<string>,
    waitingFor: set<string>,
    firstAnnounced: Option<int>)

  /** `_state_with`: the given pending rotation, beside the schedule as it is now. */
  function StateWith(v: PyView, pending: Option<PendingRotation>, now: Option<int>): Memory {
    var first := if v.schedule.state.Announced? then Some(v.schedule.state.firstAnnounced) else None;
    Memory(v.name, v.previous, v.current, pending, v.schedule.peers, Waiting(v.schedule),
           if now.Some? then now else first)
  }

  function StateOf(v: PyView): Memory { StateWith(v, v.pending, None) }

  /** `restore`: an absent first announcement counts as 0. */
  function Restored(m: Memory): PyView {
    var schedule := Sched(Idle(0), m.peers, None);
    PyView(m.name, m.previous, m.current, m.pending,
           if m.pending.None? then schedule
           else AnnouncedAgain(schedule, m.waitingFor, if m.firstAnnounced.Some? then m.firstAnnounced.value else 0))
  }

  /** Over all memories: everything as stored; without a promise the next attempt is due at once. */
  lemma RestoredExactly(m: Memory)
    ensures var v := Restored(m);
            && v.name == m.name && v.previous == m.previous && v.current == m.current && v.pending == m.pending
            && v.schedule.peers == m.peers && v.schedule.lastRolled.None?
            && (m.pending.None? ==> forall t :: IsDue(v.schedule, t) <==> t >= 0)
            && (m.pending.Some? ==>
                  v.schedule.state == Announced(m.waitingFor,
                                                if m.firstAnnounced.Some? then m.firstAnnounced.value else 0))
  {
  }

  /** What `prepare` would announce. */
  function Built(v: PyView, now: int, cert: Cert, key: Key): Result<PendingRotation> {
    var prev := if v.previous.Some? then Some(Nodes.HeldOf(v.previous.value)) else None;
    var k :- Announce(v.name, prev, Nodes.HeldOf(v.current), PemOf(cert), now);
    Ok(Nodes.PendingRotation(k, PemOf(cert), key))
  }

  /** `prepare` with a consumer that stores or, for `stores` false, raises. The third result is what it was handed. */
  function Prepared(v: PyView, now: int, cert: Cert, key: Key, stores: bool)
    : (PyView, Result<Announcement>, Option<Memory>)
  {
    if v.pending.Some? then (v, Ok(v.pending.value.announcement), None)
    else
      var built := Built(v, now, cert, key);
      if built.Err? then (v, Err(built.error), None)
      else
        var stored := Some(StateWith(v, Some(built.value), Some(now)));
        if !stores then (v, Err(Io), stored)
        else (v.(pending := Some(built.value), schedule := MarkedAnnounced(v.schedule, now)),
              Ok(built.value.announcement), stored)
  }

  predicate Ready(v: PyView, now: int) { MayRoll(v.schedule, now) && v.pending.Some? }

  /** `roll_if_ready`; `switches` is whether the call site managed to put the certificate into use. */
  function Rolled(v: PyView, now: int, switches: bool, drawn: int): (PyView, Result<Option<string>>) {
    if !Ready(v, now) then (v, Ok(None))
    else if !switches then (v, Err(Io))
    else
      var p := v.pending.value;
      (v.(previous := Some(v.current), current := Nodes.Material(p.announcement.newFp, p.pem, p.key), pending := None,
          schedule := AfterRoll(v.schedule, now, Some(drawn))),
       Ok(Some(v.current.fp)))
  }

  // ---------------------------------------------------------------- what holds over runs

  predicate Coherent(v: PyView) { v.pending.Some? <==> v.schedule.state.Announced? }

  /** All but the time of the last roll and of the next attempt. */
  function WithoutTimes(v: PyView): PyView {
    v.(schedule := if v.pending.Some? then v.schedule.(lastRolled := None)
                   else Sched(Idle(0), v.schedule.peers, None))
  }

  datatype Call =
    | Prepare(now: int, cert: Cert, key: Key, stores: bool)
    | Acked(peer: string)
    | Roll(now: int, switches: bool, drawn: int)
    | Restart

  function Called(v: PyView, c: Call): PyView {
    match c
    case Prepare(now, cert, key, stores) => Prepared(v, now, cert, key, stores).0
    case Acked(peer) => v.(schedule := AckRecorded(v.schedule, peer))
    case Roll(now, switches, drawn) => Rolled(v, now, switches, drawn).0
    case Restart => Restored(StateOf(v))
  }

  function CalledAll(v: PyView, cs: seq<Call>): PyView
    decreases |cs|
  {
    if cs == [] then v else CalledAll(Called(v, cs[0]), cs[1..])
  }

  /**
   After any calls, failing consumers and restarts among them, restoring what `state` hands out gives back the same
   chain, promise, waiting list and first announcement.
   */
  lemma {:induction false} RestoreIsStutter(v: PyView, cs: seq<Call>)
    requires Coherent(v)
    ensures var v' := CalledAll(v, cs);
            && Coherent(v')
            && Restored(StateOf(v')) == WithoutTimes(v')
    decreases |cs|
  {
    hide Built;
    if cs != [] {
      RestoreIsStutter(Called(v, cs[0]), cs[1..]);
    }
  }

  /**
   What `prepare` hands the consumer is not that: its waiting list is still empty. Restored, it holds the same promise
   as the announcer that stored it, but the receipt gate stands open at once; the two agree exactly when nobody has
   to ack.
   */
  lemma StoredByPrepareForgetsWaiting(v: PyView, now: int, cert: Cert, key: Key, t: int)
    requires Coherent(v) && v.pending.None? && Built(v, now, cert, key).Ok?
    ensures var (after, r, stored) := Prepared(v, now, cert, key, true);
            && r.Ok? && stored.Some?
            && var again := Restored(stored.value);
               && again.pending == after.pending && again.current == after.current && again.previous == after.previous
               && Ready(again, t)
               && (again == Restored(StateOf(after)) <==> v.schedule.peers == {})
  {
    hide Built;
    var (after, _, stored) := Prepared(v, now, cert, key, true);
    assert Waiting(after.schedule) == v.schedule.peers && Waiting(Restored(stored.value).schedule) == {};
  }

  // ---------------------------------------------------------------- the ring node does the same

  /** The own half of a ring node, as this announcer would hold it. */
  function OwnHalf(n: Nodes.Node): PyView { PyView(n.name, n.previous, n.current, n.pending, n.schedule) }

  /** With a consumer that stores, the node's `prepare`; with one that does not, nothing but the attempt. */
  lemma PrepareRefines(n: Nodes.Node, now: int, cert: Cert, key: Key, stores: bool)
    ensures var ((v, r, stored), (n', k)) := (Prepared(OwnHalf(n), now, cert, key, stores),
                                              Nodes.Prepared(n, now, cert, key));
            && (stored.Some? <==> n.pending.None? && k.Ok?)
            && (stored.Some? ==>
                  stored.value == StateOf(OwnHalf(n)).(pending := n'.pending, firstAnnounced := Some(now)))
            && (stores || stored.None? ==> v == OwnHalf(n') && r == k)
            && (!stores && stored.Some? ==> v == OwnHalf(n) && r.Err?)
  {
    hide Announce;
  }

  /** With a call site that puts the certificate into use, the node's `roll`; otherwise nothing. */
  lemma RollRefines(n: Nodes.Node, now: int, switches: bool, drawn: int)
    ensures var (v, r) := Rolled(OwnHalf(n), now, switches, drawn);
            && (r == Ok(None) <==> !Nodes.RollEnabled(n, now))
            && v == OwnHalf(if switches then Nodes.RollTried(n, now, Some(drawn)) else n)
            && (Nodes.RollEnabled(n, now) ==> if switches then r == Ok(Some(n.current.fp)) else r.Err?)
  {
  }

  function NodeCalled(n: Nodes.Node, c: Call): Nodes.Node {
    match c
    case Prepare(now, cert, key, stores) => if stores then Nodes.Prepared(n, now, cert, key).0 else n
    case Acked(peer) => n.(schedule := AckRecorded(n.schedule, peer))
    case Roll(now, switches, drawn) => if switches then Nodes.RollTried(n, now, Some(drawn)) else n
    case Restart => n.(schedule := Sched(if n.pending.Some? then n.schedule.state else Idle(0), n.schedule.peers, None))
  }

  function NodeCalledAll(n: Nodes.Node, cs: seq<Call>): Nodes.Node
    decreases |cs|
  {
    if cs == [] then n else NodeCalledAll(NodeCalled(n, cs[0]), cs[1..])
  }

  /**
   The Python announcer refines the node: after any calls, failing consumers, failing call sites and restarts among
   them, the two have the same generations, the same promise and the same schedule.
   */
  lemma {:induction false} RunRefines(n: Nodes.Node, cs: seq<Call>)
    requires Coherent(OwnHalf(n))
    ensures CalledAll(OwnHalf(n), cs) == OwnHalf(NodeCalledAll(n, cs))
    ensures Coherent(OwnHalf(NodeCalledAll(n, cs)))
    decreases |cs|
  {
    hide Announce;
    if cs != [] {
      match cs[0] {
        case Prepare(now, cert, key, stores) => PrepareRefines(n, now, cert, key, stores);
        case Roll(now, switches, drawn) => RollRefines(n, now, switches, drawn);
        case _ =>
      }
      RunRefines(NodeCalled(n, cs[0]), cs[1..]);
    }
  }

  // ---------------------------------------------------------------- the objects

  class PyAnnouncer {
    const name: string
    const schedule: PySchedule
    var previous: Option<Material>
    var current: Material
    var pending: Option<PendingRotation>

    predicate Valid()
      reads this, schedule
    {
      schedule.Valid()
    }

    function View(): PyView
      requires Valid()
      reads this, schedule
    {
      PyView(name, previous, current, pending, schedule.AsRust())
    }

    constructor (name: string, current: Material, schedule: PySchedule)
      requires schedule.Valid()
      ensures this.schedule == schedule && Valid()
      ensures View() == PyView(name, None, current, None, schedule.AsRust())
    {
      this.name, this.current, this.schedule := name, current, schedule;
      previous, pending := None, None;
    }

    method State() returns (m: Memory)
      requires Valid()
      ensures m == StateOf(View())
      ensures Coherent(View()) ==> Restored(m) == WithoutTimes(View())
    {
      m := StateWith(View(), pending, None);
    }

    static method Restore(m: Memory) returns (a: PyAnnouncer)
      ensures fresh(a) && fresh(a.schedule) && a.Valid() && a.View() == Restored(m)
    {
      var s := new PySchedule(m.peers, 0);
      a := new PyAnnouncer(m.name, m.current, s);
      a.previous := m.previous;
      if m.pending.Some? {
        a.pending := m.pending;
        s.RestoreAnnounced(m.waitingFor, if m.firstAnnounced.Some? then m.firstAnnounced.value else 0);
      }
    }

    /** The consumer is called before anything changes. */
    method Prepare(now: int, cert: Cert, key: Key, stores: bool)
      returns (r: Result<Announcement>, stored: Option<Memory>)
      requires Valid()
      modifies this`pending, schedule
      ensures Valid() && (View(), r, stored) == Prepared(old(View()), now, cert, key, stores)
    {
      if pending.Some? {
        return Ok(pending.value.announcement), None;
      }
      var prev := if previous.Some? then Some(Nodes.HeldOf(previous.value)) else None;
      var k := Announce(name, prev, Nodes.HeldOf(current), PemOf(cert), now);
      if k.Err? {
        return k, None;
      }
      var rotation := Nodes.PendingRotation(k.value, PemOf(cert), key);
      stored := Some(StateWith(View(), Some(rotation), Some(now)));
      if !stores {
        return Err(Io), stored;
      }
      pending := Some(rotation);
      schedule.Announce(now);
      r := k;
    }

    /** The certificate is put into use before the chain moves. */
    method RollIfReady(now: int, switches: bool, drawn: int) returns (r: Result<Option<string>>)
      requires Valid()
      modifies this, schedule
      ensures Valid() && (View(), r) == Rolled(old(View()), now, switches, drawn)
    {
      var gate := schedule.CanRoll(now);
      if !gate || pending.None? {
        return Ok(None);
      }
      var p, old' := pending.value, current.fp;
      if !switches {
        return Err(Io);
      }
      previous := Some(current);
      current := Nodes.Material(p.announcement.newFp, p.pem, p.key);
      pending := None;
      schedule.Rolled(now, drawn);
      r := Ok(Some(old'));
    }
  }

  /** The Python receiver's window (python/nettls.py:885-986), in lockstep with the Rust one. */
  class PyGenerations {
    var previous: Option<Cert>
    var current: Cert
    var next: Option<Cert>

    function View(): W.Window
      reads this
    {
      W.Window(previous, current, next)
    }

    constructor (current: Cert)
      ensures View() == W.Anchored(current)
    {
      this.current, previous, next := current, None, None;
    }

    static method Restore(previous: Option<Cert>, current: Cert, next: Option<Cert>) returns (r: Result<PyGenerations>)
      ensures r.Ok? <==> W.Restore(previous, current, next).Ok?
      ensures r.Ok? ==> fresh(r.value) && r.value.View() == W.Window(previous, current, next)
    {
      var outer := [previous, next];
      for i := 0 to 2
        invariant forall j :: 0 <= j < i && outer[j].Some? ==> outer[j].value.fp != current.fp
      {
        if outer[i].Some? && outer[i].value.fp == current.fp {
          return Err(Params);
        }
      }
      assert outer[0] == previous && outer[1] == next;
      if previous.Some? && next.Some? && previous.value.fp == next.value.fp {
        return Err(Params);
      }
      var g := new PyGenerations(current);
      g.previous := previous;
      g.next := next;
      r := Ok(g);
    }

    method Receive(k: Announcement) returns (r: Result<W.Received>)
      modifies this`next
      ensures View() == W.AfterReceive(old(View()), k)
      ensures var spec := W.Receive(old(View()), k);
              r == if spec.Ok? then Ok(spec.value.1) else Err(spec.error)
    {
      if next.Some? && next.value.fp == k.newFp {
        return Ok(W.Known);
      }
      var _ :- Verify(k, previous, current);
      var cert := CertOf(k.newCertPem);
      next := Some(cert.value);  // a verified announcement carries exactly one certificate
      r := Ok(W.Stored);
    }

    method Observed(fp: string) returns (promoted: bool)
      modifies this
      ensures (View(), promoted) == W.Observed(old(View()), fp)
    {
      if next.None? || next.value.fp != fp {
        return false;
      }
      previous, current, next := Some(current), next.value, None;
      promoted := true;
    }

    method AcceptedInHandshake() returns (accepted: seq<Cert>)
      ensures accepted == W.AcceptedInHandshake(View())
      ensures forall fp :: W.Accepts(View(), fp) <==> exists c :: c in accepted && c.fp == fp
    {
      accepted := [current];
      if next.Some? {
        accepted := accepted + [next.value];
      }
    }
  }
}
