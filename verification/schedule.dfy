/**
 The announcer's state machine (src/announcer.rs:93-237, 741-765, 1741-1753) and its Python twin
 (python/nettls.py:1510-1601). No clock inside: every operation takes `now`.
 */
module Schedules {
  import opened Prelude
  import opened Draw

  const MIN_BETWEEN_ROLLS_S := DAY_S
  const ALARM_AFTER_S := 12 * 3600

  datatype ChainState =
    | Idle(attemptAt: int)
    | Announced(waitingFor: set<string>, firstAnnounced: int)

  datatype Sched = Sched(state: ChainState, peers: set<string>, lastRolled: Option<int>)

  // ---------------------------------------------------------------- specification of each operation

  function WithWaiting(s: Sched, waiting: set<string>): Sched
    requires s.state.Announced?
  {
    s.(state := s.state.(waitingFor := waiting))
  }

  function PeerAdded(s: Sched, name: string): Sched {
    var s' := if s.state.Announced? then WithWaiting(s, s.state.waitingFor + {name}) else s;
    s'.(peers := s.peers + {name})
  }

  function PeerRemoved(s: Sched, name: string): Sched {
    var s' := if s.state.Announced? then WithWaiting(s, s.state.waitingFor - {name}) else s;
    s'.(peers := s.peers - {name})
  }

  function MarkedAnnounced(s: Sched, now: int): Sched {
    if s.state.Idle? then s.(state := Announced(s.peers, now)) else s
  }

  function AckRecorded(s: Sched, peer: string): Sched {
    if s.state.Announced? then WithWaiting(s, s.state.waitingFor - {peer}) else s
  }

  function Waiting(s: Sched): set<string> {
    if s.state.Announced? then s.state.waitingFor else {}
  }

  predicate IsDue(s: Sched, now: int) { s.state.Idle? && now >= s.state.attemptAt }

  predicate RateLimitOk(s: Sched, now: int) {
    s.lastRolled.None? || now - s.lastRolled.value >= MIN_BETWEEN_ROLLS_S
  }

  predicate MayRoll(s: Sched, now: int) {
    s.state.Announced? && s.state.waitingFor == {} && RateLimitOk(s, now)
  }

  /** `draw` is the drawn time, or nothing when the generator failed: then the state stays announced. */
  function AfterRoll(s: Sched, now: int, draw: Option<int>): Sched {
    var s' := s.(lastRolled := Some(now));
    if draw.Some? then s'.(state := Idle(draw.value)) else s'
  }

  function AnnouncedAgain(s: Sched, waiting: set<string>, firstAnnounced: int): Sched {
    s.(state := Announced(waiting, firstAnnounced))
  }

  function IntervalAfter(elapsed: int): int {
    if elapsed < 15 * 60 then 60 else if elapsed < 3600 then 5 * 60 else 3600
  }

  function RetryAt(s: Sched, now: int): Option<int> {
    if Waiting(s) == {} then None
    else
      var elapsed := now - s.state.firstAnnounced;
      Some(now + IntervalAfter(if elapsed < 0 then 0 else elapsed))
  }

  predicate AlarmRaised(s: Sched, now: int) {
    Waiting(s) != {} && now - s.state.firstAnnounced >= ALARM_AFTER_S
  }

  // ---------------------------------------------------------------- what the operations mean over time

  /** A roll may happen exactly when an announcement is out, nobody is waited for, and the last roll is a day ago. */
  lemma MayRollExactly(s: Sched, now: int)
    ensures MayRoll(s, now) <==>
              s.state.Announced? && Waiting(s) == {} && (s.lastRolled.Some? ==> now >= s.lastRolled.value + 86400)
  {
  }

  /** What each operation does to the list of those who are waited for, and to those who are registered. */
  lemma WaitingAfter(s: Sched, name: string, now: int)
    ensures Waiting(PeerAdded(s, name)) == if s.state.Announced? then Waiting(s) + {name} else {}
    ensures Waiting(PeerRemoved(s, name)) == Waiting(s) - {name} == Waiting(AckRecorded(s, name))
    ensures Waiting(MarkedAnnounced(s, now)) == if s.state.Announced? then Waiting(s) else s.peers
    ensures PeerAdded(s, name).peers == s.peers + {name} && PeerRemoved(s, name).peers == s.peers - {name}
    ensures AckRecorded(s, name).peers == s.peers == MarkedAnnounced(s, now).peers
  {
  }

  /** After a roll the next attempt is due from the drawn time on and not before. */
  lemma DueFromTheDraw(s: Sched, now: int, drawn: int, t: int)
    ensures IsDue(AfterRoll(s, now, Some(drawn)), t) <==> t >= drawn
    ensures !IsDue(MarkedAnnounced(AfterRoll(s, now, Some(drawn)), now), t)
  {
  }

  /** The next attempt lies a minute, five minutes or an hour ahead, by how long the announcement has been out. */
  lemma RetryExactly(s: Sched, now: int)
    ensures RetryAt(s, now).Some? <==> Waiting(s) != {}
    ensures RetryAt(s, now).Some? ==>
              var (ahead, elapsed) := (RetryAt(s, now).value - now, now - s.state.firstAnnounced);
              && (ahead == 60 <==> elapsed < 900) && (ahead == 300 <==> 900 <= elapsed < 3600)
              && (ahead == 3600 <==> elapsed >= 3600)
  {
  }

  /** The pauses never get shorter. */
  lemma RetriesSlowDown(s: Sched, now: int, later: int)
    requires now <= later && Waiting(s) != {}
    ensures 60 <= RetryAt(s, now).value - now <= RetryAt(s, later).value - later <= 3600
  {
  }

  /** The alarm is on exactly while somebody has been waited for since twelve hours or more. */
  lemma AlarmExactly(s: Sched, now: int)
    ensures AlarmRaised(s, now) <==> Waiting(s) != {} && now >= s.state.firstAnnounced + 43200
  {
  }

  // ---------------------------------------------------------------- the Rust object

  class Schedule {
    var state: ChainState
    var peers: set<string>
    var lastRolled: Option<int>

    function View(): Sched
      reads this
    {
      Sched(state, peers, lastRolled)
    }

    constructor (peers: set<string>, attemptAt: int)
      ensures View() == Sched(Idle(attemptAt), peers, None)
    {
      this.state, this.peers, this.lastRolled := Idle(attemptAt), peers, None;
    }

    method AddPeer(name: string)
      modifies this
      ensures View() == PeerAdded(old(View()), name)
    {
      if state.Announced? {
        state := state.(waitingFor := state.waitingFor + {name});
      }
      peers := peers + {name};
    }

    method RemovePeer(name: string)
      modifies this
      ensures View() == PeerRemoved(old(View()), name)
    {
      peers := peers - {name};
      if state.Announced? {
        state := state.(waitingFor := state.waitingFor - {name});
      }
    }

    method Announce(now: int)
      modifies this
      ensures View() == MarkedAnnounced(old(View()), now)
    {
      if state.Idle? {
        state := Announced(peers, now);
      }
    }

    method Ack(peer: string)
      modifies this
      ensures View() == AckRecorded(old(View()), peer)
    {
      if state.Announced? {
        state := state.(waitingFor := state.waitingFor - {peer});
      }
    }

    /** The caller has switched certificates; `draw` is the result of drawing the next time. */
    method Rolled(now: int, draw: Result<int>) returns (r: Result<Unit>)
      modifies this
      ensures View() == AfterRoll(old(View()), now, if draw.Ok? then Some(draw.value) else None)
      ensures r == if draw.Ok? then Ok(Unit) else Err(draw.error)
    {
      lastRolled := Some(now);
      var attemptAt :- draw;
      state := Idle(attemptAt);
      r := Ok(Unit);
    }

    /** `rolled` with its draw: the schedule is next due at the drawn second of the window, five to nine days ahead. */
    method RolledDrawing(now: int, words: seq<Option<nat>>) returns (r: Result<Unit>)
      requires ATTEMPTS <= |words|
      modifies this
      ensures View().lastRolled == Some(now) && View().peers == old(View().peers)
      ensures r.Err? ==> View().state == old(View().state)
      ensures r.Ok? ==> forall t :: (t < now + 5 * 86400 ==> !IsDue(View(), t))
                                    && (t >= now + 9 * 86400 ==> IsDue(View(), t))
      ensures r.Ok? ==> exists second: nat :: DecidedInTime(4 * 86400, words, second)
                          && forall t :: IsDue(View(), t) <==> t >= now + 5 * 86400 + second
    {
      var draw := DrawRollTime(now, words);
      r := Rolled(now, draw);
      if draw.Ok? {
        assert DecidedInTime(4 * 86400, words, draw.value - now - 5 * 86400);
      }
    }

    /** After a restart; the list is collected into a set. */
    method RestoreAnnounced(waiting: set<string>, firstAnnounced: int)
      modifies this
      ensures View() == AnnouncedAgain(old(View()), waiting, firstAnnounced)
    {
      state := Announced(waiting, firstAnnounced);
    }
  }

  // ---------------------------------------------------------------- the Python object, in lockstep

  /** One optional set and two optional numbers instead of a tagged state; each method meets the Rust specification. */
  class PySchedule {
    var peers: set<string>
    var attemptAt: int
    var waitingFor: Option<set<string>>
    var firstAnnounced: Option<int>
    var lastRolled: Option<int>

    predicate Valid()
      reads this
    {
      waitingFor.Some? <==> firstAnnounced.Some?
    }

    /** The Rust state this object stands for. */
    function AsRust(): Sched
      requires Valid()
      reads this
    {
      Sched(if waitingFor.Some? then Announced(waitingFor.value, firstAnnounced.value) else Idle(attemptAt),
            peers, lastRolled)
    }

    constructor (peers: set<string>, attemptAt: int)
      ensures Valid() && AsRust() == Sched(Idle(attemptAt), peers, None)
    {
      this.peers, this.attemptAt := peers, attemptAt;
      waitingFor, firstAnnounced, lastRolled := None, None, None;
    }

    method ShouldAnnounce(now: int) returns (b: bool)
      requires Valid()
      ensures b == IsDue(AsRust(), now)
    {
      b := waitingFor.None? && now >= attemptAt;
    }

    method Announce(now: int)
      requires Valid()
      modifies this
      ensures Valid() && AsRust() == MarkedAnnounced(old(AsRust()), now)
    {
      if waitingFor.None? {
        waitingFor := Some(peers);
        firstAnnounced := Some(now);
      }
    }

    method Ack(peer: string)
      requires Valid()
      modifies this
      ensures Valid() && AsRust() == AckRecorded(old(AsRust()), peer)
    {
      if waitingFor.Some? {
        waitingFor := Some(waitingFor.value - {peer});
      }
    }

    method AddPeer(name: string)
      requires Valid()
      modifies this
      ensures Valid() && AsRust() == PeerAdded(old(AsRust()), name)
    {
      peers := peers + {name};
      if waitingFor.Some? {
        waitingFor := Some(waitingFor.value + {name});
      }
    }

    method RemovePeer(name: string)
      requires Valid()
      modifies this
      ensures Valid() && AsRust() == PeerRemoved(old(AsRust()), name)
    {
      peers := peers - {name};
      if waitingFor.Some? {
        waitingFor := Some(waitingFor.value - {name});
      }
    }

    method CanRoll(now: int) returns (b: bool)
      requires Valid()
      ensures b == MayRoll(AsRust(), now)
    {
      b := waitingFor.Some? && waitingFor.value == {}
           && (lastRolled.None? || now - lastRolled.value >= MIN_BETWEEN_ROLLS_S);
    }

    method Rolled(now: int, drawn: int)
      requires Valid()
      modifies this
      ensures Valid() && AsRust() == AfterRoll(old(AsRust()), now, Some(drawn))
    {
      lastRolled := Some(now);
      waitingFor := None;
      firstAnnounced := None;
      attemptAt := drawn;
    }

    /** `rolled` with its draw; `below` is what the generator answers when asked for a number below the spread. */
    method RolledDrawing(now: int, below: nat)
      requires Valid() && below < 4 * 86400
      modifies this
      ensures Valid() && AsRust().lastRolled == Some(now) && AsRust().peers == old(AsRust().peers)
      ensures forall t :: IsDue(AsRust(), t) <==> t >= now + 5 * 86400 + below
    {
      Rolled(now, RollTime(now, below));
    }

    method Alarm(now: int) returns (b: bool)
      requires Valid()
      ensures b == AlarmRaised(AsRust(), now)
    {
      b := waitingFor.Some? && waitingFor.value != {} && firstAnnounced.Some?
           && now - firstAnnounced.value >= ALARM_AFTER_S;
    }

    method NextRetry(now: int) returns (r: Option<int>)
      requires Valid()
      ensures r == RetryAt(AsRust(), now)
    {
      if waitingFor.None? || waitingFor.value == {} || firstAnnounced.None? {
        return None;
      }
      var elapsed := if now - firstAnnounced.value > 0 then now - firstAnnounced.value else 0;
      r := Some(now + IntervalAfter(elapsed));
    }

    method RestoreAnnounced(waiting: set<string>, first: int)
      requires Valid()
      modifies this
      ensures Valid() && AsRust() == AnnouncedAgain(old(AsRust()), waiting, first)
    {
      waitingFor := Some(waiting);
      firstAnnounced := Some(first);
    }
  }

  // ---------------------------------------------------------------- runs

  /** `TryRoll` rolls when it may and is refused otherwise. */
  datatype Op = Add(name: string) | Remove(name: string) | Publish(now: int) | Ack(name: string)
              | TryRoll(now: int, draw: Option<int>)

  function Apply(s: Sched, op: Op): Sched {
    match op
    case Add(p) => PeerAdded(s, p)
    case Remove(p) => PeerRemoved(s, p)
    case Publish(now) => MarkedAnnounced(s, now)
    case Ack(p) => AckRecorded(s, p)
    case TryRoll(now, draw) => if MayRoll(s, now) then AfterRoll(s, now, draw) else s
  }

  function After(s: Sched, ops: seq<Op>): Sched {
    if ops == [] then s else Apply(After(s, ops[..|ops| - 1]), ops[|ops| - 1])
  }

  function StateAt(s: Sched, ops: seq<Op>, n: nat): Sched
    requires n <= |ops|
  {
    After(s, ops[..n])
  }

  lemma StateAtStep(s: Sched, ops: seq<Op>, n: nat)
    requires n < |ops|
    ensures StateAt(s, ops, n + 1) == Apply(StateAt(s, ops, n), ops[n])
  {
    assert ops[..n + 1][..n] == ops[..n];
  }

  predicate RollsAt(s: Sched, ops: seq<Op>, n: nat)
    requires n < |ops|
  {
    ops[n].TryRoll? && MayRoll(StateAt(s, ops, n), ops[n].now)
  }

  // ---------------------------------------------------------------- the receipt gate

  /** Operation `a` published the announcement that is still pending before operation `n`. */
  ghost predicate PublishedAt(s: Sched, ops: seq<Op>, a: nat, n: nat)
    requires n <= |ops|
  {
    && a < n && ops[a].Publish?
    && StateAt(s, ops, a).state.Idle?
    && (forall m :: a < m <= n ==> StateAt(s, ops, m).state.Announced?
                                   && StateAt(s, ops, m).state.firstAnnounced == ops[a].now)
    && (forall m :: a < m < n ==> !RollsAt(s, ops, m))
  }

  ghost predicate AckedBetween(ops: seq<Op>, a: nat, n: nat, peer: string)
    requires n <= |ops|
  {
    exists q :: a < q < n && ops[q] == Ack(peer)
  }

  /** No operation silences the alarm but one that empties the waiting list. */
  lemma AlarmStaysOn(s: Sched, op: Op, now: int, later: int)
    requires AlarmRaised(s, now) && now <= later
    ensures AlarmRaised(Apply(s, op), later) <==> Waiting(Apply(s, op)) != {}
  {
  }

  /** Inductively: whoever is registered and no longer waited for has acked since the publication. */
  lemma {:induction false} GateInvariant(s: Sched, ops: seq<Op>, n: nat) returns (a: nat)
    requires s.state.Idle? && n <= |ops|
    requires forall m :: 0 <= m < |ops| && ops[m].TryRoll? ==> ops[m].draw.Some?
    ensures StateAt(s, ops, n).state.Announced? ==>
              PublishedAt(s, ops, a, n)
              && forall p :: p in StateAt(s, ops, n).peers
                             ==> p in StateAt(s, ops, n).state.waitingFor || AckedBetween(ops, a, n, p)
  {
    a := 0;
    if n > 0 {
      a := GateInvariant(s, ops, n - 1);
      StateAtStep(s, ops, n - 1);
      var (before, now) := (StateAt(s, ops, n - 1), StateAt(s, ops, n));
      if now.state.Announced? {
        if before.state.Idle? {
          a := n - 1;
        } else {
          forall p | p in now.peers ensures p in now.state.waitingFor || AckedBetween(ops, a, n, p) {
            if p in before.peers && p !in before.state.waitingFor {
              assert AckedBetween(ops, a, n - 1, p);
            } else if p !in now.state.waitingFor {
              assert ops[n - 1] == Ack(p);
            }
          }
        }
      }
    }
  }

  /**
   The gate: a roll that happens was preceded, since the publication of that same announcement, by an ack from
   every peer registered at that moment.
   */
  lemma EveryRollWasAcked(s: Sched, ops: seq<Op>, n: nat) returns (a: nat)
    requires s.state.Idle? && n < |ops| && RollsAt(s, ops, n)
    requires forall m :: 0 <= m < |ops| && ops[m].TryRoll? ==> ops[m].draw.Some?
    ensures PublishedAt(s, ops, a, n)
    ensures forall p :: p in StateAt(s, ops, n).peers ==> AckedBetween(ops, a, n, p)
  {
    a := GateInvariant(s, ops, n);
  }

  /** A day after a roll the gate stands open without a single new ack exactly when drawing the next time failed. */
  lemma FailedDrawLeavesGateOpen(s: Sched, now: int, draw: Option<int>)
    requires MayRoll(s, now)
    ensures MayRoll(AfterRoll(s, now, draw), now + DAY_S) <==> draw.None?
    ensures draw.None? ==> forall t :: MarkedAnnounced(AfterRoll(s, now, draw), t) == AfterRoll(s, now, draw)
  {
  }

  // ---------------------------------------------------------------- the rate limit

  /** The supplied times of the rolls that happened, in order. */
  function RollTimes(s: Sched, ops: seq<Op>): seq<int> {
    if ops == [] then []
    else
      var n := |ops| - 1;
      RollTimes(s, ops[..n])
      + (if ops[n].TryRoll? && MayRoll(After(s, ops[..n]), ops[n].now) then [ops[n].now] else [])
  }

  predicate Spaced(ts: seq<int>) {
    forall i :: 0 <= i < |ts| - 1 ==> ts[i + 1] - ts[i] >= MIN_BETWEEN_ROLLS_S
  }

  /** Successive rolls are a day apart, whatever clock readings the caller supplies and even if a draw fails. */
  lemma {:induction false} RollsAreSpaced(s: Sched, ops: seq<Op>)
    ensures Spaced(RollTimes(s, ops))
    ensures var ts := RollTimes(s, ops);
            After(s, ops).lastRolled == if ts == [] then s.lastRolled else Some(ts[|ts| - 1])
  {
    if ops != [] {
      RollsAreSpaced(s, ops[..|ops| - 1]);
    }
  }

  function CountWithin(ts: seq<int>, from: int, to: int): nat {
    if ts == [] then 0
    else (if from <= ts[0] <= to then 1 else 0) + CountWithin(ts[1..], from, to)
  }

  lemma {:induction false} NoneBefore(ts: seq<int>, from: int, to: int, earliest: int)
    requires Spaced(ts) && (ts != [] ==> ts[0] >= earliest)
    ensures from <= earliest ==> CountWithin(ts, from, to) == CountWithin(ts, earliest, to)
    ensures to < earliest ==> CountWithin(ts, from, to) == 0
  {
    if ts != [] {
      if |ts| > 1 {
        assert ts[1] - ts[0] >= MIN_BETWEEN_ROLLS_S;
      }
      assert Spaced(ts[1..]) by {
        forall i | 0 <= i < |ts[1..]| - 1 ensures ts[1..][i + 1] - ts[1..][i] >= MIN_BETWEEN_ROLLS_S {
          assert ts[i + 2] - ts[i + 1] >= MIN_BETWEEN_ROLLS_S;
        }
      }
      NoneBefore(ts[1..], from, to, earliest);
    }
  }

  lemma {:induction false} SpacedCount(ts: seq<int>, from: int, to: int)
    requires Spaced(ts) && from <= to
    ensures CountWithin(ts, from, to) <= 1 + (to - from) / MIN_BETWEEN_ROLLS_S
  {
    if ts != [] {
      assert Spaced(ts[1..]) by {
        forall i | 0 <= i < |ts[1..]| - 1 ensures ts[1..][i + 1] - ts[1..][i] >= MIN_BETWEEN_ROLLS_S {
          assert ts[i + 2] - ts[i + 1] >= MIN_BETWEEN_ROLLS_S;
        }
      }
      SpacedCount(ts[1..], from, to);
      if from <= ts[0] <= to {
        var next := ts[0] + MIN_BETWEEN_ROLLS_S;
        if |ts| > 1 {
          assert ts[1] - ts[0] >= MIN_BETWEEN_ROLLS_S;
        }
        NoneBefore(ts[1..], from, to, next);
        if next <= to {
          SpacedCount(ts[1..], next, to);
        }
      }
    }
  }

  /** Any interval of length L holds at most 1 + L / 86400 rolls. */
  lemma RotationRate(s: Sched, ops: seq<Op>, from: int, to: int)
    requires from <= to
    ensures CountWithin(RollTimes(s, ops), from, to) <= 1 + (to - from) / 86400
  {
    RollsAreSpaced(s, ops);
    SpacedCount(RollTimes(s, ops), from, to);
  }
}
