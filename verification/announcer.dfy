/**
 The announcer bound to its disk and its resolver (src/announcer.rs:1039-1400, 1623-1753).
 `State` and its functions are the specification; the class performs the calls in their normative order.
 */
module Announcers {
  import opened Prelude
  import opened Canonical
  import opened Announcements
  import opened Schedules
  import opened Disks

  datatype OwnMaterial = OwnMaterial(previous: Option<Held>, current: Held)

  datatype Pending = Pending(announcement: Announcement, newCertPem: Pem, newKey: Key)

  datatype State = State(
    name: string,
    password: Option<string>,
    material: OwnMaterial,
    pending: Option<Pending>,
    schedule: Sched,
    served: string,
    disk: Disk)

  // ---------------------------------------------------------------- the calls

  /** `prepare`; `generated` is the new self-signed certificate, or the failure to make one. */
  function Prepared(s: State, now: int, generated: Result<TlsMaterial>, faults: set<Write>)
    : (State, Result<Announcement>)
    requires generated.Ok? ==> IsMaterial(generated.value)
  {
    if s.pending.Some? then (s, Ok(s.pending.value.announcement))
    else if generated.Err? then (s, Err(generated.error))
    else
      var m := generated.value;
      var (dir, ok) := Saved(s.disk.new', s.password, m, New, faults);
      var s1 := s.(disk := s.disk.(new' := dir));
      if !ok then (s1, Err(Io))
      else
        var pem := PemOf(m.chain[0]);
        var k := Announce(s.name, s.material.previous, s.material.current, pem, now);
        if k.Err? then (s1, k)
        else (s1.(pending := Some(Pending(k.value, pem, m.key)), schedule := MarkedAnnounced(s.schedule, now)), k)
  }

  function Acked(s: State, peer: string): State { s.(schedule := AckRecorded(s.schedule, peer)) }

  /** Everything but the consumer's own gate says yes. */
  predicate ReadyToRoll(s: State, now: int) { MayRoll(s.schedule, now) && s.pending.Some? }

  /** `roll_if_ready_gated`; the answer is the old fingerprint when the certificate was switched. */
  function Rolled(s: State, now: int, safe: bool, draw: Option<int>, faults: set<Write>)
    : (State, Result<Option<string>>)
  {
    if !ReadyToRoll(s, now) || !safe then (s, Ok(None))
    else
      var loaded := Loaded(s.disk.new', s.password);
      if loaded.Err? then (s, Err(loaded.error))
      else
        var m := loaded.value;
        var (main, ok) := Saved(s.disk.main, s.password, m, Main, faults);
        var s1 := s.(disk := s.disk.(main := main));
        if !ok then (s1, Err(Io))
        else Switched(s1, m, now, draw, faults)
  }

  /** The rest of the roll, once the new material is in place on disk. */
  function Switched(s: State, m: TlsMaterial, now: int, draw: Option<int>, faults: set<Write>)
    : (State, Result<Option<string>>)
    requires s.pending.Some? && |m.chain| > 0
  {
    var s1 := s.(served := m.chain[0].fp,
                 material := OwnMaterial(Some(s.material.current), Held(m.chain[0].fp, s.pending.value.newKey)));
    if PreviousFile in faults then (s1, Err(Io))
    else
      var s2 := s1.(disk := PreviousSaved(s1.disk, s.password, s.material.current),
                    pending := None,
                    schedule := AfterRoll(s.schedule, now, draw));
      if draw.None? then (s2, Err(Generate))
      else
        var s3 := if RemoveNewDir in faults then s2 else s2.(disk := s2.disk.(new' := NO_DIR));
        (s3, Ok(Some(s.served)))
  }

  function PendingRecord(s: State): Option<PendingOnDisk> {
    if s.pending.None? then None
    else Some(PendingOnDisk(s.pending.value.announcement, s.pending.value.newCertPem, Waiting(s.schedule),
                            if s.schedule.state.Announced? then s.schedule.state.firstAnnounced else 0))
  }

  /** `save_pending`; a file that cannot be removed is left without an error. */
  function PendingSaved(s: State, faults: set<Write>): (State, Result<Unit>) {
    if PendingFile in faults then (s, if s.pending.Some? then Err(Io) else Ok(Unit))
    else (s.(disk := s.disk.(pendingFile := PendingRecord(s))), Ok(Unit))
  }

  // ---------------------------------------------------------------- start

  /** `restore_material`: the stored chain overrides the anchor; an unreadable one is an error. */
  function MaterialAtStart(password: Option<string>, disk: Disk, anchor: OwnMaterial): Result<OwnMaterial> {
    var stored :- PreviousLoaded(disk, password);
    if stored.None? then Ok(anchor)
    else
      var m :- Loaded(disk.main, password);
      if stored.value.fp == m.chain[0].fp then Err(Chain)
      else Ok(OwnMaterial(stored, Held(m.chain[0].fp, m.key)))
  }

  /** `restore_pending`: the promise from the file, its key from `new/`. */
  function PendingAtStart(password: Option<string>, disk: Disk): Result<Option<Pending>> {
    if disk.pendingFile.None? then Ok(None)
    else
      var f := disk.pendingFile.value;
      if !IsWellFormed(f.announcement) then Err(Proof)
      else
        var loaded := Loaded(disk.new', password);
        if loaded.Err? then Err(Chain) else Ok(Some(Pending(f.announcement, f.newCertPem, loaded.value.key)))
  }

  /** `Announcer::new`: load or start from the anchor, and fail on anything that is there but unreadable. */
  function Started(name: string, password: Option<string>, disk: Disk, anchor: OwnMaterial, schedule: Sched,
                   served: string): Result<State>
  {
    var material :- MaterialAtStart(password, disk, anchor);
    var pending :- PendingAtStart(password, disk);
    var sched := if disk.pendingFile.Some?
                 then AnnouncedAgain(schedule, disk.pendingFile.value.waitingFor, disk.pendingFile.value.firstAnnounced)
                 else schedule;
    Ok(State(name, password, material, pending, sched, served, disk))
  }

  /** Some stored generations can be read and differ, or none is stored. */
  ghost predicate ChainReadable(password: Option<string>, disk: Disk) {
    || (disk.previousLocked.None? && disk.previousClear.None?)
    || exists h: Held, m: TlsMaterial ::
         && IsMaterial(m) && h.fp != m.chain[0].fp
         && PreviousLoaded(disk, password) == Ok(Some(h)) && Loaded(disk.main, password) == Ok(m)
  }

  /** There is no promise, or it is well formed and its certificate and key lie in `new/`. */
  predicate PromiseReadable(password: Option<string>, disk: Disk) {
    disk.pendingFile.Some? ==>
      IsWellFormed(disk.pendingFile.value.announcement) && Loaded(disk.new', password).Ok?
  }

  /** The first thing that cannot be read, in the order in which it is read. */
  ghost function StartError(password: Option<string>, disk: Disk): Error {
    var (stored, main) := (PreviousLoaded(disk, password), Loaded(disk.main, password));
    if stored.Err? then stored.error
    else if stored.value.Some? && main.Err? then main.error
    else if !ChainReadable(password, disk) then Chain
    else if disk.pendingFile.Some? && !IsWellFormed(disk.pendingFile.value.announcement) then Proof
    else Chain
  }

  /**
   Over all disks, in whatever state they were left: a start succeeds exactly if everything that is there can be read,
   and then the chain is the stored one, or the anchor if none is stored, and the promise is the stored one, or none.
   */
  lemma StartFailsClosed(name: string, password: Option<string>, disk: Disk, anchor: OwnMaterial, schedule: Sched,
                         served: string)
    ensures var r := Started(name, password, disk, anchor, schedule, served);
            && (r.Ok? <==> ChainReadable(password, disk) && PromiseReadable(password, disk))
            && (r.Ok? ==>
                  && r.value.disk == disk && r.value.served == served && r.value.password == password
                  && r.value.schedule.peers == schedule.peers
                  && (disk.previousLocked.None? && disk.previousClear.None? ==> r.value.material == anchor)
                  && (disk.previousLocked.Some? || disk.previousClear.Some? ==>
                        && r.value.material.previous.Some?
                        && PreviousLoaded(disk, password) == Ok(r.value.material.previous)
                        && Loaded(disk.main, password).Ok?
                        && var m := Loaded(disk.main, password).value;
                           r.value.material.current == Held(m.chain[0].fp, m.key))
                  && (disk.pendingFile.None? ==> r.value.pending.None? && r.value.schedule == schedule)
                  && (disk.pendingFile.Some? ==>
                        && r.value.pending.Some? && Loaded(disk.new', password).Ok?
                        && var (f, p) := (disk.pendingFile.value, r.value.pending.value);
                           && p == Pending(f.announcement, f.newCertPem, Loaded(disk.new', password).value.key)
                           && r.value.schedule.state == Announced(f.waitingFor, f.firstAnnounced)))
            && (r.Err? ==> r.error == StartError(password, disk))
  {
    hide Loaded, PreviousLoaded, IsWellFormed;
    var (stored, main) := (PreviousLoaded(disk, password), Loaded(disk.main, password));
    PreviousLoadedExactly(disk, password, anchor.current);
    if main.Ok? {
      LoadedExactly(disk.main, password, main.value);
      if stored.Ok? && stored.value.Some? {
        PreviousLoadedExactly(disk, password, stored.value.value);
        assert PreviousLoaded(disk, password) == Ok(Some(stored.value.value));
      }
    }
  }

  /** Under another password setup a start fails exactly if a generation or a promise is stored. */
  lemma OtherSetupFails(name: string, password: Option<string>, other: Option<string>, disk: Disk, anchor: OwnMaterial,
                        schedule: Sched, served: string)
    requires DiskUnder(disk, password) && other != password
    ensures Started(name, other, disk, anchor, schedule, served).Err?
            <==> disk.previousLocked.Some? || disk.previousClear.Some? || disk.pendingFile.Some?
  {
    hide Loaded, PreviousLoaded;
    OtherSetupLoadsNothing(disk, password, other);
    StartFailsClosed(name, other, disk, anchor, schedule, served);
  }

  // ---------------------------------------------------------------- what every call keeps

  /** An announcement is pending exactly when the schedule says announced. */
  predicate Coherent(s: State) { s.pending.Some? <==> s.schedule.state.Announced? }

  /** New handshakes get the certificate the chain calls current. */
  predicate Serving(s: State) { s.served == s.material.current.fp }

  /** What was promised can be kept: the announced certificate and its key lie in `new/`. */
  predicate Kept(s: State) {
    s.pending.Some? ==>
      && IsWellFormed(s.pending.value.announcement)
      && Loaded(s.disk.new', s.password).Ok?
      && var m := Loaded(s.disk.new', s.password).value;
         m.key == s.pending.value.newKey && m.chain[0].fp == s.pending.value.announcement.newFp
         && s.pending.value.announcement.currFp == s.material.current.fp
         && m.chain[0].fp != s.material.current.fp
  }

  predicate Sound(s: State) { Coherent(s) && Serving(s) && Kept(s) }

  predicate NotCurrent(s: State, generated: Result<TlsMaterial>) {
    generated.Ok? ==> IsMaterial(generated.value) && generated.value.chain[0].fp != s.material.current.fp
  }

  /** Preparing keeps the promise consistent, whichever write fails, and never touches chain or service. */
  lemma PrepareKeepsSound(s: State, now: int, generated: Result<TlsMaterial>, faults: set<Write>)
    requires Sound(s) && NotCurrent(s, generated)
    ensures var (s', r) := Prepared(s, now, generated, faults);
            && Sound(s')
            && s'.material == s.material && s'.served == s.served
            && (s.pending.Some? ==> s' == s && r == Ok(s.pending.value.announcement))
            && (r.Ok? ==> s'.pending.Some? && s'.pending.value.announcement == r.value)
            && (r.Err? ==> s'.pending == s.pending && s'.schedule == s.schedule)
  {
    if s.pending.None? && generated.Ok? {
      LoadedAfterSaved(s.disk.new', s.password, generated.value, New, faults);
      var fp: Fp := generated.value.chain[0].fp;
      assert IsFingerprint(fp);
    }
  }

  /**
   A roll switches chain and service together or neither. The promise stays consistent with the schedule exactly
   when no next time had to be drawn or the draw succeeded.
   */
  lemma RollKeepsSound(s: State, now: int, safe: bool, draw: Option<int>, faults: set<Write>)
    requires Sound(s)
    ensures var (s', r) := Rolled(s, now, safe, draw, faults);
            && Serving(s')
            && (s'.material != s.material ==>
                  && ReadyToRoll(s, now) && safe
                  && s'.material.previous == Some(s.material.current)
                  && s'.material.current == Held(s.pending.value.announcement.newFp, s.pending.value.newKey))
            && (r == Ok(None) <==> !ReadyToRoll(s, now) || !safe)
            && (r == Ok(None) ==> s' == s)
            && (r.Ok? && r.value.Some? ==> r.value.value == s.served && s'.material != s.material)
            && (Coherent(s') <==> !(s.pending.Some? && s'.pending.None? && draw.None?))
  {
  }

  /**
   Over all states and failing writes: either nothing but `new/` has changed, or the promise stands for the certificate
   that lies in `new/` whole; the answer says which, and why.
   */
  lemma PrepareExactly(s: State, now: int, generated: Result<TlsMaterial>, faults: set<Write>)
    requires generated.Ok? ==> IsMaterial(generated.value)
    ensures var (s', r) := Prepared(s, now, generated, faults);
            if s.pending.Some? then s' == s && r == Ok(s.pending.value.announcement)
            else if generated.Err? then s' == s && r == Err(generated.error)
            else
              var m := generated.value;
              var (dir, whole) := Saved(s.disk.new', s.password, m, New, faults);
              var k := Announce(s.name, s.material.previous, s.material.current, PemOf(m.chain[0]), now);
              && s'.disk == s.disk.(new' := dir)
              && r == (if whole then k else Err(Io))
              && (r.Err? ==> s' == s.(disk := s'.disk))
              && (r.Ok? ==> s' == s.(disk := s'.disk,
                                     pending := Some(Pending(k.value, PemOf(m.chain[0]), m.key)),
                                     schedule := MarkedAnnounced(s.schedule, now)))
  {
    hide Announce, Saved;
  }

  /** How far a roll got. */
  datatype Progress = Refused | NotOnDisk | Served | Recorded

  /**
   Over all states and failing writes, a roll goes through its effects in order and stops at the first that fails: the
   gates, the material on disk, service and chain together, the previous generation on disk together with promise and
   schedule, the next time, and only then is `new/` removed. The answer says where it stopped.
   */
  lemma RollExactly(s: State, now: int, safe: bool, draw: Option<int>, faults: set<Write>) returns (p: Progress)
    ensures var (s', r) := Rolled(s, now, safe, draw, faults);
            var loaded := Loaded(s.disk.new', s.password);
            && (p.Refused? <==> !ReadyToRoll(s, now) || !safe || loaded.Err?)
            && (p.Refused? ==> s' == s && r == if ReadyToRoll(s, now) && safe then Err(loaded.error) else Ok(None))
            && (!p.Refused? ==>
                  var m := loaded.value;
                  var (main, whole) := Saved(s.disk.main, s.password, m, Main, faults);
                  && s'.disk.main == main && (p.NotOnDisk? <==> !whole)
                  && (p.NotOnDisk? ==> s' == s.(disk := s.disk.(main := main)) && r == Err(Io))
                  && (whole ==> s'.served == m.chain[0].fp
                                && s'.material == OwnMaterial(Some(s.material.current),
                                                              Held(m.chain[0].fp, s.pending.value.newKey))
                                && (p.Served? <==> PreviousFile in faults))
                  && (p.Served? ==> s' == s.(served := s'.served, material := s'.material,
                                             disk := s.disk.(main := main)) && r == Err(Io))
                  && (p.Recorded? ==>
                        && s'.pending.None? && s'.schedule == AfterRoll(s.schedule, now, draw)
                        && s'.name == s.name && s'.password == s.password
                        && r == (if draw.None? then Err(Generate) else Ok(Some(s.served)))
                        && s'.disk == PreviousSaved(s.disk, s.password, s.material.current).(
                                        main := main,
                                        new' := if draw.Some? && RemoveNewDir !in faults then NO_DIR
                                                else s.disk.new')))
  {
    hide Saved, Loaded, MayRoll, AfterRoll;
    if !ReadyToRoll(s, now) || !safe || Loaded(s.disk.new', s.password).Err? {
      return Refused;
    }
    var whole := Saved(s.disk.main, s.password, Loaded(s.disk.new', s.password).value, Main, faults).1;
    p := if !whole then NotOnDisk else if PreviousFile in faults then Served else Recorded;
  }

  /** One file is replaced or removed, and nothing else; only a promise that could not be written is an error. */
  lemma SavePendingExactly(s: State, faults: set<Write>)
    ensures var (s', r) := PendingSaved(s, faults);
            && s' == s.(disk := s.disk.(pendingFile := s'.disk.pendingFile))
            && (r.Err? <==> s.pending.Some? && PendingFile in faults)
            && (PendingFile in faults ==> s' == s)
            && (PendingFile !in faults ==> (s'.disk.pendingFile.Some? <==> s.pending.Some?))
            && (PendingFile !in faults && s.pending.Some? && s.schedule.state.Announced? ==>
                  s'.disk.pendingFile == Some(PendingOnDisk(s.pending.value.announcement, s.pending.value.newCertPem,
                                                            s.schedule.state.waitingFor,
                                                            s.schedule.state.firstAnnounced)))
  {
  }

  // ---------------------------------------------------------------- restart

  /** The chain can be rebuilt from disk: nothing was ever rolled, or both generations are there. */
  predicate ChainOnDisk(s: State, anchor: OwnMaterial) {
    var stored := PreviousLoaded(s.disk, s.password);
    && stored.Ok?
    && (stored.value.None? ==> s.material == anchor)
    && (stored.value.Some? ==>
          && s.material.previous == stored.value
          && s.material.current.fp != stored.value.value.fp
          && Loaded(s.disk.main, s.password).Ok?
          && var m := Loaded(s.disk.main, s.password).value;
             s.material.current == Held(m.chain[0].fp, m.key))
  }

  /** A state whose disk is up to date: `save_pending` has run since the last call. */
  predicate Quiescent(s: State, anchor: OwnMaterial) {
    Sound(s) && ChainOnDisk(s, anchor) && s.disk.pendingFile == PendingRecord(s)
  }

  /** The same peers, freshly scheduled. */
  function FreshSchedule(s: State, attemptAt: int): Sched { Sched(Idle(attemptAt), s.schedule.peers, None) }

  /** Starting again with a resolver that serves `served`, whatever that is. */
  function Restarted(s: State, anchor: OwnMaterial, attemptAt: int, served: string): Result<State> {
    Started(s.name, s.password, s.disk, anchor, FreshSchedule(s, attemptAt), served)
  }

  /**
   A restart of a quiescent announcer gives back everything except the time of the last roll. `new` does not touch the
   resolver, so chain and service agree afterwards exactly when the caller's resolver already serves the chain's end.
   */
  lemma RestartIsStutter(s: State, anchor: OwnMaterial, attemptAt: int, served: string)
    requires Quiescent(s, anchor)
    ensures var r := Restarted(s, anchor, attemptAt, served);
            && r == Ok(s.(schedule := if s.pending.Some? then s.schedule.(lastRolled := None)
                                      else FreshSchedule(s, attemptAt),
                          served := served))
            && (Serving(r.value) <==> served == s.served)
  {
  }

  /** One call of a running announcer. */
  datatype Call =
    | Prepare(now: int, generated: Result<TlsMaterial>)
    | Ack(peer: string)
    | Roll(now: int, safe: bool, draw: int)
    | Restart(attemptAt: int, served: string)

  /** A certificate is made anew, and a restart starts with a resolver that serves the end of the stored chain. */
  predicate CallAllowed(s: State, c: Call) {
    match c
    case Prepare(now, generated) => NotCurrent(s, generated)
    case Ack(peer) => true
    case Roll(now, safe, draw) => true
    case Restart(attemptAt, served) => served == s.material.current.fp
  }

  /** A call with a working disk, followed by `save_pending`. */
  function Called(s: State, anchor: OwnMaterial, c: Call): State
    requires CallAllowed(s, c)
  {
    var s1 := match c
      case Prepare(now, generated) => Prepared(s, now, generated, {}).0
      case Ack(peer) => Acked(s, peer)
      case Roll(now, safe, draw) => Rolled(s, now, safe, Some(draw), {}).0
      case Restart(attemptAt, served) =>
        var r := Restarted(s, anchor, attemptAt, served);
        if r.Ok? then r.value else s;
    PendingSaved(s1, {}).0
  }

  lemma RollKeepsQuiescent(s: State, anchor: OwnMaterial, now: int, safe: bool, draw: int)
    requires Quiescent(s, anchor)
    ensures Quiescent(PendingSaved(Rolled(s, now, safe, Some(draw), {}).0, {}).0, anchor)
  {
    if ReadyToRoll(s, now) && safe {
      var m := Loaded(s.disk.new', s.password).value;
      LoadedAfterSaved(s.disk.main, s.password, m, Main, {});
    }
  }

  lemma CallKeepsQuiescent(s: State, anchor: OwnMaterial, c: Call)
    requires Quiescent(s, anchor) && CallAllowed(s, c)
    ensures Quiescent(Called(s, anchor, c), anchor)
  {
    match c {
      case Prepare(now, generated) => PrepareKeepsSound(s, now, generated, {});
      case Ack(peer) =>
      case Roll(now, safe, draw) => RollKeepsQuiescent(s, anchor, now, safe, draw);
      case Restart(attemptAt, served) => RestartIsStutter(s, anchor, attemptAt, served);
    }
  }

  predicate CallsAllowed(s: State, anchor: OwnMaterial, cs: seq<Call>)
    decreases |cs|
  {
    cs == [] || (CallAllowed(s, cs[0]) && CallsAllowed(Called(s, anchor, cs[0]), anchor, cs[1..]))
  }

  function CalledAll(s: State, anchor: OwnMaterial, cs: seq<Call>): State
    requires CallsAllowed(s, anchor, cs)
    decreases |cs|
  {
    if cs == [] then s else CalledAll(Called(s, anchor, cs[0]), anchor, cs[1..])
  }

  /** Nothing on disk, the anchor in memory, the anchor served. */
  predicate FirstBoot(s: State, anchor: OwnMaterial) {
    && s.material == anchor && s.served == anchor.current.fp && s.pending.None? && s.schedule.state.Idle?
    && s.disk == Disk(s.disk.main, s.disk.new', None, None, None)
  }

  /**
   Restart is a stutter: after any sequence of calls from first boot, restarts among them, starting again rebuilds
   exactly the same chain, promise, waiting list and first announcement. The served certificate is the chain's if and
   only if the resolver handed to the new announcer serves it.
   */
  lemma {:induction false} RestartAnywhere(s: State, anchor: OwnMaterial, cs: seq<Call>, attemptAt: int, served: string)
    requires Quiescent(s, anchor) && CallsAllowed(s, anchor, cs)
    ensures var s' := CalledAll(s, anchor, cs);
            var r := Restarted(s', anchor, attemptAt, served);
            && Quiescent(s', anchor) && r.Ok?
            && r.value.material == s'.material && r.value.pending == s'.pending
            && (Serving(r.value) <==> served == s'.material.current.fp)
            && (s'.pending.Some? ==> r.value.schedule.state == s'.schedule.state)
            && (s'.pending.None? ==> r.value.schedule.state.Idle?)
    decreases |cs|
  {
    hide Quiescent, Called, CallAllowed;
    if cs == [] {
      RestartIsStutter(s, anchor, attemptAt, served);
      QuiescentServes(s, anchor);
    } else {
      CallKeepsQuiescent(s, anchor, cs[0]);
      RestartAnywhere(Called(s, anchor, cs[0]), anchor, cs[1..], attemptAt, served);
    }
  }

  lemma QuiescentServes(s: State, anchor: OwnMaterial)
    requires Quiescent(s, anchor)
    ensures Serving(s) && Coherent(s)
  {
  }

  lemma FirstBootIsQuiescent(s: State, anchor: OwnMaterial)
    requires FirstBoot(s, anchor)
    ensures Quiescent(s, anchor)
  {
  }

  // ---------------------------------------------------------------- crashes

  /**
   Dying anywhere inside `prepare`, or right after it, rebuilds the chain from before the call: a write that never
   happened leaves the same disk as one that failed.
   */
  lemma CrashInPrepare(s: State, anchor: OwnMaterial, now: int, generated: Result<TlsMaterial>, faults: set<Write>,
                       attemptAt: int, served: string)
    requires Quiescent(s, anchor) && s.pending.None? && NotCurrent(s, generated)
    ensures var crashed := s.(disk := Prepared(s, now, generated, faults).0.disk);
            Restarted(crashed, anchor, attemptAt, served)
            == Ok(s.(schedule := FreshSchedule(s, attemptAt), disk := crashed.disk, served := served))
  {
  }

  /** Between which two writes of a roll the process dies; `AfterCall` is before the next `save_pending`. */
  datatype CrashPoint = BeforeMaterial | BetweenFiles | AfterMaterial | AfterPrevious | AfterCall

  function FirstMissing(p: CrashPoint): set<Write> {
    match p
    case BeforeMaterial => {CertFile(Main), LockedFile(Main)}
    case BetweenFiles => {KeyFile(Main)}
    case AfterMaterial => {PreviousFile}
    case AfterPrevious => {RemoveNewDir}
    case AfterCall => {}
  }

  /** What the roll leaves on disk up to that point. */
  function CrashedIn(s: State, now: int, draw: int, p: CrashPoint): State {
    s.(disk := Rolled(s, now, true, Some(draw), FirstMissing(p)).0.disk)
  }

  function Promised(s: State): Held
    requires s.pending.Some?
  {
    Held(s.pending.value.announcement.newFp, s.pending.value.newKey)
  }

  /** The chain that the next start finds. */
  function ChainAfterCrash(s: State, p: CrashPoint): Result<OwnMaterial>
    requires s.pending.Some? && PreviousLoaded(s.disk, s.password).Ok?
  {
    var stored := PreviousLoaded(s.disk, s.password).value;
    var skipped := if stored.Some? && stored.value.fp == Promised(s).fp then Err(Chain)
                   else Ok(OwnMaterial(stored, Promised(s)));
    match p
    case BeforeMaterial => Ok(s.material)
    case BetweenFiles =>
      if stored.None? then Ok(s.material)
      else if s.material.current.key != Promised(s).key then Err(Certificate)
      else skipped
    case AfterMaterial => if stored.None? then Ok(s.material) else skipped
    case AfterPrevious => Ok(OwnMaterial(Some(s.material.current), Promised(s)))
    case AfterCall => Err(Chain)
  }

  /**
   Dying anywhere inside a roll, or after it and before `save_pending`. The next start finds the chain from before the
   call exactly if nothing had been written, or some of the new material was but no previous generation is stored; it
   finds the rolled chain exactly if both generations were in place and `new/` still was. Whenever it succeeds the old
   promise is back. At every other point it fails, or the rebuilt chain has skipped the certificate that was served.
   */
  lemma CrashInRoll(s: State, anchor: OwnMaterial, now: int, draw: int, p: CrashPoint, attemptAt: int, served: string)
    requires Quiescent(s, anchor) && ReadyToRoll(s, now)
    requires p.BetweenFiles? ==> s.password.None?  // locked material is one file
    ensures var r := Restarted(CrashedIn(s, now, draw, p), anchor, attemptAt, served);
            var chain := if r.Ok? then Ok(r.value.material) else Err(r.error);
            && chain == ChainAfterCrash(s, p)
            && (r.Ok? ==> r.value.pending == s.pending && r.value.schedule.state == s.schedule.state)
            && (chain == Ok(s.material)
                <==> p.BeforeMaterial?
                     || (PreviousLoaded(s.disk, s.password).value.None? && (p.BetweenFiles? || p.AfterMaterial?)))
            && (chain == Ok(OwnMaterial(Some(s.material.current), Promised(s))) <==> p.AfterPrevious?)
  {
    hide MayRoll;
    var m := Loaded(s.disk.new', s.password).value;
    LoadedAfterSaved(s.disk.main, s.password, m, Main, FirstMissing(p));
  }

  function AckedAll(s: State, peers: seq<string>): State
    decreases |peers|
  {
    if peers == [] then s else AckedAll(Acked(s, peers[0]), peers[1..])
  }

  lemma {:induction false} AcksOnlyShrinkWaiting(s: State, peers: seq<string>)
    ensures var s' := AckedAll(s, peers);
            && s' == s.(schedule := s'.schedule)
            && (s.schedule.state.Idle? ==> s'.schedule == s.schedule)
            && (s.schedule.state.Announced? ==>
                  s'.schedule == WithWaiting(s.schedule, Waiting(s.schedule) - (set p | p in peers)))
    decreases |peers|
  {
    var w := Waiting(s.schedule);
    if peers == [] {
      assert w - (set p | p in peers) == w;
    } else {
      AcksOnlyShrinkWaiting(Acked(s, peers[0]), peers[1..]);
      assert peers == [peers[0]] + peers[1..];
      assert w - {peers[0]} - (set p | p in peers[1..]) == w - (set p | p in peers);
    }
  }

  /** A pending file older than some acks restores a superset of the waiting list: the gate is never weakened. */
  lemma StalePendingFileIsSafe(s: State, anchor: OwnMaterial, acks: seq<string>, attemptAt: int, served: string,
                               now: int)
    requires Quiescent(s, anchor) && s.pending.Some?
    ensures var s' := AckedAll(s, acks);
            var r := Restarted(s', anchor, attemptAt, served);
            && r.Ok? && r.value.pending == s'.pending && r.value.material == s'.material
            && Waiting(s'.schedule) <= Waiting(r.value.schedule)
            && Waiting(r.value.schedule) == Waiting(s'.schedule) + (Waiting(s.schedule) * (set p | p in acks))
            && (MayRoll(r.value.schedule, now) ==> Waiting(s'.schedule) == {})
  {
    AcksOnlyShrinkWaiting(s, acks);
    RestartIsStutter(s, anchor, attemptAt, served);
  }

  // ---------------------------------------------------------------- the receipt gate over every run

  /** Calls, each with whatever writes fail during it, and restarts. */
  datatype Op =
    | DoPrepare(now: int, generated: Result<TlsMaterial>, faults: set<Write>)
    | DoAck(peer: string)
    | DoRoll(now: int, safe: bool, draw: int, faults: set<Write>)
    | DoSavePending(faults: set<Write>)
    | DoRestart(attemptAt: int, served: string)

  /** A restart happens on an up-to-date disk, with a resolver that serves the end of the stored chain. */
  predicate OpAllowed(s: State, op: Op, anchor: OwnMaterial) {
    && (op.DoPrepare? && op.generated.Ok? ==> IsMaterial(op.generated.value))
    && (op.DoRestart? ==> Quiescent(s, anchor) && op.served == s.material.current.fp)
  }

  function Apply(s: State, op: Op, anchor: OwnMaterial): State
    requires OpAllowed(s, op, anchor)
  {
    match op
    case DoPrepare(now, generated, faults) => Prepared(s, now, generated, faults).0
    case DoAck(peer) => Acked(s, peer)
    case DoRoll(now, safe, draw, faults) => Rolled(s, now, safe, Some(draw), faults).0
    case DoSavePending(faults) => PendingSaved(s, faults).0
    case DoRestart(attemptAt, served) =>
      RestartIsStutter(s, anchor, attemptAt, served);
      Restarted(s, anchor, attemptAt, served).value
  }

  /** The states a run goes through: one more than its operations. */
  ghost predicate IsRun(states: seq<State>, ops: seq<Op>, anchor: OwnMaterial) {
    && |states| == |ops| + 1
    && (forall n :: 0 <= n < |ops| ==> OpAllowed(states[n], ops[n], anchor))
    && (forall n :: 0 <= n < |ops| ==> states[n + 1] == Apply(states[n], ops[n], anchor))
  }

  /** Operation `a` created the promise that is still pending in state `n`. */
  ghost predicate PromisedAt(states: seq<State>, ops: seq<Op>, a: nat, n: nat)
    requires |states| == |ops| + 1 && n <= |ops|
  {
    && a < n && ops[a].DoPrepare? && states[a].pending.None?
    && states[n].pending.Some?
    && (forall m :: a < m <= n ==> states[m].pending == states[n].pending)
  }

  ghost predicate AckedBetween(ops: seq<Op>, a: nat, n: nat, peer: string)
    requires n <= |ops|
  {
    exists q :: a < q < n && ops[q] == DoAck(peer)
  }

  /** The promised certificate and its key lie in `new/`. */
  predicate PromiseOnDisk(s: State) {
    s.pending.Some? ==>
      var loaded := Loaded(s.disk.new', s.password);
      loaded.Ok? && Held(loaded.value.chain[0].fp, loaded.value.key) == Promised(s)
  }

  lemma ApplyKeepsPromise(s: State, op: Op, anchor: OwnMaterial)
    requires OpAllowed(s, op, anchor) && PromiseOnDisk(s) && Coherent(s)
    ensures var s' := Apply(s, op, anchor);
            && PromiseOnDisk(s') && Coherent(s') && s'.schedule.peers == s.schedule.peers
            && (s.pending.Some? && s'.pending.Some? ==>
                  s'.pending == s.pending
                  && forall p :: p in Waiting(s.schedule) ==> p in Waiting(s'.schedule) || op == DoAck(p))
            && (s.pending.None? && s'.pending.Some? ==> op.DoPrepare? && Waiting(s'.schedule) == s'.schedule.peers)
  {
    hide Announce, MayRoll;
    match op {
      case DoPrepare(now, generated, faults) =>
        if s.pending.None? && generated.Ok? {
          LoadedAfterSaved(s.disk.new', s.password, generated.value, New, faults);
          AnnouncesItsCertificate(s, now, generated.value.chain[0]);
        }
      case DoAck(peer) =>
      case DoRoll(now, safe, draw, faults) =>
      case DoSavePending(faults) =>
      case DoRestart(attemptAt, served) => RestartIsStutter(s, anchor, attemptAt, served);
    }
  }

  lemma AnnouncesItsCertificate(s: State, now: int, cert: Cert)
    ensures var k := Announce(s.name, s.material.previous, s.material.current, PemOf(cert), now);
            k.Ok? ==> k.value.newFp == cert.fp
  {
    hide RotateV2;
  }

  /** Every call writes under its own password setup, whichever writes fail. */
  lemma ApplyKeepsSetup(s: State, op: Op, anchor: OwnMaterial)
    requires OpAllowed(s, op, anchor) && DiskUnder(s.disk, s.password)
    ensures var s' := Apply(s, op, anchor); DiskUnder(s'.disk, s'.password) && s'.password == s.password
  {
    hide Announce, MayRoll;
    if op.DoRestart? {
      RestartIsStutter(s, anchor, op.attemptAt, op.served);
    }
  }

  /** A call that changes the chain changes it to the promise, and serves it. */
  lemma SwitchInstallsPromise(s: State, op: Op, anchor: OwnMaterial)
    requires OpAllowed(s, op, anchor) && PromiseOnDisk(s)
    ensures var s' := Apply(s, op, anchor);
            s'.material != s.material ==>
              && op.DoRoll? && ReadyToRoll(s, op.now)
              && s'.material == OwnMaterial(Some(s.material.current), Promised(s))
              && s'.served == Promised(s).fp
  {
    hide MayRoll;
    if op.DoRestart? {
      RestartIsStutter(s, anchor, op.attemptAt, op.served);
    }
  }

  lemma {:induction false} PromiseInvariant(states: seq<State>, ops: seq<Op>, anchor: OwnMaterial, n: nat)
    returns (a: nat)
    requires IsRun(states, ops, anchor) && n <= |ops|
    requires states[0].pending.None? && states[0].schedule.state.Idle?
    ensures Coherent(states[n]) && PromiseOnDisk(states[n])
    ensures states[n].schedule.peers == states[0].schedule.peers
    ensures states[n].pending.Some? ==>
              PromisedAt(states, ops, a, n)
              && forall p :: p in states[n].schedule.peers
                             ==> p in Waiting(states[n].schedule) || AckedBetween(ops, a, n, p)
  {
    hide Coherent, PromiseOnDisk, Apply, OpAllowed, Waiting;
    a := 0;
    if n == 0 {
      NothingPromised(states[0]);
    } else {
      a := PromiseInvariant(states, ops, anchor, n - 1);
      var (before, now) := (states[n - 1], states[n]);
      assert now == Apply(before, ops[n - 1], anchor);
      ApplyKeepsPromise(before, ops[n - 1], anchor);
      if now.pending.Some? {
        if before.pending.None? {
          a := n - 1;
        } else {
          forall p | p in now.schedule.peers ensures p in Waiting(now.schedule) || AckedBetween(ops, a, n, p) {
            if p !in Waiting(before.schedule) {
              assert AckedBetween(ops, a, n - 1, p);
            } else if p !in Waiting(now.schedule) {
              assert ops[n - 1] == DoAck(p);
            }
          }
        }
      }
    }
  }

  lemma NothingPromised(s: State)
    requires s.pending.None? && s.schedule.state.Idle?
    ensures Coherent(s) && PromiseOnDisk(s)
  {
  }

  lemma ReadyMeansNobodyWaits(s: State, now: int)
    requires ReadyToRoll(s, now)
    ensures s.pending.Some? && Waiting(s.schedule) == {}
  {
  }

  /**
   Whenever a call changes the chain, it installs and serves the promised certificate and key, and since the `prepare`
   that made the promise every registered peer has acked, whichever writes failed and however often the announcer was
   restarted in between.
   */
  lemma EverySwitchWasAcked(states: seq<State>, ops: seq<Op>, anchor: OwnMaterial, n: nat) returns (a: nat)
    requires IsRun(states, ops, anchor) && n < |ops|
    requires states[0].pending.None? && states[0].schedule.state.Idle?
    requires states[n + 1].material != states[n].material
    ensures PromisedAt(states, ops, a, n)
    ensures forall p :: p in states[n].schedule.peers ==> AckedBetween(ops, a, n, p)
    ensures states[n + 1].material == OwnMaterial(Some(states[n].material.current), Promised(states[n]))
    ensures states[n + 1].served == Promised(states[n]).fp
  {
    hide Coherent, PromiseOnDisk, Apply, OpAllowed, Waiting, ReadyToRoll;
    a := PromiseInvariant(states, ops, anchor, n);
    assert states[n + 1] == Apply(states[n], ops[n], anchor);
    SwitchInstallsPromise(states[n], ops[n], anchor);
    ReadyMeansNobodyWaits(states[n], ops[n].now);
  }

  lemma {:induction false} RunKeepsSetup(states: seq<State>, ops: seq<Op>, anchor: OwnMaterial, n: nat)
    requires IsRun(states, ops, anchor) && n <= |ops| && DiskUnder(states[0].disk, states[0].password)
    ensures DiskUnder(states[n].disk, states[n].password) && states[n].password == states[0].password
  {
    hide DiskUnder, Apply, OpAllowed;
    if n > 0 {
      RunKeepsSetup(states, ops, anchor, n - 1);
      assert states[n] == Apply(states[n - 1], ops[n - 1], anchor);
      ApplyKeepsSetup(states[n - 1], ops[n - 1], anchor);
    }
  }

  /**
   After any run under one password setup, failing writes and restarts included, a start under another one fails, unless
   neither a previous generation nor a promise has been stored.
   */
  lemma SetupCannotChange(states: seq<State>, ops: seq<Op>, anchor: OwnMaterial, n: nat, other: Option<string>,
                          schedule: Sched, served: string)
    requires IsRun(states, ops, anchor) && n <= |ops| && DiskUnder(states[0].disk, states[0].password)
    requires other != states[0].password
    ensures var disk := states[n].disk;
            Started(states[n].name, other, disk, anchor, schedule, served).Err?
            <==> disk.previousLocked.Some? || disk.previousClear.Some? || disk.pendingFile.Some?
  {
    hide DiskUnder, Started;
    RunKeepsSetup(states, ops, anchor, n);
    OtherSetupFails(states[n].name, states[0].password, other, states[n].disk, anchor, schedule, served);
  }

  /** After a roll the next `prepare` waits for every registered peer exactly when the draw had succeeded. */
  lemma FailedDrawSkipsTheGate(s: State, now: int, draw: Option<int>, later: int, generated: Result<TlsMaterial>)
    requires Sound(s) && s.schedule.peers != {} && ReadyToRoll(s, now)
    requires IsComponentName(s.name) && IsFingerprint(s.material.current.fp)
    requires generated.Ok? && IsMaterial(generated.value)
    ensures var s1 := Rolled(s, now, true, draw, {}).0;
            var (s2, r) := Prepared(s1, later, generated, {});
            r.Ok? && (Waiting(s2.schedule) == s2.schedule.peers <==> draw.Some?)
  {
  }

  // ---------------------------------------------------------------- the objects

  /** The served certificate (src/resolver.rs); material that does not hold together never replaces a working one. */
  class RotatingResolver {
    var fingerprint: string
    var key: Key

    constructor (m: TlsMaterial)
      requires IsMaterial(m)
      ensures fingerprint == m.chain[0].fp && key == m.key
    {
      fingerprint, key := m.chain[0].fp, m.key;
    }

    method Swap(m: TlsMaterial) returns (r: Result<string>)
      modifies this
      ensures IsMaterial(m) ==> r == Ok(old(fingerprint)) && fingerprint == m.chain[0].fp && key == m.key
      ensures !IsMaterial(m) ==> r.Err? && fingerprint == old(fingerprint) && key == old(key)
    {
      var checked := Checked(m);
      if checked.Err? {
        return Err(checked.error);
      }
      r := Ok(fingerprint);
      fingerprint, key := m.chain[0].fp, m.key;
    }
  }

  class Announcer {
    const name: string
    const password: Option<string>
    const resolver: RotatingResolver
    const schedule: Schedule
    var material: OwnMaterial
    var pending: Option<Pending>
    var disk: Disk

    function View(): State
      reads this, schedule, resolver
    {
      State(name, password, material, pending, schedule.View(), resolver.fingerprint, disk)
    }

    constructor Raw(name: string, password: Option<string>, disk: Disk, resolver: RotatingResolver,
                    anchor: OwnMaterial, schedule: Schedule)
      ensures View() == State(name, password, anchor, None, schedule.View(), resolver.fingerprint, disk)
      ensures this.schedule == schedule && this.resolver == resolver
    {
      this.name, this.password, this.resolver, this.schedule := name, password, resolver, schedule;
      material, pending, this.disk := anchor, None, disk;
    }

    /** Either a correct announcer or an error: there is no silently wrong one. */
    static method Start(name: string, password: Option<string>, disk: Disk, resolver: RotatingResolver,
                        anchor: OwnMaterial, schedule: Schedule)
      returns (r: Result<Announcer>)
      modifies schedule
      ensures var spec := Started(name, password, disk, anchor, old(schedule.View()), resolver.fingerprint);
              && (r.Ok? <==> spec.Ok?)
              && (r.Ok? ==> fresh(r.value) && r.value.View() == spec.value)
              && (r.Err? ==> r.error == spec.error)
    {
      var s := new Announcer.Raw(name, password, disk, resolver, anchor, schedule);
      var chain := s.RestoreMaterial();
      if chain.Err? {
        return Err(chain.error);
      }
      var promise := s.RestorePending();
      if promise.Err? {
        return Err(promise.error);
      }
      r := Ok(s);
    }

    method RestoreMaterial() returns (r: Result<bool>)
      modifies this`material
      ensures var spec := MaterialAtStart(password, disk, old(material));
              && (r.Ok? <==> spec.Ok?)
              && (r.Ok? ==> material == spec.value)
              && (r.Err? ==> r.error == spec.error && material == old(material))
    {
      var stored :- PreviousLoaded(disk, password);
      if stored.None? {
        return Ok(false);
      }
      var m :- Loaded(disk.main, password);
      if stored.value.fp == m.chain[0].fp {
        return Err(Chain);
      }
      material := OwnMaterial(stored, Held(m.chain[0].fp, m.key));
      r := Ok(true);
    }

    method RestorePending() returns (r: Result<bool>)
      modifies this`pending, schedule
      ensures var spec := PendingAtStart(password, disk);
              && (r.Ok? <==> spec.Ok?)
              && (r.Err? ==>
                    r.error == spec.error && pending == old(pending) && schedule.View() == old(schedule.View()))
              && (r.Ok? && disk.pendingFile.None? ==>
                    pending == old(pending) && schedule.View() == old(schedule.View()))
              && (r.Ok? && disk.pendingFile.Some? ==>
                    pending == spec.value
                    && schedule.View() == AnnouncedAgain(old(schedule.View()), disk.pendingFile.value.waitingFor,
                                                         disk.pendingFile.value.firstAnnounced))
    {
      if disk.pendingFile.None? {
        return Ok(false);
      }
      var f := disk.pendingFile.value;
      if !IsWellFormed(f.announcement) {
        return Err(Proof);
      }
      var loaded := Loaded(disk.new', password);
      if loaded.Err? {
        return Err(Chain);
      }
      pending := Some(Pending(f.announcement, f.newCertPem, loaded.value.key));
      schedule.RestoreAnnounced(f.waitingFor, f.firstAnnounced);
      r := Ok(true);
    }

    /** `save` into one of the two directories, file by file. */
    method Save(m: TlsMaterial, slot: Slot, faults: set<Write>) returns (ok: bool)
      modifies this`disk
      ensures var before := if slot.Main? then old(disk.main) else old(disk.new');
              var (dir, done) := Saved(before, password, m, slot, faults);
              && ok == done
              && disk == if slot.Main? then old(disk).(main := dir) else old(disk).(new' := dir)
    {
      var dir := if slot.Main? then disk.main else disk.new';
      if password.Some? {
        if LockedFile(slot) in faults {
          return false;
        }
        dir := dir.(locked := Some(Locked(password.value, m)));
      } else {
        if CertFile(slot) in faults {
          return false;
        }
        dir := dir.(cert := Some(m.chain));
        disk := if slot.Main? then disk.(main := dir) else disk.(new' := dir);
        if KeyFile(slot) in faults {
          return false;
        }
        dir := dir.(key := Some(m.key));
      }
      disk := if slot.Main? then disk.(main := dir) else disk.(new' := dir);
      ok := true;
    }

    /** The material reaches the disk before the announcement exists. */
    method Prepare(now: int, generated: Result<TlsMaterial>, faults: set<Write>) returns (r: Result<Announcement>)
      requires generated.Ok? ==> IsMaterial(generated.value)
      modifies this`pending, this`disk, schedule
      ensures (View(), r) == Prepared(old(View()), now, generated, faults)
    {
      if pending.Some? {
        return Ok(pending.value.announcement);
      }
      var m :- generated;
      var ok := Save(m, New, faults);
      if !ok {
        return Err(Io);
      }
      var pem := PemOf(m.chain[0]);
      var k :- Announce(name, material.previous, material.current, pem, now);
      pending := Some(Pending(k, pem, m.key));
      schedule.Announce(now);
      r := Ok(k);
    }

    method Ack(peer: string)
      modifies schedule
      ensures View() == Acked(old(View()), peer)
    {
      schedule.Ack(peer);
    }

    /** Schedule, promise and the consumer's own gate first; then disk, service, chain, in that order. */
    method RollIfReady(now: int, safe: bool, draw: Result<int>, faults: set<Write>) returns (r: Result<Option<string>>)
      requires draw.Err? ==> draw.error == Generate
      modifies this, schedule, resolver
      ensures (View(), r) == Rolled(old(View()), now, safe, if draw.Ok? then Some(draw.value) else None, faults)
    {
      if !MayRoll(schedule.View(), now) {
        return Ok(None);
      }
      if pending.None? {
        return Ok(None);
      }
      var newKey := pending.value.newKey;
      if !safe {
        return Ok(None);
      }
      var m :- Loaded(disk.new', password);
      var ok := Save(m, Main, faults);
      if !ok {
        return Err(Io);
      }
      var swapped := resolver.Swap(m);  // loaded material always holds together
      material := OwnMaterial(Some(material.current), Held(m.chain[0].fp, newKey));
      if PreviousFile in faults {
        return Err(Io);
      }
      disk := PreviousSaved(disk, password, material.previous.value);
      pending := None;
      var _ :- schedule.Rolled(now, draw);
      if RemoveNewDir !in faults {
        disk := disk.(new' := NO_DIR);
      }
      r := Ok(Some(swapped.value));
    }

    method SavePending(faults: set<Write>) returns (r: Result<Unit>)
      modifies this`disk
      ensures (View(), r) == PendingSaved(old(View()), faults)
    {
      if pending.None? {
        if PendingFile !in faults {
          disk := disk.(pendingFile := None);
        }
        return Ok(Unit);
      }
      if PendingFile in faults {
        return Err(Io);
      }
      disk := disk.(pendingFile := PendingRecord(View()));
      r := Ok(Unit);
    }
  }
}
