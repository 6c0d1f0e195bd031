/** What the announcer keeps on disk (src/announcer.rs:240-475): one atomic replacement per file. */
module Disks {
  import opened Prelude
  import opened Announcements

  /** A validated certificate chain with the private key of its leaf. */
  datatype TlsMaterial = TlsMaterial(chain: seq<Cert>, key: Key)

  predicate IsMaterial(m: TlsMaterial) { |m.chain| > 0 && m.chain[0].key == Some(m.key) }

  datatype Locked<T> = Locked(password: string, content: T)

  /** A directory holds either one locked file or a certificate and a key file; an absent one holds nothing. */
  datatype Dir = Dir(locked: Option<Locked<TlsMaterial>>, cert: Option<seq<Cert>>, key: Option<Key>)

  const NO_DIR := Dir(None, None, None)

  datatype PendingOnDisk = PendingOnDisk(
    announcement: Announcement,
    newCertPem: Pem,
    waitingFor: set<string>,
    firstAnnounced: int)

  datatype Disk = Disk(
    main: Dir,
    new': Dir,
    previousLocked: Option<Locked<Held>>,
    previousClear: Option<Held>,
    pendingFile: Option<PendingOnDisk>)

  datatype Slot = Main | New

  /** The writes that can fail, or in the middle of which the process can die. */
  datatype Write = CertFile(slot: Slot) | KeyFile(slot: Slot) | LockedFile(slot: Slot)
                 | PreviousFile | PendingFile | RemoveNewDir

  function Unlock<T>(password: string, l: Locked<T>): Result<T> {
    if l.password == password then Ok(l.content) else Err(Decrypt)
  }

  /** `save`: one locked file with a password, otherwise certificate and then key; a failing write ends it. */
  function Saved(d: Dir, password: Option<string>, m: TlsMaterial, slot: Slot, faults: set<Write>): (Dir, bool) {
    match password
    case Some(p) =>
      if LockedFile(slot) in faults then (d, false) else (d.(locked := Some(Locked(p, m))), true)
    case None =>
      if CertFile(slot) in faults then (d, false)
      else if KeyFile(slot) in faults then (d.(cert := Some(m.chain)), false)
      else (d.(cert := Some(m.chain), key := Some(m.key)), true)
  }

  function Checked(m: TlsMaterial): Result<TlsMaterial> { if IsMaterial(m) then Ok(m) else Err(Certificate) }

  /** `load`. */
  function Loaded(d: Dir, password: Option<string>): Result<TlsMaterial> {
    match password
    case Some(p) =>
      if d.locked.None? then Err(Io)
      else
        var m :- Unlock(p, d.locked.value);
        Checked(m)
    case None =>
      if d.cert.None? || d.key.None? then Err(Io) else Checked(TlsMaterial(d.cert.value, d.key.value))
  }

  /** All writes of one `save`; the first that fails ends it. */
  function SaveWrites(password: Option<string>, slot: Slot): seq<Write> {
    if password.Some? then [LockedFile(slot)] else [CertFile(slot), KeyFile(slot)]
  }

  /** What lies in the directory after the first `n` writes of a `save`. */
  function AfterWrites(d: Dir, password: Option<string>, m: TlsMaterial, n: nat): Dir {
    if password.Some? then (if n >= 1 then d.(locked := Some(Locked(password.value, m))) else d)
    else Dir(d.locked, if n >= 1 then Some(m.chain) else d.cert, if n >= 2 then Some(m.key) else d.key)
  }

  /** A save does the writes before the first failing one and no other, and answers whether that was all of them. */
  lemma SavedUpToTheFirstFault(d: Dir, password: Option<string>, m: TlsMaterial, slot: Slot, faults: set<Write>)
    returns (n: nat)
    ensures var writes := SaveWrites(password, slot);
            && n <= |writes| && (forall i :: 0 <= i < n ==> writes[i] !in faults)
            && (n < |writes| ==> writes[n] in faults)
            && Saved(d, password, m, slot, faults) == (AfterWrites(d, password, m, n), n == |writes|)
  {
    n := if SaveWrites(password, slot)[0] in faults then 0
         else if password.Some? || KeyFile(slot) in faults then 1
         else 2;
  }

  /** Over all directories: loaded is exactly what lies there whole, for this password, and holds together. */
  lemma LoadedExactly(d: Dir, password: Option<string>, m: TlsMaterial)
    ensures Loaded(d, password) == Ok(m)
            <==> IsMaterial(m) && if password.Some? then d.locked == Some(Locked(password.value, m))
                                  else d.cert == Some(m.chain) && d.key == Some(m.key)
    ensures var missing := if password.Some? then d.locked.None? else d.cert.None? || d.key.None?;
            Loaded(d, password).Err? ==>
              Loaded(d, password).error == if missing then Io
                                           else if password.Some? && d.locked.value.password != password.value
                                           then Decrypt
                                           else Certificate
  {
  }

  /** What was saved is what is loaded, in either mode. */
  lemma LoadedAfterSaved(d: Dir, password: Option<string>, m: TlsMaterial, slot: Slot, faults: set<Write>)
    requires IsMaterial(m)
    ensures var (d', ok) := Saved(d, password, m, slot, faults);
            ok ==> Loaded(d', password) == Ok(m)
  {
  }

  function PreviousSaved(d: Disk, password: Option<string>, previous: Held): Disk {
    match password
    case Some(p) => d.(previousLocked := Some(Locked(p, previous)))
    case None => d.(previousClear := Some(previous))
  }

  /** One file is replaced, and every other one stays. */
  lemma PreviousSavedIsLoaded(d: Disk, password: Option<string>, previous: Held)
    ensures var d' := PreviousSaved(d, password, previous);
            && PreviousLoaded(d', password) == Ok(Some(previous))
            && d' == if password.Some? then d.(previousLocked := d'.previousLocked)
                     else d.(previousClear := d'.previousClear)
  {
  }

  /** The previous key as stored for this password setup; stored for the other setup only, it is an error. */
  function PreviousLoaded(d: Disk, password: Option<string>): Result<Option<Held>> {
    match password
    case Some(p) =>
      if d.previousLocked.Some? then
        var h :- Unlock(p, d.previousLocked.value);
        Ok(Some(h))
      else if d.previousClear.Some? then Err(Chain)
      else Ok(None)
    case None =>
      if d.previousClear.Some? then Ok(d.previousClear)
      else if d.previousLocked.Some? then Err(Chain)
      else Ok(None)
  }

  /** Over all disks: a generation is found exactly where this setup stores it; none is, exactly if none is stored. */
  lemma PreviousLoadedExactly(d: Disk, password: Option<string>, h: Held)
    ensures PreviousLoaded(d, password) == Ok(Some(h))
            <==> if password.Some? then d.previousLocked == Some(Locked(password.value, h))
                 else d.previousClear == Some(h)
    ensures PreviousLoaded(d, password) == Ok(None) <==> d.previousLocked.None? && d.previousClear.None?
    ensures var own := if password.Some? then d.previousLocked.Some? else d.previousClear.Some?;
            PreviousLoaded(d, password).Err? ==> PreviousLoaded(d, password).error == if own then Decrypt else Chain
  {
  }

  /** Nothing in the directory was written under another password, or with one if this setup has none. */
  predicate DirUnder(d: Dir, password: Option<string>) {
    if password.Some? then d.cert.None? && d.key.None? && (d.locked.Some? ==> d.locked.value.password == password.value)
    else d.locked.None?
  }

  predicate DiskUnder(d: Disk, password: Option<string>) {
    && DirUnder(d.main, password) && DirUnder(d.new', password)
    && if password.Some?
       then d.previousClear.None? && (d.previousLocked.Some? ==> d.previousLocked.value.password == password.value)
       else d.previousLocked.None?
  }

  /** Under any other setup nothing of it loads. */
  lemma OtherSetupLoadsNothing(d: Disk, password: Option<string>, other: Option<string>)
    requires DiskUnder(d, password) && other != password
    ensures Loaded(d.main, other).Err? && Loaded(d.new', other).Err?
    ensures PreviousLoaded(d, other).Ok? <==> d.previousLocked.None? && d.previousClear.None?
  {
  }
}
