/**
 The receiver's window of at most three certificates (src/generations.rs).
 `Window` and its functions are the specification; the classes update it in place.
 */
module Windows {
  import opened Prelude
  import opened Announcements

  datatype Window = Window(previous: Option<Cert>, current: Cert, next: Option<Cert>)

  datatype Received = Stored | Known

  function Anchored(current: Cert): Window { Window(None, current, None) }

  /** Only the shape is enforced: the three roles are held by three different certificates. */
  function Restore(previous: Option<Cert>, current: Cert, next: Option<Cert>): (r: Result<Window>)
  {
    if previous.Some? && previous.value.fp == current.fp then Err(Params)
    else if next.Some? && next.value.fp == current.fp then Err(Params)
    else if previous.Some? && next.Some? && previous.value.fp == next.value.fp then Err(Params)
    else Ok(Window(previous, current, next))
  }

  function Receive(w: Window, k: Announcement): Result<(Window, Received)> {
    if w.next.Some? && w.next.value.fp == k.newFp then Ok((w, Known))
    else
      var _ :- Verify(k, w.previous, w.current);
      var cert :- CertOf(k.newCertPem);
      Ok((w.(next := Some(cert)), Stored))
  }

  /** The window after a receive, which is the old one when the announcement is refused. */
  function AfterReceive(w: Window, k: Announcement): Window {
    var r := Receive(w, k);
    if r.Ok? then r.value.0 else w
  }

  function Observed(w: Window, fp: string): (Window, bool) {
    if w.next.Some? && w.next.value.fp == fp
    then (Window(Some(w.current), w.next.value, None), true)
    else (w, false)
  }

  function AcceptedInHandshake(w: Window): seq<Cert> {
    if w.next.Some? then [w.current, w.next.value] else [w.current]
  }

  ghost predicate Accepts(w: Window, fp: string) {
    exists c :: c in AcceptedInHandshake(w) && c.fp == fp
  }

  lemma AcceptsMeansCurrentOrNext(w: Window, fp: string)
    ensures Accepts(w, fp) <==> w.current.fp == fp || (w.next.Some? && w.next.value.fp == fp)
  {
  }

  /** Check and promotion under one lock: an accepted fingerprint is current afterwards. */
  ghost function VerifyServerCert(w: Window, fp: string): (r: Result<Window>)
  {
    if Accepts(w, fp) then Ok(Observed(w, fp).0) else Err(Certificate)
  }

  /**
   Over all windows: a handshake is accepted for the current and the stored next certificate and no other, and
   exactly the next one moves the window.
   */
  lemma HandshakeExactly(w: Window, fp: string)
    ensures VerifyServerCert(w, fp)
            == if w.next.Some? && fp == w.next.value.fp then Ok(Window(Some(w.current), w.next.value, None))
               else if fp == w.current.fp then Ok(w)
               else Err(Certificate)
  {
    AcceptsMeansCurrentOrNext(w, fp);
  }

  /** Restoring accepts exactly the roles with pairwise different fingerprints, and gives them back. */
  lemma RestoreExactly(previous: Option<Cert>, current: Cert, next: Option<Cert>)
    ensures var roles := (if previous.Some? then [previous.value] else []) + [current]
                         + (if next.Some? then [next.value] else []);
            Restore(previous, current, next)
            == if Distinct(roles) then Ok(Window(previous, current, next)) else Err(Params)
  {
    var roles := (if previous.Some? then [previous.value] else []) + [current]
                 + (if next.Some? then [next.value] else []);
    assert roles[if previous.Some? then 1 else 0] == current;
    assert previous.Some? ==> roles[0] == previous.value;
    assert next.Some? ==> roles[|roles| - 1] == next.value;
  }

  /**
   Over all windows and announcements: an announcement is accepted if it names the stored next certificate, and then
   changes nothing, or if it verifies, and then the one certificate in its text, with the announced fingerprint, is
   next.
   */
  lemma ReceiveExactly(w: Window, k: Announcement)
    ensures var known := w.next.Some? && w.next.value.fp == k.newFp;
            && (Receive(w, k).Ok? <==> known || Verify(k, w.previous, w.current).Ok?)
            && (known ==> Receive(w, k) == Ok((w, Known)))
            && (!known && Receive(w, k).Ok? ==>
                  var (w', answer) := Receive(w, k).value;
                  && answer == Stored && w'.previous == w.previous && w'.current == w.current
                  && w'.next.Some? && w'.next.value.fp == k.newFp && CertOf(k.newCertPem) == Ok(w'.next.value))
            && (Receive(w, k).Err? ==> AfterReceive(w, k) == w)
  {
  }

  // ---------------------------------------------------------------- the window slides along a chain

  predicate Distinct(chain: seq<Cert>) {
    forall i, j :: 0 <= i < j < |chain| ==> chain[i].fp != chain[j].fp
  }

  /** `w` shows positions k-1, k and k+1 of the chain; the outer two may be missing. */
  predicate SlidingAt(w: Window, chain: seq<Cert>, k: nat) {
    && k < |chain|
    && w.current == chain[k]
    && (w.previous.Some? ==> k > 0 && w.previous == Some(chain[k - 1]))
    && (w.next.Some? ==> k + 1 < |chain| && w.next == Some(chain[k + 1]))
  }

  /** Every window on a chain survives being written down and restored. */
  lemma SlidingWindowRestores(w: Window, chain: seq<Cert>, k: nat)
    requires Distinct(chain) && SlidingAt(w, chain, k)
    ensures Restore(w.previous, w.current, w.next) == Ok(w)
  {
  }

  /**
   `receive` does not compare the new certificate with the ones it has: the stored window can be restored exactly
   when the announced certificate differs from both.
   */
  lemma StoredWindowRestores(w: Window, k: Announcement)
    requires Restore(w.previous, w.current, w.next).Ok?
    requires Receive(w, k).Ok? && Receive(w, k).value.1 == Stored
    ensures var w' := AfterReceive(w, k);
            Restore(w'.previous, w'.current, w'.next).Ok?
            <==> k.newFp != w.current.fp && (w.previous.Some? ==> k.newFp != w.previous.value.fp)
  {
  }

  /** Two promotions on, a certificate has no role; `previous` lets no one in. */
  lemma AbandonedHasNoRole(w: Window, chain: seq<Cert>, k: nat, gone: nat)
    requires Distinct(chain) && SlidingAt(w, chain, k) && gone < k
    ensures VerifyServerCert(w, chain[gone].fp) == Err(Certificate)
    ensures gone + 1 < k ==> w.previous != Some(chain[gone])
    ensures w.previous.Some? ==> VerifyServerCert(w, w.previous.value.fp) == Err(Certificate)
  {
    HandshakeExactly(w, chain[gone].fp);
    if w.previous.Some? {
      HandshakeExactly(w, w.previous.value.fp);
    }
  }

  /** An observation moves the window one position exactly when it is the announced successor. */
  lemma ObservedSlides(w: Window, chain: seq<Cert>, k: nat, fp: string)
    requires Distinct(chain) && SlidingAt(w, chain, k)
    ensures var (w', moved) := Observed(w, fp);
            SlidingAt(w', chain, if moved then k + 1 else k)
            && (moved <==> w.next.Some? && fp == chain[k + 1].fp)
            && (moved ==> w'.previous == Some(chain[k]))
            && (!moved ==> w' == w)
  {
  }

  // ---------------------------------------------------------------- the objects

  class Generations {
    var previous: Option<Cert>
    var current: Cert
    var next: Option<Cert>

    function View(): Window
      reads this
    {
      Window(previous, current, next)
    }

    constructor FromApproval(approved: Cert)
      ensures View() == Anchored(approved)
    {
      previous, current, next := None, approved, None;
    }

    constructor Of(w: Window)
      ensures View() == w
    {
      previous, current, next := w.previous, w.current, w.next;
    }

    static method RestoreFrom(previous: Option<Cert>, current: Cert, next: Option<Cert>)
      returns (r: Result<Generations>)
      ensures r.Ok? <==> Restore(previous, current, next).Ok?
      ensures r.Ok? ==> fresh(r.value) && r.value.View() == Window(previous, current, next)
      ensures r.Err? ==> r.error == Restore(previous, current, next).error
    {
      var roles := [previous, next];
      for i := 0 to 2
        invariant forall j :: 0 <= j < i ==> roles[j].Some? ==> roles[j].value.fp != current.fp
      {
        if roles[i].Some? && roles[i].value.fp == current.fp {
          return Err(Params);
        }
      }
      assert roles[0] == previous && roles[1] == next;
      if previous.Some? && next.Some? && previous.value.fp == next.value.fp {
        return Err(Params);
      }
      var g := new Generations.Of(Window(previous, current, next));
      r := Ok(g);
    }

    method ReceiveAnnouncement(k: Announcement) returns (r: Result<Received>)
      modifies this
      ensures View() == AfterReceive(old(View()), k)
      ensures var spec := Receive(old(View()), k);
              if spec.Ok? then r == Ok(spec.value.1) else r == Err(spec.error)
    {
      if next.Some? && next.value.fp == k.newFp {
        return Ok(Known);
      }
      var verdict := Verify(k, previous, current);
      if verdict.Err? {
        return Err(verdict.error);
      }
      var cert := DerFromPem(k.newCertPem);
      next := Some(cert.value);  // a verified announcement carries exactly one certificate
      r := Ok(Stored);
    }

    method Observe(fp: string) returns (promoted: bool)
      modifies this
      ensures (View(), promoted) == Observed(old(View()), fp)
    {
      if next.None? || next.value.fp != fp {
        return false;
      }
      var successor := next.value;
      next := None;
      previous := Some(current);
      current := successor;
      promoted := true;
    }
  }

  /** A handle on shared state: every client configuration built from it checks against the live window. */
  class Trust {
    const state: Generations

    constructor (state: Generations)
      ensures this.state == state
    {
      this.state := state;
    }

    /** `verify_server_cert`: refuse without any change, or accept and promote. */
    method VerifyServer(fp: string) returns (r: Result<Unit>)
      modifies state
      ensures var w := old(state.View());
              && (r.Ok? <==> fp == w.current.fp || (w.next.Some? && fp == w.next.value.fp))
              && (r.Ok? ==> VerifyServerCert(w, fp) == Ok(state.View()) && state.View().current.fp == fp)
              && (r.Err? ==> VerifyServerCert(w, fp).Err? && state.View() == w)
    {
      AcceptsMeansCurrentOrNext(state.View(), fp);
      var accepted := AcceptedInHandshake(state.View());
      var found := false;
      for i := 0 to |accepted|
        invariant found <==> exists j :: 0 <= j < i && accepted[j].fp == fp
      {
        if accepted[i].fp == fp {
          found := true;
        }
      }
      if !found {
        assert state.current == accepted[0];
        assert state.next.Some? ==> state.next.value == accepted[1];
        return Err(Certificate);
      }
      var _ := state.Observe(fp);
      r := Ok(Unit);
    }
  }
}
