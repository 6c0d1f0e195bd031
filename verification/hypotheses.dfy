/** What goes wrong in the ring when a rule of its operators is broken, shown by runs that keep all the other rules. */
module Hypotheses {
  import opened Prelude
  import opened Canonical
  import opened Announcements
  import opened Windows
  import opened Schedules
  import opened Nodes
  import Continuity
  import Progress
  import Ring

  type World = Ring.World

  // ---------------------------------------------------------------- approving anew while a receipt is out

  /** Only the list of peers and known keys of `j` has changed, and the promise stands. */
  ghost predicate OnlyRegistry(w: World, w': World, j: string) {
    && j in w.nodes && j in w'.nodes
    && var (n, n') := (w.nodes[j], w'.nodes[j]);
       && w' == Ring.SetNode(w, j, n')
       && n' == n.(schedule := n'.schedule, ackers := n'.ackers, peerKeys := n'.peerKeys)
       && n.schedule.state.Announced? && n'.schedule.state.Announced?
       && n'.schedule.lastRolled == n.schedule.lastRolled
  }

  /** Nobody but `i` is waited for any more: the others are taken off the list one by one. */
  lemma {:induction false} WaiveOthers(w: World, j: string, i: string) returns (steps: seq<Ring.Step>)
    requires j in w.nodes && w.nodes[j].schedule.state.Announced?
    ensures Ring.Allowed(w, steps)
    ensures var w' := Ring.Run(w, steps);
            OnlyRegistry(w, w', j) && Waiting(w'.nodes[j].schedule) <= {i}
    decreases |Waiting(w.nodes[j].schedule) - {i}|
  {
    var others := Waiting(w.nodes[j].schedule) - {i};
    if others == {} {
      steps := [];
      Progress.NoStep(w);
      assert w.nodes[j := w.nodes[j]] == w.nodes;
    } else {
      var p :| p in others;
      var s := Ring.WaiveAck(j, p);
      var w1 := Ring.Next(w, s);
      assert Waiting(w1.nodes[j].schedule) - {i} == others - {p};
      assert OnlyRegistry(w, w1, j);
      var rest := WaiveOthers(w1, j, i);
      steps := [s] + rest;
      Progress.StepThen(w, s, rest);
      RegistryTransitive(w, w1, Ring.Run(w1, rest), j);
    }
  }

  lemma RegistryTransitive(a: World, b: World, c: World, j: string)
    requires OnlyRegistry(a, b, j) && OnlyRegistry(b, c, j)
    ensures OnlyRegistry(a, c, j)
  {
    assert a.nodes[j := b.nodes[j]][j := c.nodes[j]] == a.nodes[j := c.nodes[j]];
  }

  /** The window of `i` on `j` is anchored at what `j` serves, and knows nothing of what comes next. */
  predicate AnchoredAt(w: World, i: string, j: string, cert: Cert) {
    Ring.Pins(w, i, j) && w.nodes[i].peers[j] == Anchored(cert)
  }

  /** The promise of `j` is a certificate unlike the one it serves. */
  predicate PromisesOther(n: Node, cert: Cert) {
    && Served(n) == Ok(cert) && n.pending.Some?
    && CertOf(n.pending.value.pem).Ok? && CertOf(n.pending.value.pem).value.fp == n.pending.value.announcement.newFp
    && n.pending.value.announcement.newFp != cert.fp
  }

  ghost predicate NeverRefuses(w: World, i: string, j: string) {
    forall steps :: Ring.Allowed(w, steps) ==> Accepting(Ring.Run(w, steps), i, j)
  }

  /** If it is registered, the receiver accepts. */
  ghost predicate Accepting(w: World, i: string, j: string) {
    Ring.Pins(w, i, j) && i in w.nodes[j].schedule.peers ==>
      Served(w.nodes[j]).Ok? && HandshakeDone(w.nodes[i], j, Served(w.nodes[j]).value.fp).1
  }

  lemma InvNeverRefuses(w: World, i: string, j: string)
    requires Ring.Inv(w) && Ring.Credentials(w)
    ensures NeverRefuses(w, i, j)
  {
    hide Ring.Inv, Ring.Credentials, Ring.Allowed, Ring.Run, HandshakeDone;
    forall steps | Ring.Allowed(w, steps) ensures Accepting(Ring.Run(w, steps), i, j) {
      Ring.RunKeeps(w, steps);
      var w' := Ring.Run(w, steps);
      if Ring.Pins(w', i, j) && i in w'.nodes[j].schedule.peers {
        Ring.RegisteredAccepts(w', i, j);
      }
    }
  }

  /** `i` has been registered and its receipt taken; only the roll is missing. */
  predicate Cleared(w: World, i: string, j: string, cert: Cert) {
    && AnchoredAt(w, i, j, cert) && PromisesOther(w.nodes[j], cert)
    && w.nodes[j].schedule.state.Announced? && Waiting(w.nodes[j].schedule) == {}
    && i in w.nodes[j].schedule.peers
  }

  /** With nobody else waited for, `i` is registered and a receipt that names the promise is taken. */
  lemma RegisterAndDeliver(w: World, i: string, j: string, cert: Cert, r: Receipt) returns (steps: seq<Ring.Step>)
    requires AnchoredAt(w, i, j, cert) && PromisesOther(w.nodes[j], cert)
    requires w.nodes[j].schedule.state.Announced? && Waiting(w.nodes[j].schedule) <= {i}
    requires Ring.Receipted(r) in w.net && Ring.SignedBySender(w, r) && r.acker == i
    requires r.newFp == w.nodes[j].pending.value.announcement.newFp
    ensures Ring.Allowed(w, steps) && Cleared(Ring.Run(w, steps), i, j, cert)
  {
    hide Acknowledge, VerifyReceipt;
    var know, require, deliver := Ring.KnowKey(j, i), Ring.RequireAck(j, i), Ring.DeliverReceipt(j, r);
    AcceptsMeansCurrentOrNext(Anchored(cert), cert.fp);
    var w1 := Ring.Next(w, know);
    var w2 := Ring.Next(w1, require);
    ReceiptVerifies(w, r);
    var w3 := Ring.Next(w2, deliver);
    assert Cleared(w3, i, j, cert);
    Progress.NoStep(w3);
    Progress.StepThen(w2, deliver, []);
    Progress.StepThen(w1, require, [deliver] + []);
    Progress.StepThen(w, know, [require] + ([deliver] + []));
    steps := [know] + ([require] + ([deliver] + []));
  }

  lemma ReceiptVerifies(w: World, r: Receipt)
    requires Ring.SignedBySender(w, r)
    ensures VerifyReceipt(r, w.nodes[r.acker].seed, r.newFp) == Ok(Unit)
  {
  }

  lemma RollAway(w: World, i: string, j: string, cert: Cert) returns (steps: seq<Ring.Step>)
    requires Cleared(w, i, j, cert)
    ensures Ring.Allowed(w, steps) && !Accepting(Ring.Run(w, steps), i, j)
  {
    var (n, last) := (w.nodes[j], w.nodes[j].schedule.lastRolled);
    var t := if last.Some? then last.value + MIN_BETWEEN_ROLLS_S else 0;
    var roll := Ring.Roll(j, t, Some(0));
    var w' := Ring.Next(w, roll);
    assert RollEnabled(n, t);
    var fp := n.pending.value.announcement.newFp;
    AcceptsMeansCurrentOrNext(Anchored(cert), fp);
    assert Served(w'.nodes[j]).Ok? && Served(w'.nodes[j]).value.fp == fp;
    assert !Accepting(w', i, j);
    Progress.NoStep(w');
    steps := [roll] + [];
    Progress.StepThen(w, roll, []);
  }

  /** From an anchored window and a receipt for what is promised there is always a way to a refusal. */
  lemma AnchoredWithReceiptRefuses(w: World, i: string, j: string, cert: Cert, r: Receipt)
    returns (steps: seq<Ring.Step>)
    requires AnchoredAt(w, i, j, cert) && PromisesOther(w.nodes[j], cert) && w.nodes[j].schedule.state.Announced?
    requires Ring.Receipted(r) in w.net && Ring.SignedBySender(w, r) && r.acker == i
    requires r.newFp == w.nodes[j].pending.value.announcement.newFp
    ensures Ring.Allowed(w, steps) && !Accepting(Ring.Run(w, steps), i, j)
  {
    hide Ring.Allowed, Ring.Run, Acknowledge, Cleared, Accepting;
    var first := WaiveOthers(w, j, i);
    var w1 := Ring.Run(w, first);
    var second := RegisterAndDeliver(w1, i, j, cert, r);
    var w2 := Ring.Run(w1, second);
    var third := RollAway(w2, i, j, cert);
    Progress.RunThen(w1, second, third);
    Progress.RunThen(w, first, second + third);
    steps := first + (second + third);
  }

  lemma PendingPromisesOther(w: World, j: string)
    requires j in w.nodes && w.nodes[j].pending.Some? && Served(w.nodes[j]).Ok? && Ring.Inv(w)
    ensures PromisesOther(w.nodes[j], Served(w.nodes[j]).value)
  {
    hide Ring.Inv, Continuity.Genuine;
    Ring.ChainOfNode(w, j);
    Ring.ServedCert(w, j);
    Ring.PendingCert(w, j);
  }

  /**
   The rule for approvals, exactly: after a new approval some continuation that keeps every rule ends in a refusal by
   the registered receiver if and only if a receipt of it for the pending announcement was out.
   */
  lemma ApprovalRuleIsExact(w: World, i: string, j: string)
    requires i in w.nodes && j in w.nodes && Served(w.nodes[j]).Ok?
    requires Ring.Inv(w) && Ring.Credentials(w)
    ensures NeverRefuses(Ring.ApproveNext(w, i, j), i, j) <==> Ring.ApprovalAllowed(w, i, j)
  {
    hide Ring.Inv, Ring.Allowed, Ring.Run, Acknowledge, Accepting;
    var w1 := Ring.ApproveNext(w, i, j);
    if Ring.ApprovalAllowed(w, i, j) {
      Ring.ApproveKeeps(w, i, j);
      Ring.StepKeepsCredentials(w, Ring.Approve(i, j));
      InvNeverRefuses(w1, i, j);
    } else {
      var r :| Ring.Receipted(r) in w.net && r.acker == i && r.announcer == j
               && r.newFp == Ring.PendingFp(w.nodes[j]).value;
      PendingPromisesOther(w, j);
      Progress.PendingIsAnnounced(w, j);
      assert Ring.SignedBySender(w, r);
      var steps := AnchoredWithReceiptRefuses(w1, i, j, Served(w.nodes[j]).value, r);
      assert Ring.Allowed(w1, steps) && !Accepting(Ring.Run(w1, steps), i, j);
    }
  }

  // ---------------------------------------------------------------- registering a receiver that refuses already

  /** The rule for registrations, exactly: some continuation ends in a refusal if and only if there is one at once. */
  lemma RegistrationRuleIsExact(w: World, j: string, i: string)
    requires j in w.nodes && Ring.Inv(w) && Ring.Credentials(w)
    ensures NeverRefuses(Ring.SetNode(w, j, AckRequired(w.nodes[j], i)), i, j) <==> Ring.RegistrationAllowed(w, j, i)
  {
    hide Ring.Inv;
    var w1 := Ring.SetNode(w, j, AckRequired(w.nodes[j], i));
    if Ring.RegistrationAllowed(w, j, i) {
      assert w1 == Ring.Next(w, Ring.RequireAck(j, i));
      Ring.RequireAckKeeps(w, j, i);
      Ring.StepKeepsCredentials(w, Ring.RequireAck(j, i));
      InvNeverRefuses(w1, i, j);
    } else {
      Progress.NoStep(w1);
      assert Ring.Allowed(w1, []) && !Accepting(Ring.Run(w1, []), i, j);
    }
  }

  // ---------------------------------------------------------------- dialling a name at the wrong node

  /**
   Asked for `name`, which `i` has not approved, but dialling `j`: nothing is stored, and the receipt that goes out can
   be taken by `j`. Approving `j` later, under every rule, then has a continuation to a refusal.
   */
  lemma MisnamedAnswerBreaks(w: World, i: string, j: string, name: string, now: int)
    requires i in w.nodes && j in w.nodes && w.nodes[j].pending.Some? && Served(w.nodes[j]).Ok?
    requires IsComponentName(name) && name !in w.nodes[i].peers && name != j && Ring.ApprovalAllowed(w, i, j)
    requires Ring.Inv(w)
    ensures var w1 := Ring.TakeOfferNext(w, i, name, w.nodes[j].pending.value.announcement, now);
            && Ring.Enabled(w1, Ring.Approve(i, j))
            && !NeverRefuses(Ring.Next(w1, Ring.Approve(i, j)), i, j)
  {
    hide Ring.Inv, Ring.Allowed, Ring.Run, Acknowledge, Accepting, IsComponentName, PromisesOther;
    var (n, k) := (w.nodes[i], w.nodes[j].pending.value.announcement);
    Ring.ChainOfNode(w, i);
    Progress.AckedFpIsFingerprint(w, j);
    Progress.PendingIsAnnounced(w, j);
    PendingPromisesOther(w, j);
    Progress.AcknowledgeSucceeds(i, name, k.newFp, now, n.seed);
    Ring.AcknowledgeFields(i, name, k.newFp, now, n.seed);
    var r := Acknowledge(i, name, k.newFp, now, n.seed).value;
    var w1 := Ring.TakeOfferNext(w, i, name, k, now);
    assert w1 == w.(net := w.net + {Ring.Receipted(r)}) by {
      assert w.nodes[i := n] == w.nodes;
    }
    assert Ring.ApprovalAllowed(w1, i, j);
    var w2 := Ring.Next(w1, Ring.Approve(i, j));
    var cert := Served(w.nodes[j]).value;
    SamePromise(w.nodes[j], w2.nodes[j], cert);
    var steps := AnchoredWithReceiptRefuses(w2, i, j, cert, r);
    assert Ring.Allowed(w2, steps) && !Accepting(Ring.Run(w2, steps), i, j);
  }

  lemma SamePromise(n: Node, m: Node, cert: Cert)
    requires PromisesOther(n, cert) && m.current == n.current && m.pending == n.pending
    ensures PromisesOther(m, cert)
  {
  }
}
