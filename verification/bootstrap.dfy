/** From fresh nodes to a finished rotation: approvals and registrations lead to states that can make progress. */
module Bootstrap {
  import opened Prelude
  import opened Announcements
  import opened Windows
  import opened Schedules
  import opened Nodes
  import opened Progress
  import Ring

  // ---------------------------------------------------------------- who can answer

  /** Once `i` has approved `j`, and `j` has learnt the key of `i`, by approving it or otherwise, `i` can answer. */
  lemma ApprovedAndKnown(w: World, i: string, j: string)
    requires Ring.Credentials(w) && Ring.Pins(w, i, j) && i in w.nodes[j].peerKeys
    ensures CanAnswer(w, i, j)
  {
    assert Ring.KnowsKey(w, j, i);
  }

  /** Approving pins window and key of the approved. */
  lemma ApprovalPins(w: World, i: string, j: string)
    requires Ring.Enabled(w, Ring.Approve(i, j))
    ensures var w' := Ring.Next(w, Ring.Approve(i, j));
            && Ring.Pins(w', i, j) && w'.nodes[i].peers[j] == Anchored(Served(w.nodes[j]).value)
            && j in w'.nodes[i].peerKeys && w'.nodes[i].peerKeys[j] == w.nodes[j].seed
  {
  }

  lemma MutualApprovalAnswers(w: World, i: string, j: string)
    requires Ring.Inv(w) && Ring.Credentials(w) && Ring.Allowed(w, [Ring.Approve(i, j), Ring.Approve(j, i)])
    ensures var w' := Ring.Run(w, [Ring.Approve(i, j), Ring.Approve(j, i)]); CanAnswer(w', i, j) && CanAnswer(w', j, i)
  {
    hide Ring.Inv, Ring.Credentials, Ring.Allowed, Ring.Run, CanAnswer;
    var (s, t) := (Ring.Approve(i, j), Ring.Approve(j, i));
    TwoSteps(w, s, t);
    ApprovalPins(w, i, j);
    var w1 := Ring.Next(w, s);
    ApprovalPins(w1, j, i);
    Ring.RunKeeps(w, [s, t]);
    ApprovedAndKnown(Ring.Next(w1, t), i, j);
    ApprovedAndKnown(Ring.Next(w1, t), j, i);
  }

  // ---------------------------------------------------------------- joining

  /** Nothing is announced, exactly `names` are registered with `j`, and all of them can answer. */
  ghost predicate Joined(w: World, j: string, names: set<string>) {
    && j in w.nodes && w.nodes[j].pending.None? && w.nodes[j].schedule.state.Idle?
    && w.nodes[j].schedule.lastRolled.None? && w.nodes[j].schedule.peers == names
    && forall i :: i in names ==> CanAnswer(w, i, j)
  }

  /** Nobody has come or gone, and nobody has a new certificate. */
  predicate SameCertificates(w: World, w': World) {
    w'.nodes.Keys == w.nodes.Keys && w'.lineage == w.lineage
  }

  function JoinSteps(i: string, j: string): seq<Ring.Step> {
    [Ring.Approve(i, j), Ring.KnowKey(j, i), Ring.RequireAck(j, i)]
  }

  /** `i` approves `j`, and `j` learns the key of `i` and registers it: all is allowed, and no step undoes another. */
  lemma Join(w: World, i: string, j: string, names: set<string>)
    requires Ring.Inv(w) && Ring.Credentials(w) && Joined(w, j, names) && i in w.nodes
    ensures Ring.Allowed(w, JoinSteps(i, j))
    ensures var w' := Ring.Run(w, JoinSteps(i, j));
            Ring.Inv(w') && Ring.Credentials(w') && Joined(w', j, names + {i}) && SameCertificates(w, w')
  {
    hide Ring.Inv, Ring.Credentials, Ring.Allowed, Ring.Run, Joined;
    var approve, know, require := Ring.Approve(i, j), Ring.KnowKey(j, i), Ring.RequireAck(j, i);
    JoinedServes(w, j, names);
    var w1 := Ring.Next(w, approve);
    var w2 := Ring.Next(w1, know);
    ApprovalPins(w, i, j);
    AcceptsMeansCurrentOrNext(Anchored(Served(w.nodes[j]).value), Served(w.nodes[j]).value.fp);
    assert Ring.Enabled(w2, require);
    var w3 := Ring.Next(w2, require);
    JoinedAfter(w, i, j, names);
    NoStep(w3);
    StepThen(w2, require, []);
    StepThen(w1, know, [require] + []);
    StepThen(w, approve, [know] + ([require] + []));
    assert JoinSteps(i, j) == [approve] + ([know] + ([require] + []));
    Ring.RunKeeps(w, JoinSteps(i, j));
  }

  lemma JoinedServes(w: World, j: string, names: set<string>)
    requires Ring.Inv(w) && Joined(w, j, names)
    ensures j in w.nodes && w.nodes[j].pending.None? && Served(w.nodes[j]).Ok?
  {
    hide Ring.Inv;
    Ring.ServedCert(w, j);
  }

  lemma JoinedAfter(w: World, i: string, j: string, names: set<string>)
    requires Joined(w, j, names) && i in w.nodes && Served(w.nodes[j]).Ok?
    ensures var w1 := Ring.ApproveNext(w, i, j);
            var w2 := Ring.SetNode(w1, j, KeyKnown(w1.nodes[j], i, w1.nodes[i].seed));
            var w3 := Ring.SetNode(w2, j, AckRequired(w2.nodes[j], i));
            Joined(w3, j, names + {i}) && SameCertificates(w, w3)
  {
    hide CanAnswer;
    forall a | a in names + {i}
      ensures var w1 := Ring.ApproveNext(w, i, j);
              var w2 := Ring.SetNode(w1, j, KeyKnown(w1.nodes[j], i, w1.nodes[i].seed));
              CanAnswer(Ring.SetNode(w2, j, AckRequired(w2.nodes[j], i)), a, j)
    {
      AnswersAfterJoining(w, i, j, a);
    }
  }

  lemma AnswersAfterJoining(w: World, i: string, j: string, a: string)
    requires i in w.nodes && j in w.nodes && Served(w.nodes[j]).Ok? && (a == i || CanAnswer(w, a, j))
    ensures var w1 := Ring.ApproveNext(w, i, j);
            var w2 := Ring.SetNode(w1, j, KeyKnown(w1.nodes[j], i, w1.nodes[i].seed));
            CanAnswer(Ring.SetNode(w2, j, AckRequired(w2.nodes[j], i)), a, j)
  {
  }

  lemma {:induction false} JoinAll(w: World, j: string, order: seq<string>, names: set<string>)
    returns (steps: seq<Ring.Step>)
    requires Ring.Inv(w) && Ring.Credentials(w) && Joined(w, j, names)
    requires forall m :: 0 <= m < |order| ==> order[m] in w.nodes
    ensures Ring.Allowed(w, steps)
    ensures var w' := Ring.Run(w, steps);
            && Ring.Inv(w') && Ring.Credentials(w') && Joined(w', j, names + (set i | i in order))
            && SameCertificates(w, w')
    decreases |order|
  {
    hide Ring.Inv, Ring.Credentials, Ring.Allowed, Ring.Run, Joined, JoinSteps;
    if order == [] {
      steps := [];
      NoStep(w);
      assert names + (set i | i in order) == names;
    } else {
      Join(w, order[0], j, names);
      var w1 := Ring.Run(w, JoinSteps(order[0], j));
      var rest := JoinAll(w1, j, order[1..], names + {order[0]});
      RunThen(w, JoinSteps(order[0], j), rest);
      steps := JoinSteps(order[0], j) + rest;
      assert order == [order[0]] + order[1..];
      assert names + {order[0]} + (set i | i in order[1..]) == names + (set i | i in order);
    }
  }

  // ---------------------------------------------------------------- a whole rotation

  lemma FreshIsJoined(w: World, j: string)
    requires Ring.Init(w) && j in w.nodes
    ensures Joined(w, j, {})
  {
    assert Ring.NewNode(j, w.nodes[j], w.lineage[j]);
  }

  /** Preparing in a joined state announces the certificate to everyone registered. */
  lemma PreparedForAll(w: World, j: string, names: set<string>, now: int, cert: Cert, key: Key)
    requires Ring.Inv(w) && Ring.Credentials(w) && Joined(w, j, names) && Ring.NewCertAllowed(w, j, cert, key)
    ensures var w' := Ring.PrepareNext(w, j, now, cert, key);
            && Ring.Inv(w') && Ring.Credentials(w') && AllCanAnswer(w', j) && w'.nodes[j].pending.Some?
            && Waiting(w'.nodes[j].schedule) == names == w'.nodes[j].schedule.peers
            && w'.nodes[j].schedule.lastRolled.None?
            && Ring.PendingFp(w'.nodes[j]) == Some(cert.fp)
  {
    hide Ring.Inv, Ring.Credentials, Announce, Ring.ChainOk;
    Ring.StepKeepsCredentials(w, Ring.Prepare(j, now, cert, key));
    Ring.PrepareKeeps(w, j, now, cert, key);
    Ring.ChainOfNode(w, j);
    Ring.NewToItself(w, j, cert, key);
    Ring.PreparedChain(w.nodes[j], w.lineage[j], now, cert, key);
  }

  /** Preparing adds one certificate to one lineage. */
  lemma PreparedLineage(w: World, j: string, now: int, cert: Cert, key: Key)
    requires Ring.Inv(w) && j in w.nodes && w.nodes[j].pending.None? && Ring.NewCertAllowed(w, j, cert, key)
    ensures var w' := Ring.PrepareNext(w, j, now, cert, key);
            j in w'.lineage && w'.lineage[j].certs == w.lineage[j].certs + [cert]
  {
    hide Ring.Inv, Announce, Ring.ChainOk;
    Ring.ChainOfNode(w, j);
    Ring.NewToItself(w, j, cert, key);
    Ring.PreparedChain(w.nodes[j], w.lineage[j], now, cert, key);
  }

  /** Once everyone has answered, the roll serves what was announced, and all who could answer accept it. */
  lemma RolledForAll(w: World, j: string, now: int, draw: int, names: set<string>)
    requires Ring.Inv(w) && j in w.nodes && w.nodes[j].schedule.peers == names
    requires w.nodes[j].pending.Some? && Waiting(w.nodes[j].schedule) == {} && w.nodes[j].schedule.lastRolled.None?
    requires forall i :: i in names ==> CanAnswer(w, i, j)
    ensures var w' := Ring.SetNode(w, j, RollTried(w.nodes[j], now, Some(draw)));
            && j in w.lineage && |w.lineage[j].certs| >= 2 && j in w'.nodes
            && Served(w'.nodes[j]) == Ok(Last(w.lineage[j].certs))
            && w'.nodes[j].rotations == |w.lineage[j].certs| - 1 && w'.nodes[j].schedule.peers == names
            && IsDueFrom(w'.nodes[j].schedule, draw)
            && forall i :: i in names ==> Ring.Pins(w', i, j)
                                          && HandshakeDone(w'.nodes[i], j, Last(w.lineage[j].certs).fp).1
  {
    hide Ring.Inv, CanAnswer, RollTried, HandshakeDone, Ring.ChainOk, Ring.ScheduleOk;
    RollIsEnabled(w, Ring.Roll(j, now, Some(draw)));
    var w' := Ring.SetNode(w, j, RollTried(w.nodes[j], now, Some(draw)));
    PendingIsAnnounced(w, j);
    Ring.PendingCert(w, j);
    Ring.RollKeeps(w, j, now, Some(draw));
    RolledNode(w.nodes[j], now, draw);
    Ring.ServedCert(w', j);
    Ring.ServedCert(w, j);
    RotationsCounted(w', j);
    forall i | i in names ensures Ring.Pins(w', i, j) && HandshakeDone(w'.nodes[i], j, Last(w.lineage[j].certs).fp).1 {
      AnswererPins(w, i, j);
      Ring.RegisteredAccepts(w', i, j);
    }
  }

  lemma RollIsEnabled(w: World, s: Ring.Step)
    requires s.Roll? && s.j in w.nodes && s.draw.Some?
    ensures Ring.Enabled(w, s) && Ring.Next(w, s) == Ring.SetNode(w, s.j, RollTried(w.nodes[s.j], s.now, s.draw))
  {
    hide RollTried;
  }

  lemma RotationsCounted(w: World, j: string)
    requires Ring.Inv(w) && j in w.nodes
    ensures j in w.lineage && w.nodes[j].rotations == Ring.ServedAt(w.nodes[j], w.lineage[j])
  {
    hide Ring.Inv;
    Ring.ChainOfNode(w, j);
  }

  function Last(certs: seq<Cert>): Cert
    requires certs != []
  {
    certs[|certs| - 1]
  }

  /** The next announcement is due from `from` on and not before. */
  ghost predicate IsDueFrom(s: Sched, from: int) {
    forall t :: IsDue(s, t) <==> t >= from
  }

  lemma RolledNode(n: Node, now: int, draw: int)
    requires n.pending.Some? && n.schedule.state.Announced? && n.schedule.state.waitingFor == {}
    requires n.schedule.lastRolled.None?
    ensures var n' := RollTried(n, now, Some(draw));
            && n'.pending.None? && n'.schedule.peers == n.schedule.peers && IsDueFrom(n'.schedule, draw)
            && n'.peers == n.peers
  {
  }

  /** Nothing has happened yet that would forbid the certificate. */
  lemma PrepareThere(w: World, w1: World, j: string, names: set<string>, now: int, cert: Cert, key: Key)
    returns (w2: World)
    requires Ring.Init(w) && Ring.NewCertAllowed(w, j, cert, key) && SameCertificates(w, w1)
    requires Ring.Inv(w1) && Ring.Credentials(w1) && Joined(w1, j, names)
    ensures Ring.Enabled(w1, Ring.Prepare(j, now, cert, key)) && w2 == Ring.Next(w1, Ring.Prepare(j, now, cert, key))
    ensures Ring.Inv(w2) && AllCanAnswer(w2, j) && j in w2.nodes && w2.nodes[j].pending.Some?
    ensures Waiting(w2.nodes[j].schedule) == names == w2.nodes[j].schedule.peers
    ensures w2.nodes[j].schedule.lastRolled.None?
    ensures j in w2.lineage && |w2.lineage[j].certs| == 2 && Last(w2.lineage[j].certs) == cert
  {
    hide Ring.Inv, Ring.Credentials, AllCanAnswer;
    w2 := Ring.Next(w1, Ring.Prepare(j, now, cert, key));
    assert w2 == Ring.PrepareNext(w1, j, now, cert, key);
    PreparedForAll(w1, j, names, now, cert, key);
    PreparedLineage(w1, j, now, cert, key);
    assert Ring.NewNode(j, w.nodes[j], w.lineage[j]);
  }

  /** Answering leaves everything else as it was. */
  lemma StillForAll(w: World, w': World, j: string, names: set<string>)
    requires OnlyFetched(w, w', j) && AllCanAnswer(w, j)
    requires Waiting(w.nodes[j].schedule) == names == w.nodes[j].schedule.peers
    requires w.nodes[j].schedule.lastRolled.None? && w.nodes[j].pending.Some?
    ensures j in w'.nodes && w'.lineage == w.lineage && w'.nodes[j].pending.Some?
    ensures w'.nodes[j].schedule.peers == names && w'.nodes[j].schedule.lastRolled.None?
    ensures forall i :: i in names ==> CanAnswer(w', i, j)
  {
    hide CanAnswer;
    forall i | i in names ensures CanAnswer(w', i, j) {
      StillCanAnswer(w, w', i, j);
    }
  }

  lemma LastStep(w: World, s: Ring.Step)
    requires Ring.Enabled(w, s)
    ensures Ring.Allowed(w, [s]) && Ring.Run(w, [s]) == Ring.Next(w, s)
  {
    hide Ring.Enabled, Ring.Next;
    NoStep(Ring.Next(w, s));
    StepThen(w, s, []);
    assert [s] + [] == [s];
  }

  /**
   From fresh nodes, for any announcer and any receivers: there is a run that approves, registers, prepares, collects
   every receipt and rolls, and at its end the announcer serves its new certificate and every receiver accepts it.
   */
  lemma FirstRotation(w: World, j: string, order: seq<string>, now: int, draw: int, cert: Cert, key: Key)
    returns (steps: seq<Ring.Step>)
    requires Ring.Init(w) && j in w.nodes && Ring.NewCertAllowed(w, j, cert, key)
    requires forall m :: 0 <= m < |order| ==> order[m] in w.nodes
    requires forall m, n :: 0 <= m < n < |order| ==> order[m] != order[n]
    ensures Ring.Allowed(w, steps)
    ensures var w' := Ring.Run(w, steps);
            && j in w'.nodes && Served(w'.nodes[j]) == Ok(cert) && w'.nodes[j].rotations == 1
            && w'.nodes[j].schedule.peers == (set i | i in order) && IsDueFrom(w'.nodes[j].schedule, draw)
            && forall i :: i in order ==> Ring.Pins(w', i, j) && HandshakeDone(w'.nodes[i], j, cert.fp).1
  {
    hide *;
    Ring.InitInv(w);
    FreshIsJoined(w, j);
    var joins := JoinAll(w, j, order, {});
    var w1 := Ring.Run(w, joins);
    var names := set i | i in order;
    assert {} + names == names;
    var w2 := PrepareThere(w, w1, j, names, now, cert, key);
    forall m | 0 <= m < |order| ensures order[m] in Waiting(w2.nodes[j].schedule) {
      assert order[m] in names;
    }
    var acks := EveryoneAcks(w2, j, order, now);
    var w3 := Ring.Run(w2, acks);
    StillForAll(w2, w3, j, names);
    RolledForAll(w3, j, now, draw, names);
    var (prepare, roll) := (Ring.Prepare(j, now, cert, key), Ring.Roll(j, now, Some(draw)));
    RollIsEnabled(w3, roll);
    LastStep(w3, roll);
    RunThen(w2, acks, [roll]);
    StepThen(w1, prepare, acks + [roll]);
    RunThen(w, joins, [prepare] + (acks + [roll]));
    steps := joins + ([prepare] + (acks + [roll]));
  }
}
