# Verification of the certificate rotation protocol

This project models the rotation protocol of `nettls` and proves it correct. An announcer publishes a certificate signed by
its last two generations, waits until every registered peer has returned a signed receipt, and then switches. A receiver
verifies announcements with its previous and current certificate, accepts handshakes with its current and next one, and
moves on only when it sees the new certificate. There is no common clock and no coordinator.

`dafny verify dfyconfig.toml` checks everything.

## What is proved

**The protocol as a whole.** `ring.dfy` is a state machine over any number of nodes in which every control operation, server
request and handshake is one atomic step and the network only gains messages, so each of them may be lost, delayed, repeated
or reordered. Its invariant looks at one receiver and one announcer at a time: how far along the announcer's lineage the
receiver's window is, whether it is registered, whether it is still waited for, and whether its receipt is out.
`NoHandshakeBreaks` is the safety result over all runs and `RotationCanFinish` (`progress.dfy`) the progress result; both
hold against an adversary that makes receipts with any key but the nodes' own and replays whatever those have signed.
`bootstrap.dfy` reaches the hypotheses of the progress result from fresh nodes and carries a whole rotation through.
`continuity.dfy` adds an adversary: with keys of no two consecutive generations it can get no foreign certificate into a
receiver's window, and with two it can. `hypotheses.dfy` shows that the rules the state machine asks of operators are
needed.

**The two ends.** `schedule.dfy` (the receipt gate and the rate limit, with the Python object beside the Rust one),
`generations.dfy` (the receiver's window), `announcer.dfy` with `disk.dfy` (the announcer, its files, restarts, failing
writes and crashes), `node.dfy` (the ring node that wires both ends) and `pytwin.dfy` (the Python announcer, its memory
and the Python window).
`refinement.dfy` shows that the announcer with its disk does what the node's own half does in the state machine, and
`composition.dfy` puts such an announcer behind every node and carries the safety result over to what its resolver serves.
Objects that the program updates in place are classes whose methods are proved equal to functions on a value; the runs and
the state machine are about those functions. Lemmas named `...Exactly` characterise such a function over all inputs without
its branches: what is accepted, what then changes, and what does not.

**What the protocol rests on.** `canonical.dfy` and `text.dfy` (the signed bytes are injective and the forms disjoint),
`announcement.dfy` and `approval.dfy`, `json.dfy` (one spelling per message), `capability.dfy` (support lists and fallback),
`draw.dfy` (unbiased draw), `aegis.dfy` (the record seam), `pem.dfy` and `locked.dfy` (the locked material), `pkcs8.dfy`,
`san.dfy` and `fingerprint.dfy`.

## Idealisations and hypotheses

- A certificate is its fingerprint and its public key, if it has a P-256 one. Two certificates may share a fingerprint;
  results that need collision-freeness take it as a hypothesis (`NoSecondPreimage`).
- A signature is the pair of key and signed bytes, and the bytes are the real canonical bytes. The AEAD and the lock are any
  inverse pairs.
- Times are unbounded integers, and everything random, every clock reading and every failing write is a parameter.
- The steps of the ring carry these rules for operators and callers (`Ring.Enabled`): a receiver is not approved anew while
  its receipt for the pending announcement is out; a receiver that already pins the announcer is registered only while it
  accepts what is served; a name that is not approved yet is dialled at the node that bears it; a new certificate differs
  from all earlier ones of all nodes; the draw after a roll succeeds. The first two are exactly what handshakes need
  (`Hypotheses.ApprovalRuleIsExact` and `RegistrationRuleIsExact`: without them some run loses one);
  `Hypotheses.MisnamedAnswerBreaks` loses one without the third; `FailedDrawLeavesGateOpen` and `FailedDrawSkipsTheGate`
  show what a failing draw does, and `StoredWindowRestores` what a repeated certificate does.
- A node of the ring restarts from a snapshot taken at that very step, with the same peers.
- Restart results for the announcer are about a disk on which `save_pending` has run since the last call, the same peers
  unless nothing is announced, the same password setup and the same first-boot anchor. The resolver is the caller's: runs
  with restarts assume that it serves the end of the stored chain, and `RestartIsStutter` says what holds when it does not.
  `CrashInRoll` says what is found when `save_pending` has not run after a roll, and at every point inside one.

## Where the code differs from what one would expect

- Saving under a password succeeds for PKCS#1 and SEC1 keys, but what was saved can never be loaded
  (`Locked.LoadAfterSave`). The announcer only saves keys it generated itself, which are PKCS#8.
- `Announcement::new` accepts certificate texts that every receiver refuses as too long
  (`JsonForms.OversizedCertificateIsRefused`).
- `sec1_private_scalar` is strict on the two fields it reads, but skips the outer length in front of them unread
  (`Pkcs8Keys.Sec1ScalarFinds`).
- In Python, the state handed to `store` during `prepare` restores to an announcer that may switch at once
  (`PyTwin.StoredByPrepareForgetsWaiting`); the state handed out by `state` does not.

## Model

| member | source | states |
|---|---|---|
| Canonical.CanonicalInjective | src/canonical.rs:169-287 | for any two successful builder calls, of the same or of different message forms, equal bytes mean equal form and equal value in every field, UTF-8 names, an absent `prev` and negative timestamps included |
| Canonical.BuiltLinesHaveNoNewline | src/canonical.rs:47-155 | whatever a builder accepts, no field carries a line break into the format; the bytes are exactly the joined lines |
| Canonical.LinesInjective | src/canonical.rs:157-287 | the five forms are told apart by their lines alone, and the lines give every field back |
| Canonical.BuiltIsSignable | src/canonical.rs:112-287 | over all fields: a builder returns bytes exactly if the fields are legal, and they are the UTF-8 form of the text written out line by line, literal prefix and literal `-` for an absent `prev` included |
| Canonical.RotateResult | src/canonical.rs:200-230 | the same for `rotate_v2`, with its one error |
| Canonical.PairSecretResult | src/canonical.rs:267-287 | the same for `pairsecret_v1` |
| Canonical.AlgSupportResult | src/canonical.rs:130-155 | the same for `algsupport_v1`, on the comma-joined selections of the token order |
| Canonical.FieldRules | src/canonical.rs:47-110 | the field rules by code point: what a fingerprint, a component name and a free name may hold, and how long they are |
| Canonical.AlgSupportV1 | src/canonical.rs:130-155 | the loop over the tokens with its remembered position computes the specified bytes or error for every string |
| Canonical.SupportListGrammar | src/canonical.rs:130-155 | over all strings, accepted are exactly the comma-joins of non-empty strictly increasing selections of the token order, from a well-named component |
| Canonical.OrderedTokensAreASelection | src/canonical.rs:136-150 | tokens that pass the adjacent comparison are one strictly increasing selection of the order |
| Text.DecimalInjective | src/canonical.rs:169-287 | two timestamps with the same decimal text are the same, because the text reads back |
| Text.DecimalReadsBack | src/canonical.rs:169-287 | for every integer the decimal text reads back as that number, digit by digit from the left, has no leading zero, and a minus sign exactly for negative numbers |
| Text.Utf8Shape | src/canonical.rs:112-114 | every character has the shortest of the four UTF-8 shapes, with lead and continuation bytes in their ranges |
| Text.Utf8Injective | src/canonical.rs:111-114 | UTF-8 text determines the string: no encoded character is a prefix of another |
| Text.SplitJoin | src/canonical.rs:111-114 | splitting joined lines gives the lines back when none contains the separator |
| Announcements.DerFromPem | src/announcement.rs:47-61 | exactly one certificate block is accepted; a malformed, second or missing block is an error |
| Announcements.HonestAnnouncementVerifies | src/announcement.rs:107-231 | what `new` signs is accepted by exactly the receivers that stand on the announcer's current certificate and hold either its previous one or none |
| Announcements.AnnounceExactly | src/announcement.rs:107-136 | `new` succeeds with exactly this: every field as given, and one signature per generation over the text written out |
| Announcements.DoubleSignedVerifiesExactly | src/announcement.rs:160-231 | over all announcements, a receiver with a previous generation accepts exactly those that the holder of both generation keys would make, with these very fields |
| Announcements.SingleSignedVerifiesExactly | src/announcement.rs:160-231 | a receiver without one accepts exactly those that the holder of the current key would make, at the first rotation or at a later one whose second signature it cannot check |
| Announcements.RefusedFor | src/announcement.rs:160-231 | which error a refused announcement gets: for its text, the chain it starts from, its fields, or a signature |
| Announcements.HonestReceiptVerifies | src/announcement.rs:595-636 | a receipt is accepted for exactly the announcement and the key it was made with |
| Announcements.AcknowledgeExactly | src/announcement.rs:595-615 | `Receipt::new` succeeds with exactly the fields given and a signature over the text written out |
| Announcements.ReceiptVerifiesExactly | src/announcement.rs:625-636 | over all receipts, accepted are exactly those that the holder of the pinned key would make, with these very fields, for the expected certificate; and the error otherwise |
| Announcements.OneSignatureOneReceipt | src/announcement.rs:625-636 | one receipt signature fixes acker, announcer, fingerprint and time, whatever was expected of it |
| Announcements.SignedFieldsAgree | src/announcement.rs:140-148 | one signed byte string fixes all five signed fields of an announcement |
| Approvals.ApprovalVerifies | src/approval.rs:69-118 | an approval holds exactly where its key identifier is registered with the key that signed it |
| Approvals.SignExactly | src/approval.rs:69-98 | `new` succeeds with exactly the fields given; the key identifier is checked and not signed |
| Approvals.ApprovalVerifiesExactly | src/approval.rs:106-118 | over all approvals, accepted are exactly those whose signature is over their own text, with the key registered for their identifier |
| Approvals.RecognitionVerifiesExactly | src/approval.rs:198-212 | over all announcements, the one verification path accepts exactly what the receiver's own two generations would have signed; without a current generation it is a broken chain |
| Approvals.VerifiedSignsItsMessage | src/approval.rs:198-212 | whatever kind verifies, its signature covers the canonical form of that kind with the fingerprint it designates |
| Approvals.OneSignatureOneRecognition | src/approval.rs:198-220 | a signature that verifies, in whatever context, never serves both as approval and as announcement, nor for two fingerprints |
| JsonForms.HexHasOneSpelling | src/signature.rs:43-48 | a hex field decodes to given bytes if and only if it is their lowercase encoding and not empty |
| JsonForms.AnnouncementHasOneSpelling | src/announcement.rs:234-292 | a JSON form reads as an announcement if and only if the announcement is well-formed, signed, within the 16 KiB certificate cap, and written exactly that way |
| JsonForms.OversizedCertificateIsRefused | src/announcement.rs:258-268 | `new` does not check the cap that `from_json` checks: the round trip holds exactly up to 16 KiB of UTF-8 |
| JsonForms.AnnouncementRefusedFor | src/announcement.rs:234-292 | a refused form has an illegal field or too long a certificate, or is no proof: wrong version, unpaired `prev` fields, or hex |
| JsonForms.WellFormedHasCanonical | src/announcement.rs:140-148 | the fields checked on reading are exactly what `canonical()` needs: it cannot fail on an accepted form |
| JsonForms.AnnouncedIsWellFormed | src/announcement.rs:107-136 | everything `new` builds passes the field checks of `from_json` |
| JsonForms.ReceiptHasOneSpelling | src/announcement.rs:639-669 | a receipt form reads as a receipt if and only if that receipt has canonical bytes, is signed, and is written that way |
| JsonForms.ReceiptRefusedFor | src/announcement.rs:639-669 | a refused receipt form has an illegal field, or is no proof: wrong version or hex |
| JsonForms.ApprovalHasOneSpelling | src/approval.rs:138-171 | the same for approvals, with the rule for the unsigned `key_id` |
| Capability.SignedAccepts | src/capability.rs:76-106 | `signed` accepts exactly the non-empty lists of known algorithms without a repeat, from a well-named component |
| Capability.SignedFields | src/capability.rs:76-106 | the statement has component and time as given, the tokens of the declared set, and the anchor's signature over the text written out |
| Capability.TokensReadBack | src/capability.rs:33-55 | over all strings, a token is read exactly as the algorithm it is written for |
| Capability.VerifyAfterSigned | src/capability.rs:76-124 | `verify` after `signed` returns the declared set in preference order, under exactly the signer's key |
| Capability.VerifyAccepts | src/capability.rs:114-124 | over all statements, accepted are exactly the token lists of one non-empty selection, one token per element, signed by the signer |
| Capability.FallbackAfterVerify | src/capability.rs:140-162 | on a verified statement the rule never fails: the requested algorithm if declared, otherwise the best declared one |
| Capability.ChooseFailsExactly | src/capability.rs:140-162 | over any list, hard failure happens exactly when neither the requested nor any known algorithm was declared; a declared request is honoured, and never is an undeclared one chosen |
| Windows.SlidingWindowRestores | src/generations.rs:141-174 | every window on a chain of distinct certificates survives being stored and restored |
| Windows.StoredWindowRestores | src/generations.rs:141-189 | `receive` does not compare the new fingerprint with those it has: what it stored can be restored exactly when the announced certificate differs from both |
| Windows.AbandonedHasNoRole | src/generations.rs:197-217 | a handshake with any certificate behind the current one, the previous one included, is refused, and two behind it a certificate holds no role at all |
| Windows.ObservedSlides | src/generations.rs:197-206 | an observation moves the window one position exactly when it is the announced successor, and otherwise changes nothing |
| Windows.AcceptsMeansCurrentOrNext | src/generations.rs:211-217 | handshakes are accepted for the current and the stored next certificate and no other |
| Windows.HandshakeExactly | src/generations.rs:531-575 | over all windows: a handshake is accepted for the current and the stored next certificate and no other, and exactly the next one moves the window |
| Windows.RestoreExactly | src/generations.rs:141-174 | restoring accepts exactly the roles with pairwise different fingerprints, and gives them back |
| Windows.ReceiveExactly | src/generations.rs:180-189 | over all windows and announcements: accepted if it names the stored next certificate, and then nothing changes, or if it verifies, and then the certificate in its text is next |
| Windows.Generations.FromApproval | src/generations.rs:100-106 | an anchored window has nothing before and nothing after its certificate |
| Windows.Generations.RestoreFrom | src/generations.rs:141-174 | the loop over the two outer roles and the last comparison accept exactly three pairwise different roles |
| Windows.Generations.ReceiveAnnouncement | src/generations.rs:180-189 | the new window and the answer are those of the specification; a refused announcement changes nothing |
| Windows.Generations.Observe | src/generations.rs:197-206 | promotion in place equals the specification |
| Windows.Trust.VerifyServer | src/generations.rs:531-575 | accepted exactly for the current or the stored next fingerprint; refused without change, or accepted and promoted under one lock |
| Continuity.NoOtherForm | src/capability.rs:76-106 | a support statement or any other form signed by a generation key never passes for an announcement |
| Continuity.HonestSignatureFixesSuccessor | src/announcement.rs:160-231 | an announcement with one honest signature, whatever message form the key signed, names the honest successor when it is for the receiver's own current certificate |
| Continuity.AcceptedIsGenuine | src/announcement.rs:160-231 | whatever an adversary without two consecutive generation keys sends, one `receive` leaves the window on the honest lineage |
| Continuity.ContinuityOverRuns | src/generations.rs:141-217 | over any sequence of messages, presented certificates and restarts, the window stays three consecutive certificates of the honest lineage, only moves forward, and restores unchanged |
| Continuity.AbandonedNeverReturns | src/generations.rs:180-217 | a certificate two positions back is refused by every later handshake and never holds a role again, in any continuation |
| Continuity.BothKeysAreNeededAndEnough | src/announcement.rs:160-231 | a certificate outside the lineage can be stored if and only if the adversary holds both generation keys the receiver checks against |
| Draw.RandomBelow | src/announcer.rs:74-90 | the loop answers v if and only if among the first 64 words one is below the limit, all before it are present and not below it, and v is its residue |
| Draw.FirstAcceptedExactly | src/announcer.rs:78-86 | over all word streams, the first accepted word decides, said without the loop |
| Draw.LimitExactly | src/announcer.rs:77-80 | the limit is the largest multiple of the bound that the word range allows |
| Draw.DrawRollTime | src/announcer.rs:63-67 | for every stream of words, the time is issued + 5 days + the number that the first accepted word decides, below 4 days, or the draw fails |
| Draw.DrawIsUnbiased | src/announcer.rs:78-86 | for each residue, the single words on which the draw returns it number exactly limit / bound, and at most half of all words are rejected |
| Draw.EverySecondIsEquallyLikely | src/announcer.rs:63-90 | every second of the window is drawn on the same number of words |
| Schedules.Schedule.constructor | src/announcer.rs:121-127 | a new schedule waits for nobody and has never rolled |
| Schedules.Schedule.AddPeer | src/announcer.rs:130-136 | a peer added while announced must ack too |
| Schedules.Schedule.RemovePeer | src/announcer.rs:143-148 | a removed peer no longer blocks |
| Schedules.Schedule.Announce | src/announcer.rs:156-163 | announcing again changes neither the waiting list nor the first announcement |
| Schedules.Schedule.Ack | src/announcer.rs:166-170 | an ack only ever removes that one peer from the waiting list |
| Schedules.Schedule.Rolled | src/announcer.rs:206-212 | roll time and next attempt are recorded; a failing draw records the roll and leaves the state announced |
| Schedules.Schedule.RolledDrawing | src/announcer.rs:206-212 | `rolled` with its own draw: not due before five days, due from nine days on, and due exactly from the drawn second; a failing draw leaves the state |
| Schedules.DueFromTheDraw | src/announcer.rs:151-212 | after a roll the next attempt is due at a time if and only if the drawn time has come |
| Schedules.MayRollExactly | src/announcer.rs:192-203 | a roll is allowed exactly when an announcement is out, nobody is waited for, and the last roll is 86400 s ago or never was |
| Schedules.WaitingAfter | src/announcer.rs:129-170 | what adding, removing, acking and announcing do to the waiting list and to the registered peers |
| Schedules.RetryExactly | src/announcer.rs:681-753 | a retry lies a minute, five minutes or an hour ahead, by how long the announcement has been out |
| Schedules.RetriesSlowDown | src/announcer.rs:681-753 | retries are at least a minute and at most an hour ahead, and the pauses never shrink |
| Schedules.AlarmExactly | src/announcer.rs:757-765 | the alarm is on exactly while somebody has been waited for since twelve hours or more |
| Schedules.AlarmStaysOn | src/announcer.rs:757-765 | no operation silences the alarm but one that empties the waiting list |
| Schedules.Schedule.RestoreAnnounced | src/announcer.rs:1747-1752 | the promise, its waiting list and its first announcement come back as given |
| Schedules.PySchedule.Announce | python/nettls.py:1526-1530 | equals the Rust operation on the state it stands for |
| Schedules.PySchedule.Ack | python/nettls.py:1532-1534 | equals the Rust operation |
| Schedules.PySchedule.AddPeer | python/nettls.py:1540-1543 | equals the Rust operation |
| Schedules.PySchedule.RemovePeer | python/nettls.py:1545-1553 | equals the Rust operation |
| Schedules.PySchedule.CanRoll | python/nettls.py:1561-1566 | answers as the Rust predicate does |
| Schedules.PySchedule.Rolled | python/nettls.py:1568-1572 | equals the Rust operation with a successful draw |
| Schedules.PySchedule.RolledDrawing | python/nettls.py:1568-1572 | with its own draw: the next attempt is due exactly from the drawn second, five to nine days on |
| Schedules.PySchedule.Alarm | python/nettls.py:1574-1580 | answers as the Rust predicate does |
| Schedules.PySchedule.NextRetry | python/nettls.py:1582-1591 | answers as the Rust function does |
| Schedules.PySchedule.RestoreAnnounced | python/nettls.py:1593-1601 | equals the Rust operation |
| Schedules.GateInvariant | src/announcer.rs:129-212 | over every operation sequence: whoever is registered and no longer waited for has acked since the announcement was published |
| Schedules.EveryRollWasAcked | src/announcer.rs:156-195 | each roll is preceded, since the publication of that same announcement, by an ack from every peer registered at that moment |
| Schedules.FailedDrawLeavesGateOpen | src/announcer.rs:206-212 | a day after a roll the gate stands open without a new ack exactly when the draw failed, and then announcing is a no-op |
| Schedules.RollsAreSpaced | src/announcer.rs:192-212 | successive rolls are at least 86400 s apart whatever clock readings are supplied, even when draws fail |
| Schedules.RotationRate | src/announcer.rs:192-212 | any interval of length L holds at most 1 + L / 86400 rolls |
| Nodes.RestartKeepsNode | examples/ringnode.rs:406-529 | `import` of what `export` wrote rebuilds the node, its rotation count included, except the time of the last roll, provided every window restores |
| Nodes.ImportedExactly | examples/ringnode.rs:450-529 | over all snapshots: `import` fails exactly on a window whose roles are not different, and otherwise takes every part as stored |
| Nodes.HandshakeDoneExactly | examples/ringnode.rs:162-171 | over all nodes: a pinned peer is accepted exactly with its current or stored next certificate, and only the next one changes anything; an unknown peer is accepted unseen |
| Nodes.AckHandledExactly | examples/ringnode.rs:111-137 | over all receipts: an ack is recorded exactly if the pinned key of the named acker signed that very receipt, for the announced certificate while one is pending |
| Nodes.OfferTakenExactly | examples/ringnode.rs:357-381 | over all announcements: what a pinned peer's window refuses changes nothing and is not answered, everything else is answered with a receipt |
| Nodes.RingNode.HandleAck | examples/ringnode.rs:111-137 | a receipt from an unknown acker, for another rotation or with another key changes nothing |
| Nodes.RingNode.Connect | examples/ringnode.rs:162-171 | a pinned connection is accepted exactly for the current or the stored next fingerprint, and promotes the window or changes nothing; an unknown peer is not pinned |
| Nodes.RingNode.Approve | examples/ringnode.rs:273-297 | the window starts again from the one certificate the neighbour showed, and its key is pinned |
| Nodes.RingNode.RequireAckFrom | examples/ringnode.rs:298-306 | the name is registered and remembered, once more if it was already |
| Nodes.RingNode.Prepare | examples/ringnode.rs:315-335 | idempotent while an announcement is pending; otherwise announcement and schedule change together |
| Nodes.RingNode.TakeOffer | examples/ringnode.rs:357-373 | the announcement is stored before the receipt exists; refused, it changes nothing |
| Nodes.RingNode.Roll | examples/ringnode.rs:382-401 | exactly two generations are kept, and nothing changes while the gate or the promise says no |
| Nodes.RingNode.RestorePeers | examples/ringnode.rs:481-494 | the loop over the peers restores all of them or fails |
| Nodes.RingNode.Import | examples/ringnode.rs:450-529 | the whole node is the snapshot's; on a window that cannot be restored, own generations and promise have been replaced and nothing else |
| Ring.KnowKeyKeeps | examples/ringnode.rs:307-314 | pinning a key keeps the invariant |
| Ring.ApproveKeeps | examples/ringnode.rs:273-297 | approval keeps the invariant under its rule |
| Ring.RequireAckKeeps | examples/ringnode.rs:298-306 | registration keeps the invariant under its rule |
| Ring.WaiveAckKeeps | src/announcer.rs:143-148 | decommissioning a peer keeps the invariant |
| Ring.PrepareKeeps | examples/ringnode.rs:315-335 | preparing a fresh certificate keeps the invariant; the lineage grows by one genuine announcement |
| Ring.IdentityKeeps | examples/ringnode.rs:98-110 | publishing keeps the invariant |
| Ring.HandshakeKeeps | examples/ringnode.rs:162-171 | a handshake keeps the invariant; a promoted window is level with what is served |
| Ring.TakeOfferKeeps | examples/ringnode.rs:357-381 | taking and answering any announcement ever published, by whomever and however old or repeated, keeps the invariant, whether or not the receiver has approved the announcer |
| Ring.UnapprovedAnswerKeeps | examples/ringnode.rs:361-381 | acknowledging for a name that is not approved stores nothing and endangers nothing |
| Ring.ForeignIsRefused | src/generations.rs:180-189 | a window refuses every announcement of any other node |
| Ring.DeliverReceiptKeeps | examples/ringnode.rs:111-137 | delivering any receipt ever sent to any node, however old, repeated or misdirected, keeps the invariant |
| Ring.AcceptedWasSent | examples/ringnode.rs:111-137 | with every key but the nodes' own, and replaying anything a node has signed in any form: a receipt is accepted only if its acker sent it, with these very fields |
| Ring.DeliverAnythingKeeps | examples/ringnode.rs:111-137 | delivering anything such an adversary can make, to any node, keeps the invariant |
| Ring.StepKeepsCredentials | examples/ringnode.rs:273-381 | after every step known keys are the real ones and every receipt on the network carries its sender's signature |
| Ring.ReceiptIsForPending | examples/ringnode.rs:123-136 | the handler never reads for whom a receipt was meant, and need not: one that covers what is pending was meant for this node |
| Ring.RollKeeps | examples/ringnode.rs:382-401 | a roll keeps the invariant: everyone registered is one behind with the successor stored |
| Ring.RestartKeeps | examples/ringnode.rs:406-529 | export and import of a reachable node always succeed and keep the invariant |
| Ring.ReachableWindowRestores | src/generations.rs:141-174 | every window any run reaches is restored to itself |
| Ring.GenuineReceive | src/generations.rs:180-189 | of all genuine announcements a window accepts only the one of its own position |
| Ring.ExtendedIsGenuine | src/announcement.rs:107-136 | a fresh certificate announced by the last two generations extends a genuine lineage |
| Ring.StepKeeps | examples/ringnode.rs:96-529 | every enabled step of every kind keeps the invariant |
| Ring.RunKeeps | examples/ringnode.rs:96-529 | every run keeps it |
| Ring.RegisteredAccepts | src/generations.rs:180-217 | in every reachable state a registered receiver is level with its announcer or exactly one behind with the served certificate as `next`, and accepts it |
| Ring.NoHandshakeBreaks | examples/ringnode.rs:96-529 | from fresh nodes, over any number of nodes and any interleaving, with messages dropped, repeated and reordered, no registered receiver ever refuses what its announcer serves |
| Ring.RegistrationIsExact | examples/ringnode.rs:298-306 | registration keeps the invariant if and only if a receiver that already pins the announcer accepts what it serves |
| Ring.ApprovalIsExact | examples/ringnode.rs:273-297 | approval keeps the invariant if and only if no receipt of the receiver for the pending announcement is out |
| Ring.ApprovalAfterAckBreaks | examples/ringnode.rs:273-297 | approving anew after the last ack and then rolling leaves a registered receiver that refuses what is served |
| Progress.LevelAfterHandshake | src/generations.rs:531-575 | one connection brings a registered receiver level with its announcer |
| Progress.IdentityIsTaken | examples/ringnode.rs:98-110 | in every reachable state what `identity` hands a level receiver is its current certificate and, exactly while one is announced, an announcement it takes and that names the successor |
| Progress.PendingIsTaken | src/generations.rs:180-189 | a level receiver takes the pending announcement, whether or not it had stored it |
| Progress.OfferIsAnswered | examples/ringnode.rs:357-381 | and its answer is a receipt for exactly that announcement |
| Progress.FetchAndAckClears | examples/ringnode.rs:336-381 | from every reachable state one `fetch_and_ack` removes exactly that receiver from the waiting list |
| Progress.EveryoneAcks | examples/ringnode.rs:336-381 | one each, in any order, removes exactly those names |
| Progress.RotationCanFinish | src/announcer.rs:178-203 | after one `fetch_and_ack` per waiting receiver, in any order, the roll depends on the rate limit alone |
| Bootstrap.MutualApprovalAnswers | examples/ringnode.rs:273-297 | after two nodes have approved each other, each can answer the other's announcements |
| Bootstrap.Join | examples/ringnode.rs:273-314 | approval by the receiver, then its key and its registration at the announcer: all three are allowed, and nothing that held for the others is undone |
| Bootstrap.FirstRotation | examples/ringnode.rs:96-529 | from fresh nodes, for any announcer and any receivers, there is an allowed run that ends with the new certificate served, one rotation counted, the next due from the drawn time, and every receiver accepting what is served |
| Disks.LoadedAfterSaved | src/announcer.rs:245-304 | what was saved completely is what is loaded, locked or in clear |
| Disks.SavedUpToTheFirstFault | src/announcer.rs:245-280 | for every set of failing writes: the writes before the first failing one are done and no other, and the answer says whether that was all |
| Disks.LoadedExactly | src/announcer.rs:283-304 | over all directories: loaded is exactly what lies there whole for this password and holds together; and the error otherwise |
| Disks.PreviousLoadedExactly | src/announcer.rs:376-440 | over all disks: a previous generation is found exactly where this password setup stores it, and none exactly if none is stored for any |
| Disks.PreviousSavedIsLoaded | src/announcer.rs:349-400 | one file is replaced, every other one stays, and what was saved is loaded |
| Announcers.PrepareKeepsSound | src/announcer.rs:1212-1259 | whichever write fails, the material is on disk before the promise exists, chain and service are untouched, and a pending promise is returned unchanged |
| Announcers.PrepareExactly | src/announcer.rs:1212-1259 | over all states and failing writes: either only `new/` has changed, or the promise stands for the certificate that lies there whole; the answer says which, and why |
| Announcers.RollKeepsSound | src/announcer.rs:1294-1367 | a roll switches chain and served certificate together or neither, answers that nothing happened exactly when a gate is closed, and the promise stays in step with the schedule exactly when the draw succeeded |
| Announcers.RollExactly | src/announcer.rs:1294-1367 | over all states and failing writes: the effects of a roll happen in order, and it stops at the first that fails; the answer says where |
| Announcers.RestartIsStutter | src/announcer.rs:1149-1174 | `new` on an up-to-date disk gives back chain, promise, waiting list and first announcement exactly; chain and service agree if and only if the given resolver serves the end of the chain |
| Announcers.CallKeepsQuiescent | src/announcer.rs:1212-1367 | a call with a working disk followed by `save_pending` leaves the disk up to date |
| Announcers.RestartAnywhere | src/announcer.rs:1149-1752 | after any sequence of calls and restarts from first boot, starting again rebuilds chain, promise and waiting list, and serves the chain if and only if the given resolver does |
| Announcers.FirstBootIsQuiescent | src/announcer.rs:1149-1174 | an empty disk with the anchor in memory is up to date |
| Announcers.StartFailsClosed | src/announcer.rs:406-475 | over all disks, however they were left: a start succeeds exactly if everything that is there can be read, with the stored chain and promise or, where nothing is stored, the anchor and none; otherwise the first unreadable thing is the error |
| Announcers.SetupCannotChange | src/announcer.rs:406-440 | after any run under one password setup, failing writes and restarts included, a start under another fails unless neither a previous generation nor a promise is stored |
| Announcers.SavePendingExactly | src/announcer.rs:1664-1689 | one file is replaced or removed and nothing else; only a promise that could not be written is an error |
| Announcers.CrashInPrepare | src/announcer.rs:1212-1259 | dying anywhere in `prepare` rebuilds the state before the call |
| Announcers.CrashInRoll | src/announcer.rs:1294-1367 | for every point between two writes of a roll, and after it before `save_pending`, exactly what the next start finds: the chain from before if and only if nothing was written or no previous generation is stored, the rolled chain if and only if both generations are in place and `new/` still is, otherwise an error or a chain that skips the served certificate |
| Announcers.StalePendingFileIsSafe | src/announcer.rs:1664-1738 | a pending file older than some acks restores a superset of the waiting list, by exactly the acks it missed: the gate is never weakened |
| Announcers.PromiseInvariant | src/announcer.rs:1212-1367 | over every run with failing writes and restarts: pending exists exactly when the schedule is announced, `new/` holds the promised certificate and key, and whoever is not waited for has acked since the `prepare` of that promise |
| Announcers.EverySwitchWasAcked | src/announcer.rs:1294-1367 | over every run with failing writes and restarts: a call that changes the chain installs and serves the promised certificate and key, and was preceded by an ack from every registered peer since that promise |
| Announcers.SwitchInstallsPromise | src/announcer.rs:1294-1367 | whatever is loaded from disk, the only change of chain a call can make is to the promised certificate and key |
| Announcers.FailedDrawSkipsTheGate | src/announcer.rs:206-212 | after a roll the next `prepare` waits for every registered peer exactly when the draw had succeeded |
| Announcers.RotatingResolver.Swap | src/resolver.rs:87-98 | material that does not hold together never replaces a working certificate |
| Announcers.Announcer.Start | src/announcer.rs:1149-1174 | either an announcer restored as specified or the first error; never a silently wrong one |
| Announcers.Announcer.RestoreMaterial | src/announcer.rs:406-475 | the stored chain overrides the anchor, and a state no roll can leave is refused |
| Announcers.Announcer.RestorePending | src/announcer.rs:1700-1738 | the promise comes back with its key, or the start fails |
| Announcers.Announcer.Save | src/announcer.rs:245-280 | the files are replaced one by one, and the first failure ends it |
| Announcers.Announcer.Prepare | src/announcer.rs:1212-1259 | new state and answer as specified, the material first |
| Announcers.Announcer.Ack | src/announcer.rs:1262-1268 | only the waiting list changes |
| Announcers.Announcer.RollIfReady | src/announcer.rs:1294-1367 | gates first, then disk, service, chain, schedule, in that order, for every set of failing writes |
| Announcers.Announcer.SavePending | src/announcer.rs:1664-1689 | the pending file mirrors the promise, or is gone |
| Refinement.PrepareRefines | src/announcer.rs:1212-1259 | `prepare` announces what the ring node would, or, whichever write fails, leaves no trace the protocol can see |
| Refinement.RollRefines | src/announcer.rs:1294-1367 | a roll on any disk that can write the previous key is the node's roll, or leaves no trace |
| Refinement.CallRefines | src/announcer.rs:1212-1367 | every call on a working disk is the node's step |
| Refinement.RunRefines | src/announcer.rs:1149-1752 | over any sequence of calls and restarts the disk-backed announcer has the node's generations, promise and schedule |
| Refinement.RestartIsImport | examples/ringnode.rs:406-529 | the node's restart in that comparison is `import` after `export` |
| Hypotheses.ApprovalRuleIsExact | examples/ringnode.rs:273-297 | after a new approval some continuation under all the rules makes the registered receiver refuse if and only if its receipt for the pending announcement was out |
| Hypotheses.RegistrationRuleIsExact | examples/ringnode.rs:298-306 | after a registration some continuation makes the receiver refuse if and only if it refuses at once |
| Hypotheses.MisnamedAnswerBreaks | examples/ringnode.rs:361-381 | a receipt sent for an unapproved name to another node can cost that node a handshake under all the other rules |
| Composition.OwnEventAgrees | src/announcer.rs:1149-1752 | each call, receipt, roll, restart and change of peers of a disk-backed announcer is the corresponding step of its node |
| Composition.EventKeepsCoupling | src/announcer.rs:1149-1752 | every event, of any announcer or of the network, keeps all announcers where their nodes stand, with up-to-date disks |
| Composition.ServedIsAccepted | src/announcer.rs:1149-1752 | with a disk-backed announcer behind every node, over any interleaving of calls, restarts and network events, every registered receiver accepts what the announcer's resolver serves |
| PyTwin.RestoreIsStutter | python/nettls.py:1721-1765 | after any calls, failing consumers and restarts among them, `restore` of what `state` hands out gives back chain, promise, waiting list and first announcement |
| PyTwin.StoredByPrepareForgetsWaiting | python/nettls.py:1682-1717 | what `prepare` hands the consumer has an empty waiting list: restored, the gate stands open at once, and it agrees with the announcer exactly when nobody has to ack |
| PyTwin.RestoredExactly | python/nettls.py:1731-1765 | over all memories, `restore` takes everything as stored; without a promise the next attempt is due at once |
| PyTwin.PrepareRefines | python/nettls.py:1641-1688 | with a consumer that stores it is the ring node's `prepare`, with the pending rotation handed over; with one that fails, nothing but the attempt |
| PyTwin.RollRefines | python/nettls.py:1770-1786 | with a call site that puts the certificate into use it is the ring node's `roll`; otherwise nothing |
| PyTwin.RunRefines | python/nettls.py:1641-1786 | after any calls, failing consumers, failing call sites and restarts among them, the Python announcer has the ring node's generations, promise and schedule |
| PyTwin.PyAnnouncer.State | python/nettls.py:1721-1728 | what the consumer stores restores to the whole announcer but the times of the last roll and the next attempt |
| PyTwin.PyAnnouncer.Restore | python/nettls.py:1731-1765 | the rebuilt announcer is the specified one |
| PyTwin.PyAnnouncer.Prepare | python/nettls.py:1641-1688 | nothing changes unless the consumer stored it first |
| PyTwin.PyAnnouncer.RollIfReady | python/nettls.py:1770-1786 | nothing changes unless the certificate was put into use first |
| PyTwin.PyGenerations.constructor | python/nettls.py:901-904 | a new window is anchored |
| PyTwin.PyGenerations.Restore | python/nettls.py:906-949 | accepts exactly the three pairwise different roles the Rust function accepts |
| PyTwin.PyGenerations.Receive | python/nettls.py:951-962 | the Rust window and answer for every announcement; a refused one changes nothing |
| PyTwin.PyGenerations.Observed | python/nettls.py:964-973 | promotes exactly when the Rust window does, to the same window |
| PyTwin.PyGenerations.AcceptedInHandshake | python/nettls.py:975-979 | accepts exactly the fingerprints the Rust window accepts |
| Aegis.Nonce32 | src/aegis.rs:102-107 | the array holds the 12-byte nonce followed by zeros |
| Aegis.NoncesAreUnique | src/aegis.rs:102-107 | under one IV, equal 32-byte nonces mean equal sequence numbers |
| Aegis.NonceLayout | src/aegis.rs:102-107 | where every byte of the nonce stands: the IV, its last eight bytes combined with the sequence number, then twenty zeros |
| Aegis.SequenceReadsBack | src/aegis.rs:102-107 | the eight bytes, most significant first, are the sequence number |
| Aegis.RecordRoundTrip | src/aegis.rs:163-213 | at the same key, IV and sequence number a record opens to its content and type if and only if the type is nonzero and the content at most 2^14 bytes, whatever bytes it ends in |
| Aegis.PaddedRecordOpens | src/aegis.rs:194-213 | content, type and any number of zeros open to content and type, up to the size of a fragment |
| Aegis.InnerPlaintextExactly | src/aegis.rs:194-213 | over all decrypted records: content and type, whatever the padding; refused are exactly those too long or all zeros |
| Aegis.SealedIsOpened | src/aegis.rs:194-213 | whatever a peer has sealed over the length of its record is judged by what was under the seal |
| Aegis.AadNamesTheLength | src/aegis.rs:163-213 | the associated data are type 23, version 3.3 and the record length, most significant byte first |
| Aegis.RefusedRecord | src/aegis.rs:194-213 | a record without room for a tag, or that the cipher does not open, is refused as such |
| Aegis.Encrypter.Encrypt | src/aegis.rs:163-191 | the in-place steps produce the specified record, of the declared length |
| Aegis.Decrypter.DecryptRecord | src/aegis.rs:194-213 | the in-place steps yield the specified content and type, or its error |
| PemText.Base64RoundTrip | src/pem.rs:28-45 | strict decoding undoes the encoding for every byte string |
| PemText.Base64HasOneSpelling | src/pem.rs:28-45 | over all strings, a text is read as given bytes if and only if it is their encoding |
| PemText.GroupValue | src/pem.rs:28-45 | four characters are the digits to base 64 of the number with the three bytes as digits to base 256 |
| PemText.SextetAlphabet | src/pem.rs:28-45 | the base64 alphabet as three runs of consecutive characters and two single ones |
| PemText.Base64Length | src/pem.rs:28-45 | four characters for every three bytes begun, and padding at the end exactly for the bytes missing |
| PemText.WrappedLines | src/pem.rs:35-38 | the lines concatenate to the text again; all but the last have exactly 64 characters, and none is empty or longer |
| PemText.Encode | src/pem.rs:28-45 | header, chunks and footer in one buffer are exactly the lines of one block, written out |
| PemText.BlockIsRead | src/pem.rs:28-45 | a reader recovers tag and bytes of a block, whatever follows it |
| PemText.BeginTagExactly | src/pem.rs:28-34 | over all strings, a line opens a block of a tag if and only if it is the header written for that tag |
| PemText.BrokenOff | src/pem.rs:28-45 | a block whose footer is missing is refused |
| Locked.Save | src/announcer.rs:245-280 | the loop over the chain and the concatenation yield the specified blob |
| Locked.NoOccurrenceInLines | src/announcer.rs:295-299 | the marker never straddles two lines |
| Locked.MarkerIsWhereTheKeyStarts | src/announcer.rs:283-304 | the first marker in the blob is the first character of the key file for every chain and PKCS#8 key, and with another key label there is none |
| Locked.LoadAfterSave | src/announcer.rs:245-304 | `load` after `save` gives chain and key back if and only if the key is PKCS#8 and the chain not empty; otherwise it is an error |
| Locked.FilesAreRead | src/material.rs:352-372 | the two files of a save in the clear read back as what was saved, for every kind of key and non-empty chain |
| Locked.KeyIsTheFirst | src/material.rs:352-372 | the key is the first block with one of the three key labels; blocks of any other kind are passed over |
| Locked.CertificatesAre | src/material.rs:352-372 | the chain holds exactly the certificates of the file |
| Locked.FilesWrittenOut | src/material.rs:552-576 | every file block by block, with the label of the key kind written out |
| Pkcs8Keys.ReadDer | src/pkcs8.rs:104-144 | a strict DER reader undoes the DER encoding, whatever follows |
| Pkcs8Keys.ReadTlvExactly | src/pkcs8.rs:104-144 | the strict reader reads exactly what has that DER encoding in front |
| Pkcs8Keys.EcSequence | src/pkcs8.rs:107-120 | the hand-written inner lengths are the DER lengths |
| Pkcs8Keys.Pkcs8FromParts | src/pkcs8.rs:104-144 | the pushed bytes are the DER encoding, with the outer length in long form and 138 bytes in all |
| Pkcs8Keys.Pkcs8IsRead | src/pkcs8.rs:104-144 | a strict reader consumes the built key exactly and recovers scalar and point |
| Pkcs8Keys.Pkcs8HasOneSpelling | src/pkcs8.rs:104-144 | over all byte strings, a P-256 key is read only from its one encoding |
| Pkcs8Keys.Pkcs8WrittenOut | src/pkcs8.rs:104-144 | the whole key byte by byte around scalar and point |
| Pkcs8Keys.Sec1PrivateScalar | src/pkcs8.rs:61-98 | the moving cursor finds what the specification finds |
| Pkcs8Keys.Sec1ScalarFinds | src/pkcs8.rs:61-98 | a scalar is found in exactly the forms with a well-shaped length field of one to five bytes; the length it claims is not looked at |
| Pkcs8Keys.Sec1RecoversScalar | src/pkcs8.rs:61-98 | every DER encoding of a P-256 ECPrivateKey, with any optional fields, gives its scalar |
| Pkcs8Keys.Pkcs8P256 | src/pkcs8.rs:27-47 | PKCS#8 passes through; SEC1 becomes a key that reads back as the same scalar and the certificate's point; anything else is refused |
| San.ValidatorDecidesGrammar | src/material.rs:717-783 | over all strings: addresses pass, and everything else passes if and only if it is a dot-join of legal labels with the optional trailing dot and leading wildcard, within the length bounds |
| San.ValidatorsAgree | python/nettls.py:1157-1200 | the Python validator decides the same grammar, so both accept the same strings that are not addresses |
| San.LabelAlphabet | src/material.rs:770-781 | the label characters by code point: digits, letters of either case and the hyphen |
| San.CheckLabelsDecides | src/material.rs:742-781 | the label loop accepts exactly legal labels, its byte lengths notwithstanding |
| San.PyCheckLabelsDecides | python/nettls.py:1170-1200 | so does the Python loop, which counts characters |
| San.DottedIsSplit | src/material.rs:733-742 | stripping one dot and splitting undoes every way of writing labels down |
| Fingerprints.ParseFingerprint | src/fingerprint.rs:31-64 | the loop over the characters and the filled array compute the specified result |
| Fingerprints.AcceptedIsDecorated | src/fingerprint.rs:31-64 | an accepted text is decoration around 64 hex digits, and they are the digits of the result |
| Fingerprints.DecoratedIsAccepted | src/fingerprint.rs:31-64 | any case, separators, surrounding space and allowed prefix parse back to the value |
| Fingerprints.ParsesExactlyItsSpellings | src/fingerprint.rs:31-64 | over all strings, a text reads as a 32-byte value if and only if it is one of its decorated spellings |
| Fingerprints.SpacesAre | src/fingerprint.rs:31-33 | the 25 characters that are trimmed, written out |

## Left out

- rustls, rcgen, x509-parser and krypto internals: foreign code, idealised as said above.
- Sockets, threads, locks, JSON text, ALPN, configuration building: plumbing. A request and its answer, or a handshake, is
  one atomic step, and the certificate a handshake presents is the one the server holds at that step.
- Running out of 64-bit time: `issued + 7 days` and the like are computed on unbounded integers.
- File permissions, locked memory and zeroizing: no functional meaning. A file write either happens or does not.
- The `.tmp-material` staging directory of a locked save: it is removed before the call ends and never read by `load`.
- Which bytes the random generator produces: a stream of words is a parameter, and a failing call is part of it.
- Continuing after `save_previous` fails during a roll, and what happens after the first restart that follows a crash in one.
- Removing `new/` file by file: a directory is removed in one step.
- Changing the peers of an announcer while an announcement is out: its schedule is private and a restart restores the
  waiting list without consulting the peers. In `ring.dfy`, as in the ring node, peers come and go at any time.
- Failing writes in `composition.dfy`: there every disk works; `refinement.dfy` shows that failing calls leave no trace.
- Agreement of Rust and Python on component names (the Python expression also admits a final line break) and on an empty
  `sig_prev`: the two differ there, and the Rust rules are the ones modelled.
- The Python canonical builders and message classes: the same branches as their Rust counterparts.
- `archive`, `read_archive`, `IdentityJson`, `status.rs`, modes, clock drift, fall-back to mode 1, envelope and lockbox
  framing, lifetimes and message texts: one-branch facts that would only add easy members.
- Locked.LoadAfterSave: does not model the check that the key belongs to the certificate, which is rustls code; material
  that passed it once is unchanged by saving and loading.
- San.ValidatorDecidesGrammar: does not model which strings are IP addresses; the answer of the standard library is given.
- Schedules.RotationRate: does not span restarts, because the time of the last roll is not stored.
- Ring.NoHandshakeBreaks: does not model a switch in the middle of a handshake, which is one step here.
