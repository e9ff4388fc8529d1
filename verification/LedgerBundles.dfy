/** Over every run: the public bundle lists exactly what was asked for under its subject, and its checkpoints are
    the last ones submitted. */
module LedgerBundles {
  import opened Hashing
  import opened Texts
  import opened LedgerModel
  import opened LedgerInvariant
  import opened LedgerRuns
  import opened LedgerRequests
  import LedgerAnswers

  // ---------- records of a subject ----------

  lemma RegisteredStays(env: Env, ops: seq<Op>, i: nat, id: Text)
    requires PossibleRun(env, ops) && Registers(env, ops, i, id)
    ensures id in After(env, ops).evById
  {
    hide Step, Inv, ContentKey, Possible, Evolves, LedgerAnswers.EvidenceFromRequest;
    RunEvolvesBetween(env, ops, i, i + 1);
    RunEvolvesBetween(env, ops, i + 1, |ops|);
    assert ops[..|ops|] == ops && ops[..i + 1][..i] == ops[..i];
    LedgerAnswers.RegisteringAnswers(env, After(env, ops[..i]), ops[i]);
    EvidenceKept(env, After(env, ops[..i + 1]), After(env, ops), id);
  }

  lemma EvidenceKept(env: Env, s: State, t: State, id: Text)
    requires Evolves(env, s, t) && id in s.evById
    ensures id in t.evById
  {
    hide TreesGrow;
  }

  /** An id is used for one registration only. */
  lemma RegisteredOnlyOnce(env: Env, ops: seq<Op>, i: nat, j: nat, id: Text)
    requires PossibleRun(env, ops) && Registers(env, ops, i, id) && Registers(env, ops, j, id)
    ensures i == j
  {
    hide Step, Inv, Evolves;
    if i < j {
      RegisteredBefore(env, ops, i, j, id);
    } else if j < i {
      RegisteredBefore(env, ops, j, i, id);
    }
  }

  lemma RegisteredBefore(env: Env, ops: seq<Op>, i: nat, j: nat, id: Text)
    requires PossibleRun(env, ops) && i < j < |ops| && Registers(env, ops, i, id)
    ensures !Registers(env, ops, j, id)
  {
    hide Step, Inv, Evolves;
    assert ops[..j][..i] == ops[..i];
    PossiblePrefix(env, ops, j);
    RegisteredStays(env, ops[..j], i, id);
    assert Possible(After(env, ops[..j]), ops[j]);
  }

  /** The request named the subject, as subject or as passport. */
  predicate Names(op: Op, subject: Text) {
    match op
    case DoAnchorAttestation(req, _, _, _, _) => req.subject == subject || req.passport == Some(subject)
    case DoRegisterEvidence(ev, _, _, _, _) => ev.subject == Some(subject) || ev.passport == Some(subject)
    case _ => false
  }

  /** An id matches a subject exactly if it was stored for a request that named the subject. */
  lemma AttestationsOfSubject(env: Env, ops: seq<Op>, subject: Text, id: Text)
    requires PossibleRun(env, ops)
    ensures id in After(env, ops).attById && AttestationMatches(After(env, ops).attById[id], subject)
       <==> exists i :: Stores(env, ops, i, id) && Names(ops[i], subject)
  {
    hide Step, Inv, After, ReplyAt, PossibleRun;
    if id in After(env, ops).attById {
      var i := AttestationComesFromRequest(env, ops, id);
    }
    forall i | Stores(env, ops, i, id)
      ensures id in After(env, ops).attById
      ensures Names(ops[i], subject) <==> AttestationMatches(After(env, ops).attById[id], subject)
    {
      StoredRequestStays(env, ops, i, id);
    }
  }

  lemma EvidenceOfSubject(env: Env, ops: seq<Op>, subject: Text, id: Text)
    requires PossibleRun(env, ops)
    ensures id in After(env, ops).evById && EvidenceMatches(After(env, ops).evById[id], subject)
       <==> !EverDeletes(env, ops, id) && exists i :: Registers(env, ops, i, id) && Names(ops[i], subject)
  {
    hide Step, Inv, After, ReplyAt, PossibleRun, EverDeletes;
    if id in After(env, ops).evById {
      var r := EvidenceComesFromRequest(env, ops, id);
      DeletedExactlyIfAsked(env, ops, id);
      forall i | Registers(env, ops, i, id)
        ensures i == r
      {
        RegisteredOnlyOnce(env, ops, i, r, id);
      }
    } else {
      forall i | Registers(env, ops, i, id)
        ensures false
      {
        RegisteredStays(env, ops, i, id);
      }
    }
  }

  ghost predicate StoredFor(env: Env, ops: seq<Op>, id: Text, subject: Text) {
    exists i :: Stores(env, ops, i, id) && Names(ops[i], subject)
  }

  ghost predicate RegisteredFor(env: Env, ops: seq<Op>, id: Text, subject: Text) {
    exists i :: Registers(env, ops, i, id) && Names(ops[i], subject)
  }

  /** An answered bundle has exactly one entry for each attestation that was stored for a request naming the
      subject, and for each evidence record that was and was not deleted, and no others. */
  lemma BundleIsWhatWasAsked(env: Env, ops: seq<Op>, j: nat)
    requires PossibleRun(env, ops) && j < |ops| && ops[j].DoVerifyBundle? && ReplyAt(env, ops, j).BundleReply?
    ensures var r, front, subject := ReplyAt(env, ops, j), ops[..j], ops[j].subject;
            && (forall id :: (exists k :: 0 <= k < |r.attestations| && r.attestations[k].registryId == id)
                             <==> StoredFor(env, front, id, subject))
            && (forall id :: (exists k :: 0 <= k < |r.evidence| && r.evidence[k].evidenceId == id)
                             <==> RegisteredFor(env, front, id, subject) && !EverDeletes(env, front, id))
            && (forall k, l | 0 <= k < l < |r.attestations| ::
                  r.attestations[k].registryId != r.attestations[l].registryId)
            && (forall k, l | 0 <= k < l < |r.evidence| :: r.evidence[k].evidenceId != r.evidence[l].evidenceId)
  {
    hide Step, Inv, VerifyBundle, StoredFor, RegisteredFor, EverDeletes, AttestationMatches, EvidenceMatches, After;
    var front, op := ops[..j], ops[j];
    var s, r := After(env, front), ReplyAt(env, ops, j);
    RunEvolvesBetween(env, ops, j, j);
    PossiblePrefix(env, ops, j);
    BundleIds(env, s, op);
    forall id
      ensures id in op.atts <==> StoredFor(env, front, id, op.subject)
      ensures id in op.evs <==> RegisteredFor(env, front, id, op.subject) && !EverDeletes(env, front, id)
    {
      ListedForSubject(env, front, op, id);
    }
  }

  lemma ListedForSubject(env: Env, front: seq<Op>, op: Op, id: Text)
    requires PossibleRun(env, front) && op.DoVerifyBundle? && Possible(After(env, front), op)
    ensures id in op.atts <==> StoredFor(env, front, id, op.subject)
    ensures id in op.evs <==> RegisteredFor(env, front, id, op.subject) && !EverDeletes(env, front, id)
  {
    hide After, PossibleRun, Stores, Registers, EverDeletes, AttestationMatches, EvidenceMatches;
    AttestationsOfSubject(env, front, op.subject, id);
    EvidenceOfSubject(env, front, op.subject, id);
  }

  lemma BundleIds(env: Env, s: State, op: Op)
    requires Inv(env, s) && Possible(s, op) && op.DoVerifyBundle? && Step(env, s, op).reply.BundleReply?
    ensures var r := Step(env, s, op).reply;
            && |r.attestations| == |op.atts| && |r.evidence| == |op.evs|
            && (forall k | 0 <= k < |op.atts| :: r.attestations[k].registryId == op.atts[k])
            && (forall k | 0 <= k < |op.evs| :: r.evidence[k].evidenceId == op.evs[k])
            && NoRepeats(op.atts) && NoRepeats(op.evs)
            && forall k | 0 <= k < |op.atts| :: r.attestations[k].sth.logId == s.attById[op.atts[k]].logId
  {
    hide Inv, Tree, VerifyBundle, Deletable, LatestCheckpoints, BundleLogs, InclusionFor;
    BundleIs(env, s, op.subject, op.atts, op.evs, op.now, op.answers);
    forall k | 0 <= k < |op.atts|
      ensures s.attById[op.atts[k]].registryId == op.atts[k]
    {
      RecordIds(env, s, op.atts[k]);
    }
    forall k | 0 <= k < |op.evs|
      ensures s.evById[op.evs[k]].evidenceId == op.evs[k]
    {
      RecordIds(env, s, op.evs[k]);
    }
  }

  // ---------- checkpoints ----------

  ghost predicate SubmitsHead(env: Env, ops: seq<Op>, i: int, l: Text) {
    && 0 <= i < |ops| && ops[i].DoSubmitCheckpoint? && ops[i].head.logId == l
    && ReplyAt(env, ops, i).CheckpointReply?
  }

  /** The answered submissions for a log, in order. */
  ghost function Submissions(env: Env, ops: seq<Op>, l: Text): (r: seq<nat>)
    ensures forall k | 0 <= k < |r| :: r[k] < |ops| && ops[r[k]].DoSubmitCheckpoint? && ops[r[k]].head.logId == l
  {
    if ops == [] then []
    else
      var last := |ops| - 1;
      Submissions(env, ops[..last], l) + if SubmitsHead(env, ops, last, l) then [last] else []
  }

  lemma {:induction false} SubmissionsAre(env: Env, ops: seq<Op>, l: Text, i: int)
    ensures i in Submissions(env, ops, l) <==> SubmitsHead(env, ops, i, l)
  {
    hide Step, After;
    if ops != [] {
      var front := ops[..|ops| - 1];
      SubmissionsAre(env, front, l, i);
      if 0 <= i < |front| {
        assert front[..i] == ops[..i];
      }
    }
  }

  function CheckpointOf(op: Op): Checkpoint
    requires op.DoSubmitCheckpoint?
  {
    Checkpoint(op.checkpointId, op.head)
  }

  /** The checkpoints stored for a log are the answered submissions for it, one by one. */
  lemma {:induction false} CheckpointsAreSubmissions(env: Env, ops: seq<Op>, l: Text)
    ensures var stored, asked := CheckpointsOf(After(env, ops), l), Submissions(env, ops, l);
            |stored| == |asked| && forall k | 0 <= k < |asked| :: stored[k] == CheckpointOf(ops[asked[k]])
  {
    hide Step;
    if ops != [] {
      var front, op := ops[..|ops| - 1], ops[|ops| - 1];
      CheckpointsAreSubmissions(env, front, l);
      OnlyCheckpointsAddCheckpoints(env, After(env, front), op);
      SubmissionAnswered(env, After(env, front), op);
    }
  }

  lemma SubmissionAnswered(env: Env, s: State, op: Op)
    ensures op.DoSubmitCheckpoint? ==> (Step(env, s, op).reply.CheckpointReply? <==> op.anchorUp)
  {
  }

  lemma {:induction false} LogsOfEntries(entries: seq<BundleEntry>)
    ensures forall l :: l in BundleLogs(entries) <==> exists k :: 0 <= k < |entries| && entries[k].sth.logId == l
    ensures NoRepeats(BundleLogs(entries))
  {
    if entries != [] {
      var n := |entries| - 1;
      LogsOfEntries(entries[..n]);
      assert forall k | 0 <= k < n :: entries[..n][k] == entries[k];
      assert entries[n].sth.logId in BundleLogs(entries);
    }
  }

  lemma {:induction false} LatestOfLogs(s: State, logs: seq<Text>)
    ensures forall c :: c in LatestCheckpoints(s, logs)
                   <==> exists k :: 0 <= k < |logs| && CheckpointsOf(s, logs[k]) != []
                                    && c == CheckpointsOf(s, logs[k])[|CheckpointsOf(s, logs[k])| - 1].head
    ensures |LatestCheckpoints(s, logs)| <= |logs|
  {
    hide CheckpointsOf;
    if logs != [] {
      var n := |logs| - 1;
      LatestOfLogs(s, logs[..n]);
      assert forall k | 0 <= k < n :: logs[..n][k] == logs[k];
    }
  }

  /** The head is that of the last answered submission for log l. */
  ghost predicate LastSubmitted(env: Env, ops: seq<Op>, l: Text, head: Sth) {
    var asked := Submissions(env, ops, l);
    asked != [] && head == ops[asked[|asked| - 1]].head
  }

  /** An answered bundle shows, of each log that one of its attestations is in, the last checkpoint that was
      submitted for it and answered, and no other heads as checkpoints. */
  lemma BundleCheckpointsAreLast(env: Env, ops: seq<Op>, j: nat)
    requires PossibleRun(env, ops) && j < |ops| && ops[j].DoVerifyBundle? && ReplyAt(env, ops, j).BundleReply?
    ensures var r := ReplyAt(env, ops, j);
            forall c :: c in r.checkpoints
                   <==> exists k :: 0 <= k < |r.attestations|
                                    && LastSubmitted(env, ops[..j], r.attestations[k].sth.logId, c)
  {
    hide Step, Inv, VerifyBundle, LastSubmitted, After, BundleLogs, LatestCheckpoints;
    var front, op := ops[..j], ops[j];
    var s, r := After(env, front), ReplyAt(env, ops, j);
    RunEvolvesBetween(env, ops, j, j);
    var logs := BundleLogs(r.attestations);
    BundleShowsLatest(env, s, op);
    LatestOfLogs(s, logs);
    LogsOfEntries(r.attestations);
    forall c, l
      ensures LastSubmitted(env, front, l, c)
         <==> CheckpointsOf(s, l) != [] && c == CheckpointsOf(s, l)[|CheckpointsOf(s, l)| - 1].head
    {
      LastIsLast(env, front, l, c);
    }
    forall c
      ensures c in r.checkpoints
         <==> exists k :: 0 <= k < |r.attestations| && LastSubmitted(env, front, r.attestations[k].sth.logId, c)
    {
      if k :| 0 <= k < |logs| && LastSubmitted(env, front, logs[k], c) {
        assert logs[k] in logs;
      }
      if k :| 0 <= k < |r.attestations| && LastSubmitted(env, front, r.attestations[k].sth.logId, c) {
        assert r.attestations[k].sth.logId in logs;
      }
    }
  }

  lemma LastIsLast(env: Env, ops: seq<Op>, l: Text, c: Sth)
    ensures LastSubmitted(env, ops, l, c)
       <==> CheckpointsOf(After(env, ops), l) != []
            && c == CheckpointsOf(After(env, ops), l)[|CheckpointsOf(After(env, ops), l)| - 1].head
  {
    hide After, Submissions;
    CheckpointsAreSubmissions(env, ops, l);
  }

  lemma BundleShowsLatest(env: Env, s: State, op: Op)
    requires Inv(env, s) && Possible(s, op) && op.DoVerifyBundle? && Step(env, s, op).reply.BundleReply?
    ensures var r := Step(env, s, op).reply; r.checkpoints == LatestCheckpoints(s, BundleLogs(r.attestations))
  {
    hide Inv, VerifyBundle, BundleEntries, EvidenceEntries, LatestCheckpoints, BundleLogs;
    BundleIs(env, s, op.subject, op.atts, op.evs, op.now, op.answers);
  }
}
