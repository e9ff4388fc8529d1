/** Over every run: each log is exactly the leaves of the requests that were let through, in order, and what was
    handed to the anchor service follows from the answer. */
module LedgerLeaves {
  import opened Hashing
  import opened Texts
  import opened MerkleTree
  import opened LedgerModel
  import opened LedgerInvariant
  import opened LedgerRuns
  import opened LedgerAnswers
  import LedgerRequests

  /** A leaf and the log it goes to. */
  datatype Leaf = Leaf(logId: Text, bytes: Bytes)

  /** The leaf a request writes, told from the request and the records alone: one for a new content hash, for a change
      of status that passes the checks and for a delete that is refused, and none for anything else. */
  ghost function Written(env: Env, s: State, op: Op): Option<Leaf> {
    match op
    case DoAnchorAttestation(req, tenant, id, _, _) =>
      if ContentKey(tenant, req.contentHash) in s.attByContent then None
      else Some(Leaf(TenantLogId(tenant),
                     LeafOf([Ascii("att"), id, Lower(req.contentHash), req.subject, req.issuer, req.recordType])))
    case DoSetStatus(id, action, next, tenant, since, _) =>
      if id !in s.attById || s.attById[id].tenant != tenant || s.attById[id].status == Revoked then None
      else Some(Leaf(s.attById[id].logId,
                     LeafOf([Ascii("status"), id, Ascii(if action == Revoke then "revoked" else "superseded"), since,
                             tenant, if next == None then [] else next.value])))
    case DoRegisterEvidence(ev, tenant, id, _, _) =>
      if ContentKey(tenant, ev.contentHash) in s.evByContent then None
      else Some(Leaf(TenantLogId(tenant),
                     LeafOf([Ascii("evidence"), id, Lower(ev.contentHash), ev.until, ev.basis,
                             Ascii(if ev.legalHold == Some(true) then "true" else "false")])))
    case DoDeleteEvidence(id, tenant, now, at, _) =>
      if !Stored(s, id) || s.evById[id].tenant != tenant || !Locked(env, s.evById[id], now) then None
      else Some(Leaf(s.evById[id].logId, LeafOf([Ascii("evidence-delete-refused"), id, at, tenant])))
    case _ => None
  }

  ghost function InLog(leaf: Option<Leaf>, l: Text): seq<Bytes> {
    if leaf.Some? && leaf.value.logId == l then [leaf.value.bytes] else []
  }

  /** The trees after one appended leaf and then any change of the records. */
  lemma OneLeaf(s: State, t: State, leaf: Leaf, l: Text)
    requires var u := Append(s, leaf.logId, leaf.bytes);
             t == u.(attById := t.attById, attByContent := t.attByContent, statuses := t.statuses,
                     evById := t.evById, evByContent := t.evByContent)
    ensures Tree(t, l) == Tree(s, l) + InLog(Some(leaf), l)
  {
    hide Append;
    AppendedTree(s, leaf.logId, leaf.bytes, l);
    SameTrees(Append(s, leaf.logId, leaf.bytes), t);
    assert Tree(s, l) + [] == Tree(s, l);
  }

  lemma NoLeaf(s: State, t: State, l: Text)
    requires Tree(t, l) == Tree(s, l)
    ensures Tree(t, l) == Tree(s, l) + InLog(None, l)
  {
    hide Tree;
  }

  lemma AttestingWrites(env: Env, s: State, op: Op, l: Text)
    requires Inv(env, s) && Possible(s, op) && op.DoAnchorAttestation?
    ensures Tree(Step(env, s, op).state, l) == Tree(s, l) + InLog(Written(env, s, op), l)
  {
    hide Inv, Possible, Tree, Append, ContentKey, Lower, TenantLogId, LeafOf, SthOf, Path, AnchorAttestation, InLog,
         Ascii;
    var key := ContentKey(op.tenant, op.req.contentHash);
    KeyOfLowered(op.tenant, op.req.contentHash);
    KeyLeadsToRecord(env, s, key);
    if key in s.attByContent {
      KnownWritesNothing(env, s, op, l);
      NoLeaf(s, Step(env, s, op).state, l);
    } else {
      LowerTwice(op.req.contentHash);
      AnchoredIs(env, s, op.req, op.tenant, op.registryId, op.at, op.anchorUp);
      OneLeaf(s, Step(env, s, op).state, Written(env, s, op).value, l);
    }
  }

  lemma KnownWritesNothing(env: Env, s: State, op: Op, l: Text)
    requires Inv(env, s) && op.DoAnchorAttestation?
    requires ContentKey(op.tenant, Lower(op.req.contentHash)) in s.attByContent
    ensures Tree(Step(env, s, op).state, l) == Tree(s, l)
  {
    hide Inv, Tree, Append, ContentKey, Lower, TenantLogId, LeafOf, SthOf, Path, InclusionFor;
    var key := ContentKey(op.tenant, Lower(op.req.contentHash));
    KeyLeadsToRecord(env, s, key);
    GetLogKeepsInv(env, s, s.attById[s.attByContent[key]].logId);
  }

  lemma StatusWrites(env: Env, s: State, op: Op, l: Text)
    requires op.DoSetStatus?
    ensures Tree(Step(env, s, op).state, l) == Tree(s, l) + InLog(Written(env, s, op), l)
  {
    hide Tree, Append, LeafOf, SthOf, Path, InLog, Ascii;
    if Written(env, s, op) == None {
      NoLeaf(s, Step(env, s, op).state, l);
    } else {
      OneLeaf(s, Step(env, s, op).state, Written(env, s, op).value, l);
    }
  }

  lemma RegisteringWrites(env: Env, s: State, op: Op, l: Text)
    requires Inv(env, s) && op.DoRegisterEvidence?
    ensures Tree(Step(env, s, op).state, l) == Tree(s, l) + InLog(Written(env, s, op), l)
  {
    hide Inv, Tree, Append, ContentKey, Lower, TenantLogId, LeafOf, SthOf, RegisterEvidence, InLog, Ascii, Deletable,
         LedgerModel.PutEvidence;
    var key := ContentKey(op.tenant, op.evidence.contentHash);
    KeyOfLowered(op.tenant, op.evidence.contentHash);
    KeyLeadsToRecord(env, s, key);
    if key in s.evByContent {
      KnownEvidenceWritesNothing(env, s, op, l);
      NoLeaf(s, Step(env, s, op).state, l);
    } else {
      LowerTwice(op.evidence.contentHash);
      RegisteredIs(env, s, op.evidence, op.tenant, op.evidenceId, op.now, op.anchorUp);
      EvidenceLeafOf(op);
      PutLeavesTrees();
      OneLeaf(s, Step(env, s, op).state, Written(env, s, op).value, l);
    }
  }

  lemma EvidenceLeafOf(op: Op)
    requires op.DoRegisterEvidence?
    ensures var hold := match op.evidence.legalHold { case Some(b) => b case None => false };
            BoolText(hold) == Ascii(if op.evidence.legalHold == Some(true) then "true" else "false")
  {
    hide Ascii;
  }

  lemma PutLeavesTrees()
    ensures forall s, e :: var t := PutEvidence(s, e);
                           t == s.(evById := t.evById, evByContent := t.evByContent)
  {
  }

  lemma KnownEvidenceWritesNothing(env: Env, s: State, op: Op, l: Text)
    requires Inv(env, s) && op.DoRegisterEvidence?
    requires ContentKey(op.tenant, Lower(op.evidence.contentHash)) in s.evByContent
    ensures Tree(Step(env, s, op).state, l) == Tree(s, l)
  {
    hide Inv, Tree, Append, ContentKey, Lower, TenantLogId, LeafOf, SthOf, Deletable;
    var key := ContentKey(op.tenant, Lower(op.evidence.contentHash));
    KeyLeadsToRecord(env, s, key);
    GetLogKeepsInv(env, s, s.evById[s.evByContent[key]].logId);
  }

  lemma DeletingWrites(env: Env, s: State, op: Op, l: Text)
    requires op.DoDeleteEvidence?
    ensures Tree(Step(env, s, op).state, l) == Tree(s, l) + InLog(Written(env, s, op), l)
  {
    hide Tree, Append, LeafOf, SthOf, InLog, Ascii, LedgerModel.PutEvidence;
    var t := Step(env, s, op).state;
    PutLeavesTrees();
    if Written(env, s, op) == None {
      SameTrees(s, t);
      NoLeaf(s, t, l);
    } else {
      OneLeaf(s, t, Written(env, s, op).value, l);
    }
  }

  lemma UpdatingWritesNothing(env: Env, s: State, op: Op, l: Text)
    requires Inv(env, s) && op.DoUpdateRetention?
    ensures Tree(Step(env, s, op).state, l) == Tree(s, l)
  {
    hide Inv, Tree, SthOf, ContentKey, Deletable, ExtendedUntil, LedgerModel.PutEvidence, EvidenceDto;
    if Stored(s, op.evidenceId) && s.evById[op.evidenceId].tenant == op.tenant {
      var e := s.evById[op.evidenceId];
      match ExtendedUntil(env, e.until, op.extendUntil)
      case Refused(_) =>
      case NewUntil(until) =>
        var f := e.(until := until, legalHold := match op.legalHold { case Some(b) => b case None => e.legalHold });
        GrantedWritesNothing(env, s, f, op.now, op.anchorUp, l);
    }
  }

  lemma GrantedWritesNothing(env: Env, s: State, f: Evidence, now: int, up: bool, l: Text)
    ensures Tree(EvidenceDto(env, PutEvidence(s, f), f, false, now, up).state, l) == Tree(s, l)
  {
    hide Tree, SthOf, ContentKey, Deletable, LedgerModel.PutEvidence;
    PutLeavesTrees();
    SameTrees(s, PutEvidence(s, f));
    CachingAgrees(s, PutEvidence(s, f), f.logId, l);
  }

  lemma CachingAgrees(s: State, u: State, logId: Text, l: Text)
    requires forall k :: Tree(u, k) == Tree(s, k)
    ensures Tree(GetLog(u, logId), l) == Tree(s, l)
  {
    hide DecodeAll;
    assert Tree(GetLog(u, logId), l) == Tree(u, l);
  }

  lemma ReadingWritesNothing(env: Env, s: State, op: Op, l: Text)
    requires Inv(env, s) && Possible(s, op)
    requires !op.DoAnchorAttestation? && !op.DoSetStatus? && !op.DoRegisterEvidence?
    requires !op.DoUpdateRetention? && !op.DoDeleteEvidence?
    ensures Tree(Step(env, s, op).state, l) == Tree(s, l)
  {
    hide Inv, Tree, Mth, Path, SthOf, InclusionFor, VerifyBundle, OnlyCaches, Deletable;
    match op
    case DoGetAttestation(id, _) =>
      if id in s.attById { GetLogKeepsInv(env, s, s.attById[id].logId); }
    case DoGetInclusion(id, _, _) =>
      if id in s.attById { GetLogKeepsInv(env, s, s.attById[id].logId); }
    case DoGetStatusRecord(id, _) =>
      if id in s.attById { GetLogKeepsInv(env, s, s.attById[id].logId); }
    case DoSubmitCheckpoint(head, id, _) => CheckpointKeeps(env, s, Checkpoint(id, head));
    case DoGetConsistency(logId, _, _, _) => GetLogKeepsInv(env, s, logId);
    case DoGetEvidence(id, _, _) =>
      if id in s.evById { GetLogKeepsInv(env, s, s.evById[id].logId); }
    case DoVerifyBundle(_, atts, evs, now, answers) =>
      BundleOnlyCaches(env, s, atts, evs, now, answers);
      CachingKeepsTrees(s, Step(env, s, op).state);
    case Restart => CachingKeepsInv(env, s, s.(logs := map[]));
  }

  /** One operation appends exactly its leaf. */
  lemma StepWrites(env: Env, s: State, op: Op, l: Text)
    requires Inv(env, s) && Possible(s, op)
    ensures Tree(Step(env, s, op).state, l) == Tree(s, l) + InLog(Written(env, s, op), l)
  {
    hide Step, Inv, Possible, Tree, InLog;
    if op.DoAnchorAttestation? {
      AttestingWrites(env, s, op, l);
    } else if op.DoSetStatus? {
      StatusWrites(env, s, op, l);
    } else if op.DoRegisterEvidence? {
      RegisteringWrites(env, s, op, l);
    } else if op.DoDeleteEvidence? {
      DeletingWrites(env, s, op, l);
    } else {
      if op.DoUpdateRetention? {
        UpdatingWritesNothing(env, s, op, l);
      } else {
        ReadingWritesNothing(env, s, op, l);
      }
      NoLeaf(s, Step(env, s, op).state, l);
    }
  }

  /** The leaves the requests of a run wrote to a log, in order. */
  ghost function LeavesOf(env: Env, ops: seq<Op>, l: Text): seq<Bytes> {
    if ops == [] then []
    else
      var front := ops[..|ops| - 1];
      LeavesOf(env, front, l) + InLog(Written(env, After(env, front), ops[|ops| - 1]), l)
  }

  /** After every run, with any failures of the anchor service and any restarts, each log is exactly the leaves of the
      requests that were let through, in order. */
  lemma {:induction false} LogIsRequests(env: Env, ops: seq<Op>, l: Text)
    requires PossibleRun(env, ops)
    ensures Tree(After(env, ops), l) == LeavesOf(env, ops, l)
  {
    hide Step, Inv, Possible, PossibleRun, Tree, Written, InLog;
    if ops == [] {
      EmptyTree(l);
    } else {
      var front := ops[..|ops| - 1];
      LedgerRequests.OneStep(env, ops);
      LogIsRequests(env, front, l);
      StepWrites(env, After(env, front), ops[|ops| - 1], l);
    }
  }

  // ---------- heads handed out ----------

  /** Refusals hand out nothing, apart from that of a delete; where the anchor service did not answer a head was
      handed to it; and a reply with one head was paid for with exactly this head. */
  ghost predicate HandsExactly(o: Outcome) {
    && (o.reply.Failed? && o.reply.error !in {ChainUnavailable, RetentionLocked} ==> o.handed == [])
    && (o.reply == Failed(ChainUnavailable) ==> o.handed != [])
    && (o.reply == Failed(RetentionLocked) ==> |o.handed| == 1)
    && (o.reply.Deleted? || o.reply.Restarted? ==> o.handed == [])
    && (o.reply.AttestationReply? || o.reply.InclusionReply? || o.reply.StatusReply? || o.reply.CheckpointReply? ==>
          o.handed == [o.reply.sth])
    && (o.reply.EvidenceReply? ==> o.handed == [o.reply.entry.sth])
    && (o.reply.ConsistencyReply? ==> o.handed == [o.reply.first, o.reply.second])
  }

  lemma AttestingHands(env: Env, s: State, op: Op)
    requires op.DoAnchorAttestation?
    ensures HandsExactly(Step(env, s, op))
  {
    hide Tree, Append, ContentKey, Lower, TenantLogId, LeafOf, SthOf, Path, InclusionFor;
  }

  lemma RegisteringHands(env: Env, s: State, op: Op)
    requires Inv(env, s) && op.DoRegisterEvidence?
    ensures HandsExactly(Step(env, s, op))
  {
    hide Inv, Tree, Append, ContentKey, Lower, TenantLogId, LeafOf, SthOf, Deletable;
    var key := ContentKey(op.tenant, Lower(op.evidence.contentHash));
    KeyLeadsToRecord(env, s, key);
    if key !in s.evByContent {
      RegisteredIs(env, s, op.evidence, op.tenant, op.evidenceId, op.now, op.anchorUp);
    }
  }

  lemma UpdatingHands(env: Env, s: State, op: Op)
    requires op.DoUpdateRetention?
    ensures HandsExactly(Step(env, s, op))
  {
    hide Tree, ContentKey, SthOf, Deletable, ExtendedUntil, LedgerModel.PutEvidence;
    if Stored(s, op.evidenceId) {
      ExtensionIs(env, s.evById[op.evidenceId].until, op.extendUntil);
    }
  }

  lemma OthersHand(env: Env, s: State, op: Op)
    requires !op.DoVerifyBundle? && !op.DoAnchorAttestation? && !op.DoRegisterEvidence? && !op.DoUpdateRetention?
    ensures HandsExactly(Step(env, s, op))
  {
    hide Tree, Append, ContentKey, LeafOf, SthOf, Path, Mth, InclusionFor, Deletable;
  }

  lemma BundleHands(env: Env, s: State, op: Op)
    requires Inv(env, s) && Possible(s, op) && op.DoVerifyBundle?
    ensures HandsExactly(Step(env, s, op))
  {
    hide Inv, VerifyBundle, BundleEntries, EvidenceEntries, LatestCheckpoints, BundleLogs;
    BundleIs(env, s, op.subject, op.atts, op.evs, op.now, op.answers);
    var asked := op.atts[..Asked(|op.atts|, op.answers)];
    EntriesOf(env, s, asked, op.evs[..AskedFor(|op.atts|, |op.evs|, op.answers)], op.now);
  }

  lemma EntriesOf(env: Env, s: State, atts: seq<Text>, evs: seq<Text>, now: int)
    requires Provable(s) && (forall id | id in atts :: id in s.attById) && forall id | id in evs :: id in s.evById
    ensures |BundleHeads(BundleEntries(env, s, atts))| == |atts|
    ensures |EvidenceHeads(EvidenceEntries(env, s, evs, now))| == |evs|
  {
    hide Tree, BundleEntryOf, EntryOf, Provable;
  }

  /** In every state and for every operation. */
  lemma HandedExactly(env: Env, s: State, op: Op)
    requires Inv(env, s) && Possible(s, op)
    ensures HandsExactly(Step(env, s, op))
  {
    hide Step, Inv, Possible;
    if op.DoVerifyBundle? {
      BundleHands(env, s, op);
    } else if op.DoAnchorAttestation? {
      AttestingHands(env, s, op);
    } else if op.DoRegisterEvidence? {
      RegisteringHands(env, s, op);
    } else if op.DoUpdateRetention? {
      UpdatingHands(env, s, op);
    } else {
      OthersHand(env, s, op);
    }
  }
}
