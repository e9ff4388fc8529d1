/** Over every run of the ledger: records and their leaves, status histories, retention. */
module LedgerRecords {
  import opened Hashing
  import opened Texts
  import opened MerkleTree
  import opened LedgerModel
  import opened LedgerInvariant
  import opened LedgerRuns
  import InclusionProofs
  import LeafEncodings
  import LedgerAnswers

  // ---------- records and leaves ----------

  /** At every moment of a run a stored attestation points at the leaf that encodes it, and both
      indexes of the store lead to it. */
  lemma AttestationPointsAtItsLeaf(env: Env, ops: seq<Op>, id: Text)
    requires PossibleRun(env, ops) && id in After(env, ops).attById
    ensures var s := After(env, ops);
            var a := s.attById[id];
            && a.registryId == id
            && a.leafIndex < |Tree(s, a.logId)| && Tree(s, a.logId)[a.leafIndex] == AttestationLeaf(a)
            && a.leafHash == env.h.leaf(AttestationLeaf(a))
            && ContentKey(a.tenant, a.contentHash) in s.attByContent
            && s.attByContent[ContentKey(a.tenant, a.contentHash)] == id
  {
    hide Step, Tree, AttestationLeaf, ContentKey;
    RunKeepsInv(env, ops);
    assert AttestationSound(env, After(env, ops), id);
  }

  /** Every entry of a public bundle is for a record that matches the subject, every record that
      matches has exactly one, and the SDK accepts its proof for the hash of that record's own leaf. */
  lemma BundleEntriesVerify(env: Env, s: State, subject: Text, atts: seq<Text>, evs: seq<Text>, now: int,
                            answers: nat)
    requires |atts| + |evs| <= answers
    requires Inv(env, s) && Lists(s, subject, atts, evs)
    ensures var r := VerifyBundle(env, s, atts, evs, now, answers).reply;
            && r.BundleReply? && |r.attestations| == |atts|
            && (forall i | 0 <= i < |atts| ::
                  && atts[i] in s.attById && AttestationMatches(s.attById[atts[i]], subject)
                  && r.attestations[i].registryId == atts[i]
                  && r.attestations[i].status == s.attById[atts[i]].status
                  && EntryVerifies(env, s.attById[atts[i]], r.attestations[i]))
            && (forall id | id in s.attById && AttestationMatches(s.attById[id], subject) :: id in atts)
            && NoRepeats(atts)
  {
    hide Tree, Inv, AttestationLeaf, Mth, EntryVerifies, VerifyBundle, BundleEntryOf;
    BundleIs(env, s, subject, atts, evs, now, answers);
    forall i | 0 <= i < |atts|
      ensures EntryVerifies(env, s.attById[atts[i]], BundleEntryOf(env, s, atts[i]))
      ensures BundleEntryOf(env, s, atts[i]).registryId == atts[i]
      ensures BundleEntryOf(env, s, atts[i]).status == s.attById[atts[i]].status
    {
      BundleEntryVerifies(env, s, atts[i]);
    }
  }

  /** The SDK accepts the entry for the leaf of the attestation. */
  ghost predicate EntryVerifies(env: Env, a: Attestation, e: BundleEntry) {
    InclusionProofs.Accepted(env.h, env.h.leaf(AttestationLeaf(a)), e.inclusion.leafIndex, e.inclusion.treeSize,
                             e.inclusion.auditPath, e.sth.root)
  }

  lemma BundleEntryVerifies(env: Env, s: State, id: Text)
    requires Inv(env, s) && Provable(s) && id in s.attById
    ensures var e := BundleEntryOf(env, s, id);
            e.registryId == id && e.status == s.attById[id].status && EntryVerifies(env, s.attById[id], e)
  {
    hide Tree, Inv, AttestationLeaf, Mth, InclusionProofs.Accepted;
    RecordInTree(env, s, id);
    InclusionProofs.Complete(env.h, s.attById[id].leafIndex, Tree(s, s.attById[id].logId));
  }

  /** Submitting a content hash again for the same tenant, in any letter case, at any later moment,
      answers with the record of the first time and appends no leaf and no record. */
  lemma ResubmissionIsIdempotent(env: Env, ops: seq<Op>, i: nat, j: nat)
    requires PossibleRun(env, ops) && i < j < |ops|
    requires ops[i].DoAnchorAttestation? && ops[j].DoAnchorAttestation? && ops[j].anchorUp
    requires ReplyAt(env, ops, i).AttestationReply?
    requires ops[i].tenant == ops[j].tenant && Lower(ops[i].req.contentHash) == Lower(ops[j].req.contentHash)
    ensures var s := After(env, ops[..j]);
            var o, first := Step(env, s, ops[j]), ReplyAt(env, ops, i);
            && o.reply.AttestationReply? && o.reply.alreadyAnchored
            && o.reply.attestationId == first.attestationId
            && o.reply.leafIndex == first.leafIndex && o.reply.leafHash == first.leafHash
            && o.state == s.(logs := o.state.logs) && forall l :: Tree(o.state, l) == Tree(s, l)
  {
    hide Inv, Evolves, Step, Tree, ContentKey, Lower, LeafOf, TenantLogId, Mth;
    var s0, s1, s := After(env, ops[..i]), After(env, ops[..i + 1]), After(env, ops[..j]);
    assert ops[..i + 1][..i] == ops[..i];
    RunEvolvesBetween(env, ops, i, i);
    RunEvolvesBetween(env, ops, i + 1, j);
    AnchoredUnderItsKey(env, s0, ops[i]);
    var key := ContentKey(ops[i].tenant, Lower(ops[i].req.contentHash));
    var id := ReplyAt(env, ops, i).attestationId;
    KeyStays(env, s1, s, key);
    KnownKeyAnswers(env, s, ops[j], id);
  }

  lemma AnchoredUnderItsKey(env: Env, s: State, op: Op)
    requires Inv(env, s) && Possible(s, op) && op.DoAnchorAttestation? && Step(env, s, op).reply.AttestationReply?
    ensures var o, key := Step(env, s, op), ContentKey(op.tenant, Lower(op.req.contentHash));
            && key in o.state.attByContent && o.state.attByContent[key] == o.reply.attestationId
            && o.reply.attestationId in o.state.attById
            && o.state.attById[o.reply.attestationId].leafIndex == o.reply.leafIndex
            && o.state.attById[o.reply.attestationId].leafHash == o.reply.leafHash
  {
    hide Tree, ContentKey, Lower, LeafOf, TenantLogId, Mth, AttestationSound, HistorySound, EvidenceSound, CacheAgrees;
    var key := ContentKey(op.tenant, Lower(op.req.contentHash));
    if key in s.attByContent {
      RecordIds(env, s, s.attByContent[key]);
    }
  }

  lemma KeyStays(env: Env, s: State, t: State, key: Text)
    requires Evolves(env, s, t) && key in s.attByContent && s.attByContent[key] in s.attById
    ensures key in t.attByContent && t.attByContent[key] == s.attByContent[key] && t.attByContent[key] in t.attById
    ensures t.attById[t.attByContent[key]].leafIndex == s.attById[s.attByContent[key]].leafIndex
    ensures t.attById[t.attByContent[key]].leafHash == s.attById[s.attByContent[key]].leafHash
  {
    hide TreesGrow;
  }

  lemma KnownKeyAnswers(env: Env, s: State, op: Op, id: Text)
    requires Inv(env, s) && op.DoAnchorAttestation? && op.anchorUp
    requires var key := ContentKey(op.tenant, Lower(op.req.contentHash));
             key in s.attByContent && s.attByContent[key] == id && id in s.attById
    ensures var o := Step(env, s, op);
            && o.reply.AttestationReply? && o.reply.alreadyAnchored && o.reply.attestationId == id
            && o.reply.leafIndex == s.attById[id].leafIndex && o.reply.leafHash == s.attById[id].leafHash
            && o.state == s.(logs := o.state.logs) && forall l :: Tree(o.state, l) == Tree(s, l)
  {
    hide Tree, Inv, ContentKey, Lower, LeafOf, TenantLogId, Mth;
    GetLogKeepsInv(env, s, s.attById[id].logId);
    RecordInTree(env, s, id);
  }

  /** The same for evidence: registering a known content hash again answers with the record of the first
      time, as it is now, and appends no leaf and no record, even if that record is deleted. */
  lemma ReregistrationIsIdempotent(env: Env, ops: seq<Op>, i: nat, j: nat)
    requires PossibleRun(env, ops) && i < j < |ops|
    requires ops[i].DoRegisterEvidence? && ops[j].DoRegisterEvidence? && ops[j].anchorUp
    requires ReplyAt(env, ops, i).EvidenceReply?
    requires ops[i].tenant == ops[j].tenant && Lower(ops[i].evidence.contentHash) == Lower(ops[j].evidence.contentHash)
    ensures var s := After(env, ops[..j]);
            var o, id := Step(env, s, ops[j]), ReplyAt(env, ops, i).entry.evidenceId;
            && o.reply.EvidenceReply? && o.reply.alreadyRegistered && o.reply.entry.evidenceId == id
            && id in s.evById && o.reply.entry.until == s.evById[id].until
            && o.reply.entry.legalHold == s.evById[id].legalHold
            && o.state == s.(logs := o.state.logs) && forall l :: Tree(o.state, l) == Tree(s, l)
  {
    hide Inv, Evolves, Step, Tree, ContentKey, Lower, LeafOf, TenantLogId, Mth;
    var s0, s1, s := After(env, ops[..i]), After(env, ops[..i + 1]), After(env, ops[..j]);
    assert ops[..i + 1][..i] == ops[..i];
    RunEvolvesBetween(env, ops, i, i);
    RunEvolvesBetween(env, ops, i + 1, j);
    RegisteredUnderItsKey(env, s0, ops[i]);
    EvidenceKeyStays(env, s1, s, ContentKey(ops[i].tenant, Lower(ops[i].evidence.contentHash)));
    KnownEvidenceAnswers(env, s, ops[j], ReplyAt(env, ops, i).entry.evidenceId);
  }

  lemma RegisteredUnderItsKey(env: Env, s: State, op: Op)
    requires Inv(env, s) && op.DoRegisterEvidence? && Step(env, s, op).reply.EvidenceReply?
    ensures var o, key := Step(env, s, op), ContentKey(op.tenant, Lower(op.evidence.contentHash));
            && key in o.state.evByContent && o.state.evByContent[key] == o.reply.entry.evidenceId
            && o.reply.entry.evidenceId in o.state.evById
  {
    hide Tree, ContentKey, Lower, LeafOf, TenantLogId, SthOf, Deletable, Inv;
    var key := ContentKey(op.tenant, Lower(op.evidence.contentHash));
    if key in s.evByContent && s.evByContent[key] in s.evById {
      RecordIds(env, s, s.evByContent[key]);
    }
  }

  lemma EvidenceKeyStays(env: Env, s: State, t: State, key: Text)
    requires Evolves(env, s, t) && key in s.evByContent && s.evByContent[key] in s.evById
    ensures key in t.evByContent && t.evByContent[key] == s.evByContent[key] && t.evByContent[key] in t.evById
  {
    hide TreesGrow;
  }

  lemma KnownEvidenceAnswers(env: Env, s: State, op: Op, id: Text)
    requires Inv(env, s) && op.DoRegisterEvidence? && op.anchorUp
    requires var key := ContentKey(op.tenant, Lower(op.evidence.contentHash));
             key in s.evByContent && s.evByContent[key] == id && id in s.evById
    ensures var o := Step(env, s, op);
            && o.reply.EvidenceReply? && o.reply.alreadyRegistered
            && o.reply.entry == EntryOf(env, o.state, s.evById[id], op.now) && o.reply.entry.evidenceId == id
            && o.state == s.(logs := o.state.logs) && forall l :: Tree(o.state, l) == Tree(s, l)
  {
    hide Tree, Inv, ContentKey, Lower, LeafOf, TenantLogId, SthOf, Deletable;
    GetLogKeepsInv(env, s, s.evById[id].logId);
    RecordIds(env, s, id);
  }

  // ---------- status ----------

  /** In every run: the status of a record is that of its last history entry, the history starts with
      "active" at the attestation's own leaf, leaf numbers strictly increase, and a revoked entry is
      the last. */
  lemma StatusHistoryShape(env: Env, ops: seq<Op>, id: Text)
    requires PossibleRun(env, ops) && id in After(env, ops).attById
    ensures var s := After(env, ops);
            var a := s.attById[id];
            id in s.statuses && var hist := s.statuses[id];
            && hist != [] && hist[0].status == Active
            && hist[0].leafIndex == a.leafIndex && hist[0].leafHash == a.leafHash
            && hist[|hist| - 1].status == a.status
            && (forall i, j | 0 <= i < j < |hist| :: hist[i].leafIndex < hist[j].leafIndex)
            && (forall i | 0 <= i < |hist| && hist[i].status == Revoked :: i == |hist| - 1)
  {
    hide Step, AttestationSound, EvidenceSound, IndexesSound, CacheAgrees, EntrySound;
    RunKeepsInv(env, ops);
    assert HistorySound(env, After(env, ops), id);
  }

  /** History is append-only over a run, and a revoked record stays revoked with the same history. */
  lemma StatusHistoryGrows(env: Env, ops: seq<Op>, i: nat, k: nat, id: Text)
    requires PossibleRun(env, ops) && i <= k <= |ops| && id in After(env, ops[..i]).attById
    ensures var s, t := After(env, ops[..i]), After(env, ops[..k]);
            && id in t.attById && id in s.statuses && id in t.statuses && s.statuses[id] <= t.statuses[id]
            && (s.attById[id].status == Revoked ==> t.attById[id] == s.attById[id] && t.statuses[id] == s.statuses[id])
  {
    hide Step, Inv, Evolves, AttestationSound, EvidenceSound, IndexesSound, CacheAgrees, EntrySound, HistorySound;
    RunEvolvesBetween(env, ops, i, k);
    GrownHistory(env, After(env, ops[..i]), After(env, ops[..k]), id);
  }

  lemma GrownHistory(env: Env, s: State, t: State, id: Text)
    requires Inv(env, s) && Inv(env, t) && Evolves(env, s, t) && id in s.attById
    ensures id in t.attById && id in s.statuses && id in t.statuses && s.statuses[id] <= t.statuses[id]
    ensures s.attById[id].status == Revoked ==> t.attById[id] == s.attById[id] && t.statuses[id] == s.statuses[id]
  {
    hide TreesGrow, AttestationSound, EvidenceSound, IndexesSound, CacheAgrees, EntrySound;
    assert HistorySound(env, s, id) && HistorySound(env, t, id);
    var a, b := s.statuses[id], t.statuses[id];
    if s.attById[id].status == Revoked {
      assert b[|a| - 1] == a[|a| - 1];
      assert |a| == |b|;
    }
  }

  /** Every history entry can be proved at every later size of its log: the SDK accepts the audit path
      for the hash stored in the entry, which is the hash of the entry's own leaf. */
  lemma StatusEntriesStayProvable(env: Env, ops: seq<Op>, id: Text, i: nat, size: nat)
    requires PossibleRun(env, ops) && id in After(env, ops).attById && id in After(env, ops).statuses
    requires i < |After(env, ops).statuses[id]|
    requires var s := After(env, ops);
             s.statuses[id][i].leafIndex < size <= |Tree(s, s.attById[id].logId)|
    ensures var s := After(env, ops);
            var e := s.statuses[id][i];
            && e.leafHash == env.h.leaf(if i == 0 then AttestationLeaf(s.attById[id]) else StatusLeaf(e))
            && var tree := Tree(s, s.attById[id].logId)[..size];
               InclusionProofs.Accepted(env.h, e.leafHash, e.leafIndex, size, Path(env.h, e.leafIndex, tree),
                                        Mth(env.h, tree))
  {
    hide Step, Inv, Tree, AttestationLeaf, StatusLeaf, Mth, Path, InclusionProofs.Accepted;
    RunKeepsInv(env, ops);
    var s := After(env, ops);
    EntryLeaf(env, s, id, i);
    InclusionProofs.Complete(env.h, s.statuses[id][i].leafIndex, Tree(s, s.attById[id].logId)[..size]);
  }

  lemma EntryLeaf(env: Env, s: State, id: Text, i: nat)
    requires Inv(env, s) && id in s.attById && id in s.statuses && i < |s.statuses[id]|
    ensures var e, a := s.statuses[id][i], s.attById[id];
            var leaf := if i == 0 then AttestationLeaf(a) else StatusLeaf(e);
            LeafAt(s, a.logId, e.leafIndex, leaf) && e.leafHash == env.h.leaf(leaf)
  {
    hide Tree, AttestationLeaf, StatusLeaf, EvidenceSound, IndexesSound, CacheAgrees, ContentKey, Lower, TenantLogId;
    assert AttestationSound(env, s, id) && HistorySound(env, s, id);
    if i > 0 {
      assert EntrySound(env, s, s.attById[id], s.statuses[id][i], StatusLeaf(s.statuses[id][i]));
    }
  }

  // ---------- retention ----------

  /** One step deletes an evidence record only when asked to by its tenant, without a hold, and not
      before a recorded date. */
  lemma OnlyDueDeletes(env: Env, s: State, op: Op, id: Text)
    requires Inv(env, s) && Possible(s, op)
    requires id in s.evById && !s.evById[id].deleted
    requires id in Step(env, s, op).state.evById && Step(env, s, op).state.evById[id].deleted
    ensures op.DoDeleteEvidence? && op.evidenceId == id && op.tenant == s.evById[id].tenant
    ensures !s.evById[id].legalHold && !InFuture(env, s.evById[id].until, op.now)
  {
    hide Inv, Step, ContentKey, LedgerAnswers.Shortens, LedgerAnswers.Shows;
    if op.DoRegisterEvidence? {
      LedgerAnswers.RegisteringAnswers(env, s, op);
    } else if op.DoUpdateRetention? {
      LedgerAnswers.RetentionAnswers(env, s, op);
    } else if op.DoDeleteEvidence? {
      LedgerAnswers.DeleteAnswers(env, s, op);
    } else {
      LedgerAnswers.OthersKeepEvidence(env, s, op);
    }
  }

  /** Retention safety: an evidence record that was recorded at any moment with a date is deleted, if
      ever, only by its own tenant, without a legal hold, and at a time not before that date. */
  lemma NoDeletionBeforeAnyRecordedDate(env: Env, ops: seq<Op>, i: nat, j: nat, id: Text)
    requires PossibleRun(env, ops) && i <= j < |ops|
    requires id in After(env, ops[..i]).evById && env.parseDate(After(env, ops[..i]).evById[id].until).Some?
    requires id in After(env, ops[..j]).evById && !After(env, ops[..j]).evById[id].deleted
    requires id in After(env, ops[..j + 1]).evById && After(env, ops[..j + 1]).evById[id].deleted
    ensures ops[j].DoDeleteEvidence? && ops[j].evidenceId == id
    ensures ops[j].tenant == After(env, ops[..j]).evById[id].tenant == After(env, ops[..i]).evById[id].tenant
    ensures ops[j].now >= env.parseDate(After(env, ops[..i]).evById[id].until).value
    ensures !After(env, ops[..j]).evById[id].legalHold
  {
    hide Inv, Evolves, Step;
    assert ops[..j + 1][..j] == ops[..j];
    RunEvolvesBetween(env, ops, i, j);
    OnlyDueDeletes(env, After(env, ops[..j]), ops[j], id);
    EvidenceGrown(env, After(env, ops[..i]), After(env, ops[..j]), id);
  }

  lemma EvidenceGrown(env: Env, s: State, t: State, id: Text)
    requires Evolves(env, s, t) && id in s.evById
    ensures id in t.evById && EvidenceGrows(env, s.evById[id], t.evById[id])
  {
    hide TreesGrow;
  }

  /** Deleted is final: the record never changes again. */
  lemma DeletedIsFinal(env: Env, ops: seq<Op>, i: nat, k: nat, id: Text)
    requires PossibleRun(env, ops) && i <= k <= |ops|
    requires id in After(env, ops[..i]).evById && After(env, ops[..i]).evById[id].deleted
    ensures id in After(env, ops[..k]).evById && After(env, ops[..k]).evById[id] == After(env, ops[..i]).evById[id]
  {
    hide Inv, Evolves, Step;
    RunEvolvesBetween(env, ops, i, k);
    EvidenceGrown(env, After(env, ops[..i]), After(env, ops[..k]), id);
  }

  /** A delete by the owner is refused exactly while the record is not deletable; a refusal appends
      exactly one leaf, the record of the attempt, to the evidence's log and changes nothing else. */
  lemma RefusedDeleteLeavesOneLeaf(env: Env, s: State, id: Text, now: int, at: Text, up: bool)
    requires Inv(env, s) && id in s.evById && !s.evById[id].deleted
    ensures var e := s.evById[id];
            var o := DeleteEvidence(env, s, id, e.tenant, now, at, up);
            && (o.reply == Deleted <==> Deletable(env, e, now))
            && (!Deletable(env, e, now) ==>
                  && o.reply == Failed(if up then RetentionLocked else ChainUnavailable)
                  && o.state == s.(logs := o.state.logs, leaves := o.state.leaves)
                  && Tree(o.state, e.logId) == Tree(s, e.logId) + [LeafOf(DeleteAttemptFields(id, at, e.tenant))]
                  && forall l | l != e.logId :: Tree(o.state, l) == Tree(s, l))
  {
    hide Tree, LeafOf, ContentKey, Inv;
    var e := s.evById[id];
    var leaf := LeafOf(DeleteAttemptFields(id, at, e.tenant));
    forall l {
      AppendedTree(s, e.logId, leaf, l);
    }
  }

  /** A delete succeeds exactly for the owner of a record that is not deleted and has no hold and, if its
      date can be read, from that instant on: a date that cannot be read never locks. */
  lemma DeleteSucceedsExactlyWhenDue(env: Env, s: State, id: Text, tenant: Text, now: int, at: Text, up: bool)
    ensures DeleteEvidence(env, s, id, tenant, now, at, up).reply == Deleted
       <==> && id in s.evById && !s.evById[id].deleted && s.evById[id].tenant == tenant
            && !s.evById[id].legalHold
            && match env.parseDate(s.evById[id].until) {
                 case Some(date) => date <= now
                 case None => true
               }
  {
    hide Tree, LeafOf, ContentKey, Append;
  }

  // ---------- the flag deletable ----------

  /** The evidence entries a reply shows. */
  function EvidenceShown(reply: Reply): set<EvidenceEntry> {
    match reply
    case EvidenceReply(entry, _) => {entry}
    case BundleReply(_, _, evs) => set e | e in evs
    case _ => {}
  }

  function Now(op: Op): int {
    match op
    case DoRegisterEvidence(_, _, _, now, _) => now
    case DoGetEvidence(_, now, _) => now
    case DoUpdateRetention(_, _, _, _, now, _) => now
    case DoDeleteEvidence(_, _, now, _, _) => now
    case DoVerifyBundle(_, _, _, now, _) => now
    case _ => 0
  }

  /** A shown entry is that of a stored record, and of a deleted one only when a known hash is registered
      again. */
  ghost predicate ShownFrom(env: Env, t: State, op: Op, reply: Reply, entry: EvidenceEntry) {
    && entry.evidenceId in t.evById
    && t.evById[entry.evidenceId].evidenceId == entry.evidenceId
    && entry.deletable == Deletable(env, t.evById[entry.evidenceId], Now(op))
    && (t.evById[entry.evidenceId].deleted ==>
          op.DoRegisterEvidence? && reply.EvidenceReply? && reply.alreadyRegistered)
  }

  lemma ShownEntry(env: Env, s: State, op: Op, entry: EvidenceEntry)
    requires Inv(env, s) && Possible(s, op) && entry in EvidenceShown(Step(env, s, op).reply)
    ensures op.DoRegisterEvidence? ==> Step(env, s, op).reply.EvidenceReply?
    ensures ShownFrom(env, Step(env, s, op).state, op, Step(env, s, op).reply, entry)
  {
    hide Inv, Possible, Step;
    OnlyEvidenceOpsShow(env, s, op, entry);
    if op.DoRegisterEvidence? {
      ShownByRegistration(env, s, op, entry);
    } else if op.DoGetEvidence? {
      ShownByGet(env, s, op, entry);
    } else if op.DoUpdateRetention? {
      ShownByUpdate(env, s, op, entry);
    } else {
      ShownByBundle(env, s, op, entry);
    }
  }

  lemma OnlyEvidenceOpsShow(env: Env, s: State, op: Op, entry: EvidenceEntry)
    requires entry in EvidenceShown(Step(env, s, op).reply)
    ensures op.DoRegisterEvidence? || op.DoGetEvidence? || op.DoUpdateRetention? || op.DoVerifyBundle?
  {
    hide Tree, Mth, Path, SthOf, Append, LeafOf, ContentKey, Lower, TenantLogId, InclusionFor, VerifyBundle,
         RegisterEvidence, UpdateRetention, GetEvidence;
  }

  lemma ShownByRegistration(env: Env, s: State, op: Op, entry: EvidenceEntry)
    requires Inv(env, s) && op.DoRegisterEvidence? && entry in EvidenceShown(Step(env, s, op).reply)
    ensures Step(env, s, op).reply.EvidenceReply?
    ensures ShownFrom(env, Step(env, s, op).state, op, Step(env, s, op).reply, entry)
  {
    hide Inv, Tree, ContentKey, Lower, LeafOf, TenantLogId, SthOf, Append, Deletable;
    var key := ContentKey(op.tenant, Lower(op.evidence.contentHash));
    if key in s.evByContent && s.evByContent[key] in s.evById {
      RecordIds(env, s, s.evByContent[key]);
    }
  }

  lemma ShownByGet(env: Env, s: State, op: Op, entry: EvidenceEntry)
    requires Inv(env, s) && op.DoGetEvidence? && entry in EvidenceShown(Step(env, s, op).reply)
    ensures ShownFrom(env, Step(env, s, op).state, op, Step(env, s, op).reply, entry)
  {
    hide Inv, Tree, SthOf, Deletable;
    RecordIds(env, s, op.evidenceId);
  }

  lemma ShownByUpdate(env: Env, s: State, op: Op, entry: EvidenceEntry)
    requires Inv(env, s) && op.DoUpdateRetention? && entry in EvidenceShown(Step(env, s, op).reply)
    ensures ShownFrom(env, Step(env, s, op).state, op, Step(env, s, op).reply, entry)
  {
    hide Inv, Tree, SthOf, Deletable, ContentKey, ExtendedUntil;
    RecordIds(env, s, op.evidenceId);
  }

  lemma ShownByBundle(env: Env, s: State, op: Op, entry: EvidenceEntry)
    requires Inv(env, s) && Possible(s, op) && op.DoVerifyBundle? && entry in EvidenceShown(Step(env, s, op).reply)
    ensures ShownFrom(env, Step(env, s, op).state, op, Step(env, s, op).reply, entry)
  {
    hide Inv, VerifyBundle, OnlyCaches, SthOf, Deletable, BundleEntries;
    BundleIs(env, s, op.subject, op.atts, op.evs, op.now, op.answers);
    BundleOnlyCaches(env, s, op.atts, op.evs, op.now, op.answers);
    CachingKeepsEvidenceEntries(env, s, Step(env, s, op).state, op.evs, op.now);
    var i: nat :| i < |op.evs| && entry == EntryOf(env, s, s.evById[op.evs[i]], op.now);
    RecordIds(env, s, op.evs[i]);
  }

  /** At every step of every run, for every evidence entry it shows, by registering, reading, updating or
      in a bundle: the flag `deletable` says whether a delete by the owner at that instant would succeed,
      exactly unless the record is both deleted and due. Deleted records are shown only when a known hash
      is registered again. */
  lemma DeletableFlagExactly(env: Env, ops: seq<Op>, i: nat, entry: EvidenceEntry, at: Text, up: bool)
    requires PossibleRun(env, ops) && i < |ops| && entry in EvidenceShown(ReplyAt(env, ops, i))
    ensures entry.evidenceId in After(env, ops[..i + 1]).evById
    ensures var t, now := After(env, ops[..i + 1]), Now(ops[i]);
            var e := t.evById[entry.evidenceId];
            && ((entry.deletable <==> DeleteEvidence(env, t, e.evidenceId, e.tenant, now, at, up).reply == Deleted)
                <==> !(e.deleted && Deletable(env, e, now)))
            && (e.deleted ==> ops[i].DoRegisterEvidence? && ReplyAt(env, ops, i).EvidenceReply?
                              && ReplyAt(env, ops, i).alreadyRegistered)
  {
    hide Inv, Possible, Step, EvidenceShown, LeafOf, Append, LedgerModel.PutEvidence;
    assert ops[..i + 1][..i] == ops[..i];
    PossiblePrefix(env, ops, i);
    RunKeepsInv(env, ops[..i]);
    ShownEntry(env, After(env, ops[..i]), ops[i], entry);
  }

  // ---------- evidence and its leaf ----------

  /** Registering writes the leaf of the record as registered. */
  lemma RegisteredLeaf(env: Env, s: State, op: Op)
    requires Inv(env, s) && op.DoRegisterEvidence?
    requires Step(env, s, op).reply.EvidenceReply? && !Step(env, s, op).reply.alreadyRegistered
    ensures var t, id := Step(env, s, op).state, op.evidenceId;
            id in t.evById && LeafAt(t, t.evById[id].logId, t.evById[id].leafIndex, EvidenceLeaf(t.evById[id]))
  {
    hide Tree, ContentKey, LeafOf, TenantLogId, Append, Lower, SthOf, Deletable, Inv, RegisterEvidence, EvidenceDto;
    var contentHash, logId := Lower(op.evidence.contentHash), TenantLogId(op.tenant);
    var hold := match op.evidence.legalHold { case Some(b) => b case None => false };
    var leaf := LeafOf(EvidenceFields(op.evidenceId, contentHash, op.evidence.until, op.evidence.basis, hold));
    var t := Append(s, logId, leaf);
    NotRegisteredBefore(env, s, op);
    RegisteredIs(env, s, op.evidence, op.tenant, op.evidenceId, op.now, op.anchorUp);
    LowerTwice(op.evidence.contentHash);
    AppendedTree(s, logId, leaf, logId);
    SameTrees(t, Step(env, s, op).state);
  }

  lemma NotRegisteredBefore(env: Env, s: State, op: Op)
    requires Inv(env, s) && op.DoRegisterEvidence?
    requires Step(env, s, op).reply.EvidenceReply? && !Step(env, s, op).reply.alreadyRegistered
    ensures ContentKey(op.tenant, Lower(op.evidence.contentHash)) !in s.evByContent
  {
    hide Tree, ContentKey, Lower, LeafOf, TenantLogId, SthOf, EntryOf, Append, GetLog, Inv;
    KeyLeadsToRecord(env, s, ContentKey(op.tenant, Lower(op.evidence.contentHash)));
  }

  /** The leaf of an evidence record stays the one written at registration, while the record's date and
      hold may change without a new leaf. So the leaf encodes the record exactly as long as both are
      what they were. */
  lemma EvidenceLeafIsRegistration(env: Env, ops: seq<Op>, i: nat, k: nat, id: Text)
    requires PossibleRun(env, ops) && i < k <= |ops|
    requires ops[i].DoRegisterEvidence? && ops[i].evidenceId == id
    requires ReplyAt(env, ops, i).EvidenceReply? && !ReplyAt(env, ops, i).alreadyRegistered
    ensures id in After(env, ops[..i + 1]).evById && id in After(env, ops[..k]).evById
    ensures var e, f, t := After(env, ops[..i + 1]).evById[id], After(env, ops[..k]).evById[id], After(env, ops[..k]);
            && LeafAt(t, f.logId, f.leafIndex, EvidenceLeaf(e))
            && (NewlineFree(EvidenceFields(e.evidenceId, e.contentHash, e.until, e.basis, e.legalHold))
                && NewlineFree(EvidenceFields(f.evidenceId, f.contentHash, f.until, f.basis, f.legalHold)) ==>
                  (LeafAt(t, f.logId, f.leafIndex, EvidenceLeaf(f))
                   <==> LeafEncodings.SameText(f.until, e.until) && f.legalHold == e.legalHold))
  {
    hide Inv, Evolves, Step, Tree, EvidenceFields, LeafOf, NewlineFree, LeafEncodings.SameText;
    assert ops[..i + 1][..i] == ops[..i];
    RunEvolvesBetween(env, ops, i, i);
    RegisteredLeaf(env, After(env, ops[..i]), ops[i]);
    RunEvolvesBetween(env, ops, i + 1, k);
    var s, t := After(env, ops[..i + 1]), After(env, ops[..k]);
    EvidenceGrown(env, s, t, id);
    LeafStays(env, s, t, s.evById[id].logId, s.evById[id].leafIndex, EvidenceLeaf(s.evById[id]));
    var e, f := s.evById[id], t.evById[id];
    if NewlineFree(EvidenceFields(e.evidenceId, e.contentHash, e.until, e.basis, e.legalHold))
       && NewlineFree(EvidenceFields(f.evidenceId, f.contentHash, f.until, f.basis, f.legalHold)) {
      SameLeafSameRetention(e, f);
    }
  }

  lemma LeafStays(env: Env, s: State, t: State, logId: Text, index: nat, leaf: Bytes)
    requires Evolves(env, s, t) && LeafAt(s, logId, index, leaf)
    ensures LeafAt(t, logId, index, leaf)
  {
    hide Tree;
    assert Tree(s, logId) <= Tree(t, logId);
  }

  lemma SameLeafSameRetention(e: Evidence, f: Evidence)
    requires f == e.(until := f.until, legalHold := f.legalHold, deleted := f.deleted)
    requires NewlineFree(EvidenceFields(e.evidenceId, e.contentHash, e.until, e.basis, e.legalHold))
    requires NewlineFree(EvidenceFields(f.evidenceId, f.contentHash, f.until, f.basis, f.legalHold))
    ensures EvidenceLeaf(e) == EvidenceLeaf(f)
       <==> LeafEncodings.SameText(f.until, e.until) && f.legalHold == e.legalHold
  {
    hide NewlineFree, LeafOf, EvidenceFields, Repaired;
    LeafEncodings.EvidenceLeafInjective(e, f);
  }
}
