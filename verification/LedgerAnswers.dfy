/** What each operation of the ledger answers and changes, request by request, in every state. */
module LedgerAnswers {
  import opened Hashing
  import opened Texts
  import opened MerkleTree
  import opened LedgerModel
  import opened LedgerInvariant
  import opened ContentKeys

  /** The attestations, their index and their histories. */
  predicate SameAttestations(s: State, t: State) {
    t.attById == s.attById && t.attByContent == s.attByContent && t.statuses == s.statuses
  }

  predicate SameEvidence(s: State, t: State) {
    t.evById == s.evById && t.evByContent == s.evByContent
  }

  // ---------- what the parts of an operation leave alone ----------

  lemma WritesKeepAttestations()
    ensures forall s, l, leaf :: SameAttestations(s, Append(s, l, leaf))
    ensures forall s, l :: SameAttestations(s, GetLog(s, l))
    ensures forall s, e :: SameAttestations(s, PutEvidence(s, e))
    ensures forall s, c :: SameAttestations(s, PutCheckpoint(s, c))
  {
    hide Tree, StoredLeaves, ContentKey, CheckpointsOf;
  }

  lemma WritesKeepEvidenceMaps()
    ensures forall s, l, leaf :: SameEvidence(s, Append(s, l, leaf))
    ensures forall s, l :: SameEvidence(s, GetLog(s, l))
    ensures forall s, a :: SameEvidence(s, PutAttestation(s, a))
    ensures forall s, e :: SameEvidence(s, AppendStatus(s, e))
    ensures forall s, c :: SameEvidence(s, PutCheckpoint(s, c))
  {
    hide Tree, StoredLeaves, ContentKey, History, CheckpointsOf;
  }

  lemma BundleKeepsRecords(env: Env, s: State, op: Op)
    requires op.DoVerifyBundle?
    ensures SameAttestations(s, Step(env, s, op).state) && SameEvidence(s, Step(env, s, op).state)
  {
    hide Tree, VerifyBundle;
    BundleOnlyCaches(env, s, op.atts, op.evs, op.now, op.answers);
  }

  /** Attestations change by attesting and by changing a status only. */
  lemma OthersKeepAttestations(env: Env, s: State, op: Op)
    requires !op.DoAnchorAttestation? && !op.DoSetStatus?
    ensures SameAttestations(s, Step(env, s, op).state)
  {
    hide Step;
    if op.DoVerifyBundle? {
      BundleKeepsRecords(env, s, op);
    } else if op.DoRegisterEvidence? {
      RegisteringKeepsAttestations(env, s, op);
    } else if op.DoUpdateRetention? || op.DoDeleteEvidence? || op.DoGetEvidence? {
      EvidenceKeepsAttestations(env, s, op);
    } else {
      ReadingKeepsAttestations(env, s, op);
    }
  }

  lemma RegisteringKeepsAttestations(env: Env, s: State, op: Op)
    requires op.DoRegisterEvidence?
    ensures SameAttestations(s, Step(env, s, op).state)
  {
    hide Tree, LeafOf, ContentKey, Lower, TenantLogId, EntryOf, SthOf, Append, GetLog, PutEvidence;
    WritesKeepAttestations();
    var hold := match op.evidence.legalHold { case Some(b) => b case None => false };
    var fields := EvidenceFields(op.evidenceId, Lower(op.evidence.contentHash), op.evidence.until,
                                 op.evidence.basis, hold);
    AppendedTree(s, TenantLogId(op.tenant), LeafOf(fields), TenantLogId(op.tenant));
  }

  lemma EvidenceKeepsAttestations(env: Env, s: State, op: Op)
    requires op.DoUpdateRetention? || op.DoDeleteEvidence? || op.DoGetEvidence?
    ensures SameAttestations(s, Step(env, s, op).state)
  {
    hide Tree, LeafOf, ContentKey, EntryOf, SthOf, ExtendedUntil, Append, GetLog, PutEvidence;
    WritesKeepAttestations();
  }

  lemma ReadingKeepsAttestations(env: Env, s: State, op: Op)
    requires !op.DoVerifyBundle? && !op.DoAnchorAttestation? && !op.DoSetStatus? && !op.DoRegisterEvidence?
    requires !op.DoUpdateRetention? && !op.DoDeleteEvidence? && !op.DoGetEvidence?
    ensures SameAttestations(s, Step(env, s, op).state)
  {
    hide Tree, Mth, InclusionFor, SthOf, Path, GetLog, PutCheckpoint;
    WritesKeepAttestations();
  }

  /** Evidence changes by registering, by changing its retention and by deleting only. */
  lemma OthersKeepEvidence(env: Env, s: State, op: Op)
    requires !op.DoRegisterEvidence? && !op.DoUpdateRetention? && !op.DoDeleteEvidence?
    ensures SameEvidence(s, Step(env, s, op).state)
  {
    hide Step;
    if op.DoVerifyBundle? {
      BundleKeepsRecords(env, s, op);
    } else if op.DoAnchorAttestation? || op.DoSetStatus? {
      AttestingKeepsEvidence(env, s, op);
    } else {
      ReadingKeepsEvidence(env, s, op);
    }
  }

  lemma AttestingKeepsEvidence(env: Env, s: State, op: Op)
    requires op.DoAnchorAttestation? || op.DoSetStatus?
    ensures SameEvidence(s, Step(env, s, op).state)
  {
    hide Tree, ContentKey, Lower, LeafOf, TenantLogId, SthOf, InclusionFor, Path, Append, GetLog, PutAttestation,
         AppendStatus;
    WritesKeepEvidenceMaps();
  }

  lemma ReadingKeepsEvidence(env: Env, s: State, op: Op)
    requires !op.DoRegisterEvidence? && !op.DoUpdateRetention? && !op.DoDeleteEvidence?
    requires !op.DoAnchorAttestation? && !op.DoSetStatus? && !op.DoVerifyBundle?
    ensures SameEvidence(s, Step(env, s, op).state)
  {
    hide Tree, Mth, SthOf, InclusionFor, EntryOf, Path, GetLog, PutCheckpoint;
    WritesKeepEvidenceMaps();
  }

  // ---------- attesting ----------

  /** The record says what the request said. */
  predicate FromRequest(a: Attestation, op: Op)
    requires op.DoAnchorAttestation?
  {
    && a.registryId == op.registryId && a.tenant == op.tenant && a.anchoredAt == op.at
    && a.subject == op.req.subject && a.issuer == op.req.issuer && a.recordType == op.req.recordType
    && a.passport == op.req.passport && SameUpToCase(a.contentHash, op.req.contentHash)
  }

  /** A known key is answered with the record it leads to, and nothing is stored; for a new one a record is stored
      that says what the request said, once the anchor service has answered. */
  lemma AttestingAnswers(env: Env, s: State, op: Op)
    requires Inv(env, s) && Possible(s, op) && op.DoAnchorAttestation?
    ensures var o, key := Step(env, s, op), ContentKey(op.tenant, op.req.contentHash);
            && (o.reply.AttestationReply? <==> op.anchorUp)
            && (!op.anchorUp ==> o.reply == Failed(ChainUnavailable) && SameAttestations(s, o.state))
            && (op.anchorUp && key in s.attByContent ==>
                  && o.reply.alreadyAnchored && o.reply.attestationId == s.attByContent[key]
                  && SameAttestations(s, o.state))
            && (op.anchorUp && key !in s.attByContent ==>
                  && !o.reply.alreadyAnchored && o.reply.attestationId == op.registryId
                  && op.registryId !in s.attById && op.registryId in o.state.attById
                  && FromRequest(o.state.attById[op.registryId], op)
                  && o.state.attById[op.registryId].status == Active
                  && o.state.attById == s.attById[op.registryId := o.state.attById[op.registryId]]
                  && o.state.attByContent == s.attByContent[key := op.registryId]
                  && History(s, op.registryId) == [] && |History(o.state, op.registryId)| == 1
                  && o.state.statuses == s.statuses[op.registryId := History(o.state, op.registryId)])
  {
    hide Inv, Possible, Tree, Append, ContentKey, Lower, TenantLogId, LeafOf, SthOf, Path, SameUpToCase,
         AnchorAttestation;
    KeyOfLowered(op.tenant, op.req.contentHash);
    var key := ContentKey(op.tenant, op.req.contentHash);
    KeyLeadsToRecord(env, s, key);
    if key in s.attByContent {
      KnownAttestation(env, s, op);
    } else {
      NewAttestation(env, s, op);
    }
  }

  lemma KeyOfLowered(tenant: Text, hash: Text)
    ensures ContentKey(tenant, Lower(hash)) == ContentKey(tenant, hash)
  {
    LowerTwice(hash);
  }

  lemma KnownAttestation(env: Env, s: State, op: Op)
    requires Inv(env, s) && op.DoAnchorAttestation?
    requires ContentKey(op.tenant, Lower(op.req.contentHash)) in s.attByContent
    ensures var o, id := Step(env, s, op), s.attByContent[ContentKey(op.tenant, Lower(op.req.contentHash))];
            && SameAttestations(s, o.state)
            && if op.anchorUp then o.reply.AttestationReply? && o.reply.alreadyAnchored && o.reply.attestationId == id
               else o.reply == Failed(ChainUnavailable)
  {
    hide Inv, Tree, ContentKey, Lower, LeafOf, SthOf, Path, AttestationLeaf;
    var id := s.attByContent[ContentKey(op.tenant, Lower(op.req.contentHash))];
    KeyLeadsToRecord(env, s, ContentKey(op.tenant, Lower(op.req.contentHash)));
    RecordIds(env, s, id);
    StoredInTree(env, s, id);
    GetLogKeepsInv(env, s, s.attById[id].logId);
  }

  lemma StoredInTree(env: Env, s: State, id: Text)
    requires Inv(env, s) && id in s.attById
    ensures s.attById[id].leafIndex < |Tree(s, s.attById[id].logId)|
  {
    hide Tree, AttestationLeaf, ContentKey, Lower, TenantLogId;
    assert AttestationSound(env, s, id);
  }

  lemma NewAttestation(env: Env, s: State, op: Op)
    requires Possible(s, op) && op.DoAnchorAttestation?
    requires ContentKey(op.tenant, Lower(op.req.contentHash)) !in s.attByContent
    ensures var o, key := Step(env, s, op), ContentKey(op.tenant, Lower(op.req.contentHash));
            if op.anchorUp then
              && o.reply.AttestationReply? && !o.reply.alreadyAnchored && o.reply.attestationId == op.registryId
              && op.registryId !in s.attById && op.registryId in o.state.attById
              && FromRequest(o.state.attById[op.registryId], op)
              && o.state.attById[op.registryId].status == Active
              && o.state.attById == s.attById[op.registryId := o.state.attById[op.registryId]]
              && o.state.attByContent == s.attByContent[key := op.registryId]
              && History(s, op.registryId) == [] && |History(o.state, op.registryId)| == 1
              && o.state.statuses == s.statuses[op.registryId := History(o.state, op.registryId)]
            else o.reply == Failed(ChainUnavailable) && SameAttestations(s, o.state)
  {
    hide Tree, Append, ContentKey, Lower, TenantLogId, LeafOf, SthOf, Path, SameUpToCase, AnchorAttestation;
    WritesKeepAttestations();
    AnchoredIs(env, s, op.req, op.tenant, op.registryId, op.at, op.anchorUp);
    LowerExactly(op.req.contentHash, op.req.contentHash);
    SameUpToCaseSymmetric(op.req.contentHash, Lower(op.req.contentHash));
    KeyOfLowered(op.tenant, op.req.contentHash);
  }

  // ---------- changing a status ----------

  /** The entry says what the request said: revoked exactly if that was asked for. */
  predicate EntryFromRequest(e: StatusEntry, op: Op)
    requires op.DoSetStatus?
  {
    && (e.status == Revoked <==> op.action == Revoke) && (e.status == Superseded <==> op.action == Supersede)
    && e.registryId == op.registryId && e.since == op.since && e.actor == op.tenant
    && e.supersededBy == op.supersededBy
  }

  /** A change of status is refused for an unknown record, for another tenant and after a revocation, in this
      order; otherwise, once the anchor service has answered, it is what was asked for, in the reply, the record
      and the history. */
  lemma StatusAnswers(env: Env, s: State, op: Op)
    requires Inv(env, s) && op.DoSetStatus?
    ensures var o, id := Step(env, s, op), op.registryId;
            if id !in s.attById then o == Outcome(s, Failed(NotFound), [])
            else if s.attById[id].tenant != op.tenant then o == Outcome(s, Failed(ForbiddenTenant), [])
            else if s.attById[id].status == Revoked then o == Outcome(s, Failed(StatusConflict), [])
            else if !op.anchorUp then o.reply == Failed(ChainUnavailable) && SameAttestations(s, o.state)
            else
              && o.reply.StatusReply? && o.reply.statusOf == id
              && (o.reply.status == Revoked <==> op.action == Revoke)
              && (o.reply.status == Superseded <==> op.action == Supersede)
              && o.reply.since == op.since && o.reply.actor == op.tenant && o.reply.supersededBy == op.supersededBy
              && o.state.attById == s.attById[id := s.attById[id].(status := o.reply.status)]
              && o.state.attByContent == s.attByContent
              && |History(o.state, id)| == |History(s, id)| + 1
              && History(o.state, id)[..|History(s, id)|] == History(s, id)
              && EntryFromRequest(History(o.state, id)[|History(s, id)|], op)
              && o.state.statuses == s.statuses[id := History(o.state, id)]
  {
    hide Inv, Tree, Append, LeafOf, SthOf, Path;
    RecordIds(env, s, op.registryId);
    WritesKeepAttestations();
  }

  // ---------- registering evidence ----------

  predicate EvidenceFromRequest(e: Evidence, op: Op)
    requires op.DoRegisterEvidence?
  {
    && e.evidenceId == op.evidenceId && e.tenant == op.tenant && !e.deleted
    && e.until == op.evidence.until && e.basis == op.evidence.basis
    && (e.legalHold <==> op.evidence.legalHold == Some(true))
    && e.subject == op.evidence.subject && e.passport == op.evidence.passport
    && SameUpToCase(e.contentHash, op.evidence.contentHash)
  }

  /** The entry shows the record. */
  predicate Shows(entry: EvidenceEntry, e: Evidence) {
    && entry.evidenceId == e.evidenceId && entry.contentHash == e.contentHash && entry.until == e.until
    && entry.legalHold == e.legalHold
  }

  /** A known key is answered with the record it leads to, as it is now, and nothing is stored; for a new one a
      record is stored that says what the request said, once the anchor service has answered. */
  lemma RegisteringAnswers(env: Env, s: State, op: Op)
    requires Inv(env, s) && Possible(s, op) && op.DoRegisterEvidence?
    ensures var o, key := Step(env, s, op), ContentKey(op.tenant, op.evidence.contentHash);
            && (o.reply.EvidenceReply? <==> op.anchorUp)
            && (!op.anchorUp ==> o.reply == Failed(ChainUnavailable) && SameEvidence(s, o.state))
            && (op.anchorUp && key in s.evByContent ==>
                  && o.reply.alreadyRegistered && o.reply.entry.evidenceId == s.evByContent[key]
                  && s.evByContent[key] in s.evById && Shows(o.reply.entry, s.evById[s.evByContent[key]])
                  && SameEvidence(s, o.state))
            && (op.anchorUp && key !in s.evByContent ==>
                  && !o.reply.alreadyRegistered && o.reply.entry.evidenceId == op.evidenceId
                  && op.evidenceId !in s.evById && op.evidenceId in o.state.evById
                  && EvidenceFromRequest(o.state.evById[op.evidenceId], op)
                  && Shows(o.reply.entry, o.state.evById[op.evidenceId])
                  && o.state.evById == s.evById[op.evidenceId := o.state.evById[op.evidenceId]]
                  && o.state.evByContent == s.evByContent[key := op.evidenceId])
  {
    hide Inv, Possible, Tree, Append, ContentKey, Lower, TenantLogId, LeafOf, SthOf, SameUpToCase, RegisterEvidence;
    KeyOfLowered(op.tenant, op.evidence.contentHash);
    var key := ContentKey(op.tenant, op.evidence.contentHash);
    KeyLeadsToRecord(env, s, key);
    if key in s.evByContent {
      KnownEvidence(env, s, op);
    } else {
      NewEvidence(env, s, op);
    }
  }

  lemma KnownEvidence(env: Env, s: State, op: Op)
    requires Inv(env, s) && op.DoRegisterEvidence?
    requires ContentKey(op.tenant, Lower(op.evidence.contentHash)) in s.evByContent
    ensures var o, id := Step(env, s, op), s.evByContent[ContentKey(op.tenant, Lower(op.evidence.contentHash))];
            && SameEvidence(s, o.state) && id in s.evById
            && if op.anchorUp then
                 && o.reply.EvidenceReply? && o.reply.alreadyRegistered && o.reply.entry.evidenceId == id
                 && Shows(o.reply.entry, s.evById[id])
               else o.reply == Failed(ChainUnavailable)
  {
    hide Inv, Tree, ContentKey, Lower, LeafOf, TenantLogId, SthOf, Deletable;
    var id := s.evByContent[ContentKey(op.tenant, Lower(op.evidence.contentHash))];
    KeyLeadsToRecord(env, s, ContentKey(op.tenant, Lower(op.evidence.contentHash)));
    RecordIds(env, s, id);
  }

  lemma NewEvidence(env: Env, s: State, op: Op)
    requires Possible(s, op) && op.DoRegisterEvidence?
    requires ContentKey(op.tenant, Lower(op.evidence.contentHash)) !in s.evByContent
    ensures var o, key := Step(env, s, op), ContentKey(op.tenant, Lower(op.evidence.contentHash));
            if op.anchorUp then
              && o.reply.EvidenceReply? && !o.reply.alreadyRegistered && o.reply.entry.evidenceId == op.evidenceId
              && op.evidenceId !in s.evById && op.evidenceId in o.state.evById
              && EvidenceFromRequest(o.state.evById[op.evidenceId], op)
              && Shows(o.reply.entry, o.state.evById[op.evidenceId])
              && o.state.evById == s.evById[op.evidenceId := o.state.evById[op.evidenceId]]
              && o.state.evByContent == s.evByContent[key := op.evidenceId]
            else o.reply == Failed(ChainUnavailable) && SameEvidence(s, o.state)
  {
    hide Tree, Append, ContentKey, Lower, TenantLogId, LeafOf, SthOf, SameUpToCase, RegisterEvidence, Deletable;
    WritesKeepEvidenceMaps();
    RegisteredIs(env, s, op.evidence, op.tenant, op.evidenceId, op.now, op.anchorUp);
    LowerExactly(op.evidence.contentHash, op.evidence.contentHash);
    SameUpToCaseSymmetric(op.evidence.contentHash, Lower(op.evidence.contentHash));
    KeyOfLowered(op.tenant, op.evidence.contentHash);
  }

  // ---------- retention ----------

  predicate Stored(s: State, id: Text) {
    id in s.evById && !s.evById[id].deleted
  }

  /** The record keeps a date that can be read and that the requested one lies before. */
  predicate Shortens(env: Env, until: Text, text: Text) {
    && env.parseDate(text).Some? && env.parseDate(until).Some?
    && env.parseDate(text).value < env.parseDate(until).value
  }

  /** The record after the request was granted. */
  predicate AsRequested(e: Evidence, f: Evidence, op: Op)
    requires op.DoUpdateRetention?
  {
    && f == e.(until := f.until, legalHold := f.legalHold)
    && (op.extendUntil.Some? ==> f.until == op.extendUntil.value) && (op.extendUntil.None? ==> f.until == e.until)
    && (op.legalHold.Some? ==> f.legalHold == op.legalHold.value)
    && (op.legalHold.None? ==> f.legalHold == e.legalHold)
  }

  /** A change of retention is refused for an unknown or deleted record, for another tenant, for a date that cannot
      be read and for an earlier one, in this order; otherwise the record carries exactly what was asked for, even
      if the anchor service then fails, and so does the reply. */
  lemma RetentionAnswers(env: Env, s: State, op: Op)
    requires Inv(env, s) && op.DoUpdateRetention?
    ensures var o, id := Step(env, s, op), op.evidenceId;
            if !Stored(s, id) then o == Outcome(s, Failed(NotFound), [])
            else if s.evById[id].tenant != op.tenant then o == Outcome(s, Failed(ForbiddenTenant), [])
            else if op.extendUntil.Some? && env.parseDate(op.extendUntil.value).None? then
              o == Outcome(s, Failed(InvalidRequest), [])
            else if op.extendUntil.Some? && Shortens(env, s.evById[id].until, op.extendUntil.value) then
              o == Outcome(s, Failed(StatusConflict), [])
            else
              && id in o.state.evById && AsRequested(s.evById[id], o.state.evById[id], op)
              && o.state.evById == s.evById[id := o.state.evById[id]]
              && o.state.evByContent == s.evByContent
              && (o.reply.EvidenceReply? <==> op.anchorUp) && (!op.anchorUp ==> o.reply == Failed(ChainUnavailable))
              && (op.anchorUp ==>
                    && o.reply.entry.evidenceId == id && !o.reply.alreadyRegistered
                    && Shows(o.reply.entry, o.state.evById[id]))
  {
    hide Inv, Tree, SthOf, ContentKey, Deletable, ExtendedUntil, LedgerModel.PutEvidence, GetLog, AsRequested,
         EvidenceDto;
    if Stored(s, op.evidenceId) && s.evById[op.evidenceId].tenant == op.tenant {
      var e := s.evById[op.evidenceId];
      RecordIds(env, s, op.evidenceId);
      ExtensionIs(env, e.until, op.extendUntil);
      match ExtendedUntil(env, e.until, op.extendUntil)
      case Refused(_) =>
      case NewUntil(until) =>
        var f := e.(until := until, legalHold := match op.legalHold { case Some(b) => b case None => e.legalHold });
        RetentionGranted(env, s, f, op.now, op.anchorUp);
        Granted(e, f, op);
    }
  }

  lemma Granted(e: Evidence, f: Evidence, op: Op)
    requires op.DoUpdateRetention?
    requires f == e.(until := match op.extendUntil { case Some(text) => text case None => e.until },
                     legalHold := match op.legalHold { case Some(b) => b case None => e.legalHold })
    ensures AsRequested(e, f, op)
  {
  }

  lemma RetentionGranted(env: Env, s: State, f: Evidence, now: int, up: bool)
    requires Inv(env, s) && f.evidenceId in s.evById
    requires f.tenant == s.evById[f.evidenceId].tenant && f.contentHash == s.evById[f.evidenceId].contentHash
    ensures var o := EvidenceDto(env, PutEvidence(s, f), f, false, now, up);
            && o.state.evById == s.evById[f.evidenceId := f] && o.state.evByContent == s.evByContent
            && if up then
                 o.reply.EvidenceReply? && !o.reply.alreadyRegistered && Shows(o.reply.entry, f)
               else o.reply == Failed(ChainUnavailable)
  {
    hide Inv, Tree, SthOf, ContentKey, Deletable, LedgerModel.PutEvidence;
    PutAgain(env, s, f);
  }

  lemma ExtensionIs(env: Env, until: Text, extend: Option<Text>)
    ensures ExtendedUntil(env, until, extend)
         == if extend == None then NewUntil(until)
            else if env.parseDate(extend.value) == None then Refused(InvalidRequest)
            else if Shortens(env, until, extend.value) then Refused(StatusConflict)
            else NewUntil(extend.value)
  {
  }

  /** Storing a changed record again changes nothing else. */
  lemma PutAgain(env: Env, s: State, f: Evidence)
    requires Inv(env, s) && f.evidenceId in s.evById
    requires f.tenant == s.evById[f.evidenceId].tenant && f.contentHash == s.evById[f.evidenceId].contentHash
    ensures PutEvidence(s, f) == s.(evById := s.evById[f.evidenceId := f])
  {
    hide Inv, ContentKey;
    KeyStored(env, s, f.evidenceId);
  }

  lemma KeyStored(env: Env, s: State, id: Text)
    requires Inv(env, s) && id in s.evById
    ensures var key := ContentKey(s.evById[id].tenant, s.evById[id].contentHash);
            key in s.evByContent && s.evByContent[key] == id
  {
    hide RecordsSound, CacheAgrees, ContentKey;
    KeyOf(env, s, id);
  }

  /** The date lies in the future, or there is a hold. */
  predicate Locked(env: Env, e: Evidence, now: int) {
    e.legalHold || (env.parseDate(e.until).Some? && env.parseDate(e.until).value > now)
  }

  /** A delete is refused for an unknown or deleted record, for another tenant, and while the record is locked;
      otherwise the record is marked and stays. */
  lemma DeleteAnswers(env: Env, s: State, op: Op)
    requires Inv(env, s) && op.DoDeleteEvidence?
    ensures var o, id := Step(env, s, op), op.evidenceId;
            if !Stored(s, id) then o == Outcome(s, Failed(NotFound), [])
            else if s.evById[id].tenant != op.tenant then o == Outcome(s, Failed(ForbiddenTenant), [])
            else if Locked(env, s.evById[id], op.now) then
              && SameEvidence(s, o.state) && |o.handed| == 1
              && o.reply == Failed(if op.anchorUp then RetentionLocked else ChainUnavailable)
            else
              && o.reply == Deleted && o.handed == []
              && o.state.evById == s.evById[id := s.evById[id].(deleted := true)]
              && o.state.evByContent == s.evByContent
  {
    hide Inv, Tree, SthOf, ContentKey, LeafOf, Append, LedgerModel.PutEvidence;
    RecordIds(env, s, op.evidenceId);
    WritesKeepEvidenceMaps();
    if op.evidenceId in s.evById {
      PutAgain(env, s, s.evById[op.evidenceId].(deleted := true));
    }
  }

  // ---------- reading ----------

  /** A proof of inclusion is given at the requested size, or else at the size of the log, exactly if there are
      that many leaves and the record's is one of them. */
  lemma InclusionAnswers(env: Env, s: State, op: Op)
    requires op.DoGetInclusion?
    ensures var o, id := Step(env, s, op), op.registryId;
            if id !in s.attById then o == Outcome(s, Failed(NotFound), [])
            else
              var a, current := s.attById[id], |Tree(s, s.attById[id].logId)|;
              var size := if op.treeSize.Some? then op.treeSize.value else current;
              if !(a.leafIndex < size <= current) then
                o.reply == Failed(ProofUnavailable) && o.handed == []
              else if !op.anchorUp then o.reply == Failed(ChainUnavailable)
              else
                && o.reply.InclusionReply? && o.reply.registryId == id
                && o.reply.sth.treeSize == size && o.reply.sth.logId == a.logId
                && o.reply.inclusion.treeSize == size && o.reply.inclusion.leafIndex == a.leafIndex
  {
    hide DecodeAll, Mth, Path;
  }

  /** A consistency path is given between the two requested sizes exactly if the log has that many leaves and both
      heads could be anchored. */
  lemma ConsistencyAnswers(env: Env, s: State, op: Op)
    requires op.DoGetConsistency?
    ensures var o, current := Step(env, s, op), |Tree(s, op.logId)|;
            && (o.reply.ConsistencyReply?
                <==> StoredLeaves(s, op.logId) != [] && 1 <= op.first <= op.second <= current && op.answers >= 2)
            && (o.reply == Failed(ProofUnavailable)
                <==> StoredLeaves(s, op.logId) == [] || !(1 <= op.first <= op.second <= current))
            && (o.reply.ConsistencyReply? ==>
                  && o.reply.logId == op.logId
                  && o.reply.first.treeSize == op.first && o.reply.second.treeSize == op.second
                  && o.reply.first.logId == op.logId == o.reply.second.logId)
  {
    hide DecodeAll, Mth;
  }

  /** A checkpoint is taken for any log and with any root, once the anchor service has answered, and comes last. */
  lemma CheckpointAnswers(env: Env, s: State, op: Op)
    requires op.DoSubmitCheckpoint?
    ensures var o, l := Step(env, s, op), op.head.logId;
            if op.anchorUp then
              && o.reply == CheckpointReply(op.checkpointId, op.head) && l in o.state.checkpoints
              && o.state.checkpoints[l] == CheckpointsOf(s, l) + [Checkpoint(op.checkpointId, op.head)]
              && o.state == s.(checkpoints := s.checkpoints[l := o.state.checkpoints[l]])
            else o.reply == Failed(ChainUnavailable) && o.state == s
  {
  }

  /** Records are found exactly if they are stored and, for evidence, not deleted. */
  lemma ReadsFind(env: Env, s: State, op: Op)
    requires Inv(env, s) && (op.DoGetAttestation? || op.DoGetStatusRecord? || op.DoGetEvidence?)
    ensures var o := Step(env, s, op);
            var found := if op.DoGetEvidence? then Stored(s, op.evidenceId) else op.registryId in s.attById;
            && (o.reply == Failed(NotFound) <==> !found)
            && (found && op.anchorUp && op.DoGetAttestation? ==>
                  && o.reply.AttestationReply? && o.reply.attestationId == op.registryId && !o.reply.alreadyAnchored
                  && o.reply.status == s.attById[op.registryId].status
                  && o.reply.leafIndex == s.attById[op.registryId].leafIndex)
            && (found && op.anchorUp && op.DoGetEvidence? ==>
                  && o.reply.EvidenceReply? && o.reply.entry.evidenceId == op.evidenceId
                  && !o.reply.alreadyRegistered && Shows(o.reply.entry, s.evById[op.evidenceId]))
            && (found && op.anchorUp && op.DoGetStatusRecord? ==>
                  && o.reply.StatusReply? && o.reply.statusOf == op.registryId
                  && o.reply.status == s.attById[op.registryId].status)
  {
    hide Inv, Tree, Mth, SthOf, Deletable, Path, AttestationLeaf;
    if op.DoGetEvidence? {
      RecordIds(env, s, op.evidenceId);
    } else {
      RecordIds(env, s, op.registryId);
      if op.registryId in s.attById {
        StoredInTree(env, s, op.registryId);
        HistoryInsideTree(env, s, op.registryId);
        GetLogKeepsInv(env, s, s.attById[op.registryId].logId);
      }
    }
  }
}
