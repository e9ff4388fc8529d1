/** Runs of the ledger on one evidence record, where the code does not do what one would expect. */
module EvidenceRuns {
  import opened Hashing
  import opened Texts
  import opened LedgerModel
  import opened LedgerInvariant
  import opened LedgerRuns
  import LedgerRecords

  function Hold(req: EvidenceRequest): bool {
    match req.legalHold
    case Some(b) => b
    case None => false
  }

  /** The record of a first registration. */
  function FirstEvidence(req: EvidenceRequest, tenant: Text, id: Text): Evidence {
    Evidence(id, Lower(req.contentHash), req.until, req.basis, Hold(req), tenant, TenantLogId(tenant), 0, req.subject,
             req.passport, false)
  }

  function Key(req: EvidenceRequest, tenant: Text): Text {
    ContentKey(tenant, Lower(req.contentHash))
  }

  function Register(req: EvidenceRequest, tenant: Text, id: Text, now: int): Op {
    DoRegisterEvidence(req, tenant, id, now, true)
  }

  /** The ledger holds this record and no other evidence. */
  ghost predicate HoldsOnly(s: State, key: Text, e: Evidence) {
    s.evById == map[e.evidenceId := e] && s.evByContent == map[key := e.evidenceId]
  }

  lemma Registered(env: Env, req: EvidenceRequest, tenant: Text, id: Text, now: int)
    ensures var ops := [Register(req, tenant, id, now)];
            && PossibleRun(env, ops)
            && HoldsOnly(After(env, ops), Key(req, tenant), FirstEvidence(req, tenant, id))
            && ReplyAt(env, ops, 0).EvidenceReply? && !ReplyAt(env, ops, 0).alreadyRegistered
  {
    hide Step;
    var none: seq<Op> := [];
    var op := Register(req, tenant, id, now);
    PossibleRunExtends(env, none, op);
    assert none + [op] == [op];
    FirstRegistration(env, req, tenant, id, now);
  }

  lemma FirstRegistration(env: Env, req: EvidenceRequest, tenant: Text, id: Text, now: int)
    ensures var o := Step(env, Empty(), Register(req, tenant, id, now));
            && HoldsOnly(o.state, Key(req, tenant), FirstEvidence(req, tenant, id))
            && o.reply.EvidenceReply? && !o.reply.alreadyRegistered
  {
    hide Append, Tree, LeafOf, Lower, ContentKey, TenantLogId, SthOf, Deletable;
    var logId := TenantLogId(tenant);
    var leaf := LeafOf(EvidenceFields(id, Lower(req.contentHash), req.until, req.basis, Hold(req)));
    AppendKeepsRecords(Empty(), logId, leaf);
    AppendedTree(Empty(), logId, leaf, logId);
    EmptyTree(logId);
    KeyOfLower(req, tenant);
  }

  lemma KeyOfLower(req: EvidenceRequest, tenant: Text)
    ensures ContentKey(tenant, Lower(req.contentHash)) == Key(req, tenant)
  {
  }

  lemma NextStep(env: Env, ops: seq<Op>, op: Op, t: State, reply: Reply)
    requires PossibleRun(env, ops) && Possible(After(env, ops), op)
    requires Step(env, After(env, ops), op).state == t && Step(env, After(env, ops), op).reply == reply
    ensures PossibleRun(env, ops + [op]) && After(env, ops + [op]) == t && ReplyAt(env, ops + [op], |ops|) == reply
  {
    PossibleRunExtends(env, ops, op);
  }

  // ---------- registered and deleted ----------

  lemma DeleteStep(env: Env, s: State, key: Text, e: Evidence, now: int, at: Text)
    requires HoldsOnly(s, key, e) && key == ContentKey(e.tenant, e.contentHash) && !e.deleted && Deletable(env, e, now)
    ensures var o := Step(env, s, DoDeleteEvidence(e.evidenceId, e.tenant, now, at, true));
            o.reply == Deleted && HoldsOnly(o.state, key, e.(deleted := true))
  {
    hide Append, LeafOf, ContentKey;
  }

  /** Evidence that is not locked when it is registered can be deleted at once. */
  lemma RegisterThenDelete(env: Env, req: EvidenceRequest, tenant: Text, id: Text, now: int, at: Text)
    requires Deletable(env, FirstEvidence(req, tenant, id), now)
    ensures var ops := [Register(req, tenant, id, now), DoDeleteEvidence(id, tenant, now, at, true)];
            && PossibleRun(env, ops) && ReplyAt(env, ops, 1) == Deleted
            && HoldsOnly(After(env, ops), Key(req, tenant), FirstEvidence(req, tenant, id).(deleted := true))
  {
    hide Step, After, ReplyAt, PossibleRun, HoldsOnly, ContentKey, Lower, TenantLogId, Deletable;
    var first := [Register(req, tenant, id, now)];
    var op := DoDeleteEvidence(id, tenant, now, at, true);
    Registered(env, req, tenant, id, now);
    DeleteStep(env, After(env, first), Key(req, tenant), FirstEvidence(req, tenant, id), now, at);
    var o := Step(env, After(env, first), op);
    NextStep(env, first, op, o.state, o.reply);
    assert first + [op] == [Register(req, tenant, id, now), op];
  }

  /** A date of the right shape that is no date, such as 2024-13-45, passes the routes' check of the shape
      and then never locks: the evidence can be deleted at once, whatever the time. */
  lemma UnreadableDateNeverLocks(env: Env, req: EvidenceRequest, tenant: Text, id: Text, now: int, at: Text)
    requires req.until == Ascii("2024-13-45") && env.parseDate(req.until) == None && req.legalHold != Some(true)
    ensures var ops := [Register(req, tenant, id, now), DoDeleteEvidence(id, tenant, now, at, true)];
            PossibleRun(env, ops) && ReplyAt(env, ops, 1) == Deleted
  {
    hide Step, After, ReplyAt, PossibleRun, HoldsOnly;
    RegisterThenDelete(env, req, tenant, id, now, at);
  }

  lemma RegisterAgainStep(env: Env, s: State, req: EvidenceRequest, tenant: Text, e: Evidence, id: Text, now: int)
    requires HoldsOnly(s, Key(req, tenant), e)
    ensures var o := Step(env, s, Register(req, tenant, id, now));
            && o.reply.EvidenceReply? && o.reply.alreadyRegistered && o.reply.entry.evidenceId == e.evidenceId
            && o.reply.entry.deletable == Deletable(env, e, now)
            && HoldsOnly(o.state, Key(req, tenant), e)
  {
    hide Tree, Append, LeafOf, ContentKey, Lower, TenantLogId, SthOf, Deletable;
  }

  /** Registered, deleted and registered again: the reply shows the deleted record and calls it deletable,
      while deleting or reading it answers that it is not found. */
  lemma DeletedIsShownAsDeletable(env: Env, req: EvidenceRequest, tenant: Text, id: Text, id': Text, now: int, at: Text)
    requires Deletable(env, FirstEvidence(req, tenant, id), now) && id' != id
    ensures var ops := [Register(req, tenant, id, now), DoDeleteEvidence(id, tenant, now, at, true),
                        Register(req, tenant, id', now)];
            var r, s := ReplyAt(env, ops, 2), After(env, ops);
            && PossibleRun(env, ops)
            && r.EvidenceReply? && r.alreadyRegistered && r.entry.evidenceId == id && r.entry.deletable
            && DeleteEvidence(env, s, id, tenant, now, at, true).reply == Failed(NotFound)
            && GetEvidence(env, s, id, now, true).reply == Failed(NotFound)
  {
    hide Step, After, ReplyAt, PossibleRun, ContentKey, Lower, TenantLogId, Append, LeafOf, EvidenceDto;
    var two := [Register(req, tenant, id, now), DoDeleteEvidence(id, tenant, now, at, true)];
    var op := Register(req, tenant, id', now);
    RegisterThenDelete(env, req, tenant, id, now, at);
    RegisterAgainStep(env, After(env, two), req, tenant, FirstEvidence(req, tenant, id).(deleted := true), id', now);
    var o := Step(env, After(env, two), op);
    NextStep(env, two, op, o.state, o.reply);
    assert two + [op] == [Register(req, tenant, id, now), DoDeleteEvidence(id, tenant, now, at, true), op];
  }

  // ---------- a hold set later ----------

  lemma HoldStep(env: Env, s: State, key: Text, e: Evidence, now: int)
    requires HoldsOnly(s, key, e) && key == ContentKey(e.tenant, e.contentHash) && !e.deleted
    ensures var o := Step(env, s, DoUpdateRetention(e.evidenceId, Some(true), None, e.tenant, now, true));
            && o.reply.EvidenceReply? && o.reply.entry.legalHold
            && HoldsOnly(o.state, key, e.(legalHold := true))
  {
    hide Tree, SthOf, Deletable, ContentKey;
  }

  /** Registered without a hold and held later: the leaf of the record still says that there is no hold. */
  lemma HeldLaterHasOldLeaf(env: Env, req: EvidenceRequest, tenant: Text, id: Text, now: int)
    requires !Hold(req)
    requires NewlineFree(EvidenceFields(id, Lower(req.contentHash), req.until, req.basis, false))
    requires NewlineFree(EvidenceFields(id, Lower(req.contentHash), req.until, req.basis, true))
    ensures var ops := [Register(req, tenant, id, now), DoUpdateRetention(id, Some(true), None, tenant, now, true)];
            var e, s := FirstEvidence(req, tenant, id), After(env, ops);
            && PossibleRun(env, ops) && id in s.evById && s.evById[id] == e.(legalHold := true)
            && LeafAt(s, e.logId, e.leafIndex, EvidenceLeaf(e))
            && !LeafAt(s, e.logId, e.leafIndex, EvidenceLeaf(s.evById[id]))
  {
    hide Step, After, ReplyAt, PossibleRun, ContentKey, TenantLogId, LeafOf, EvidenceFields, NewlineFree, Tree;
    var first := [Register(req, tenant, id, now)];
    var op := DoUpdateRetention(id, Some(true), None, tenant, now, true);
    var ops := [Register(req, tenant, id, now), op];
    Registered(env, req, tenant, id, now);
    LowerTwice(req.contentHash);
    HoldStep(env, After(env, first), Key(req, tenant), FirstEvidence(req, tenant, id), now);
    var o := Step(env, After(env, first), op);
    NextStep(env, first, op, o.state, o.reply);
    assert first + [op] == ops;
    FirstReply(env, ops);
    assert ops[..0 + 1] == first && ops[..2] == ops;
    LedgerRecords.EvidenceLeafIsRegistration(env, ops, 0, 2, id);
  }

  lemma FirstReply(env: Env, ops: seq<Op>)
    requires |ops| == 2
    ensures ReplyAt(env, ops, 0) == ReplyAt(env, [ops[0]], 0)
  {
    hide Step;
    assert ops[..0] == [ops[0]][..0];
  }
}
