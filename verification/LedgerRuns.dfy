/** What holds over every run of the ledger: any operations, any failures of the anchor service after
    the leaf was written, and restarts that lose every cached tree. */
module LedgerRuns {
  import opened Hashing
  import opened Texts
  import opened MerkleTree
  import opened TransparencyLog
  import opened LedgerModel
  import opened LedgerInvariant
  import InclusionProofs
  import ConsistencyProofs
  import LedgerVerifier

  function After(env: Env, ops: seq<Op>): State {
    if ops == [] then Empty() else Step(env, After(env, ops[..|ops| - 1]), ops[|ops| - 1]).state
  }

  /** The reply to operation i. */
  function ReplyAt(env: Env, ops: seq<Op>, i: nat): Reply
    requires i < |ops|
  {
    Step(env, After(env, ops[..i]), ops[i]).reply
  }

  /** The random ids of a run never repeat an id in use, and bundles list what they should. */
  ghost predicate PossibleRun(env: Env, ops: seq<Op>) {
    forall i | 0 <= i < |ops| :: Possible(After(env, ops[..i]), ops[i])
  }

  lemma PossiblePrefix(env: Env, ops: seq<Op>, i: nat)
    requires PossibleRun(env, ops) && i <= |ops|
    ensures PossibleRun(env, ops[..i])
  {
    forall j | 0 <= j < i
      ensures Possible(After(env, ops[..i][..j]), ops[..i][j])
    {
      assert ops[..i][..j] == ops[..j];
    }
  }

  // ---------- runs exist ----------

  lemma PossibleRunExtends(env: Env, ops: seq<Op>, op: Op)
    requires PossibleRun(env, ops) && Possible(After(env, ops), op)
    ensures PossibleRun(env, ops + [op])
    ensures After(env, ops + [op]) == Step(env, After(env, ops), op).state
    ensures ReplyAt(env, ops + [op], |ops|) == Step(env, After(env, ops), op).reply
  {
    hide Step, Possible;
    var all := ops + [op];
    assert all[..|ops|] == ops;
    forall i | 0 <= i < |all|
      ensures Possible(After(env, all[..i]), all[i])
    {
      if i < |ops| {
        assert all[..i] == ops[..i];
      }
    }
  }

  /** Whatever is asked first, with any id, is a possible run, and it is answered. */
  lemma FirstAttestation(env: Env, req: AttestationRequest, tenant: Text, id: Text, at: Text)
    ensures var ops := [DoAnchorAttestation(req, tenant, id, at, true)];
            PossibleRun(env, ops) && ReplyAt(env, ops, 0).AttestationReply? && id in After(env, ops).attById
  {
    hide Tree, Mth, Path, LeafOf, Lower, ContentKey, TenantLogId;
    var none: seq<Op> := [];
    var op := DoAnchorAttestation(req, tenant, id, at, true);
    PossibleRunExtends(env, none, op);
    assert none + [op] == [op];
  }

  lemma {:induction false} Enumeration(what: set<Text>) returns (ids: seq<Text>)
    ensures NoRepeats(ids) && forall id :: id in ids <==> id in what
    decreases |what|
  {
    if what == {} {
      ids := [];
    } else {
      var id :| id in what;
      var rest := Enumeration(what - {id});
      ids := rest + [id];
    }
  }

  /** A bundle can be asked for in every state. */
  lemma BundlesArePossible(s: State, subject: Text, now: int, answers: nat)
    returns (atts: seq<Text>, evs: seq<Text>)
    ensures Possible(s, DoVerifyBundle(subject, atts, evs, now, answers))
  {
    atts := Enumeration(set id | id in s.attById && AttestationMatches(s.attById[id], subject));
    evs := Enumeration(set id | id in s.evById && EvidenceMatches(s.evById[id], subject));
  }

  // ---------- invariants of runs ----------

  lemma {:induction false} RunKeepsInv(env: Env, ops: seq<Op>)
    requires PossibleRun(env, ops)
    ensures Inv(env, After(env, ops))
  {
    hide Step, Inv, Possible;
    if ops == [] {
      EmptyInv(env);
    } else {
      PossiblePrefix(env, ops, |ops| - 1);
      RunKeepsInv(env, ops[..|ops| - 1]);
      StepKeeps(env, After(env, ops[..|ops| - 1]), ops[|ops| - 1]);
    }
  }

  lemma EmptyInv(env: Env)
    ensures Inv(env, Empty())
  {
  }

  /** Every state of a run grows into every later one. */
  lemma {:induction false} RunEvolves(env: Env, ops: seq<Op>, i: nat)
    requires PossibleRun(env, ops) && i <= |ops|
    ensures Evolves(env, After(env, ops[..i]), After(env, ops))
    decreases |ops|
  {
    hide Step, Inv, Possible, Evolves;
    if i == |ops| {
      assert ops[..i] == ops;
      EvolvesReflexive(env, After(env, ops));
    } else {
      var front := ops[..|ops| - 1];
      PossiblePrefix(env, ops, |front|);
      RunKeepsInv(env, front);
      RunEvolves(env, front, i);
      assert front[..i] == ops[..i];
      StepKeeps(env, After(env, front), ops[|ops| - 1]);
      EvolvesTransitive(env, After(env, ops[..i]), After(env, front), After(env, ops));
    }
  }

  /** The state between two moments of a run. */
  lemma RunEvolvesBetween(env: Env, ops: seq<Op>, i: nat, j: nat)
    requires PossibleRun(env, ops) && i <= j <= |ops|
    ensures Evolves(env, After(env, ops[..i]), After(env, ops[..j]))
    ensures Inv(env, After(env, ops[..i])) && Inv(env, After(env, ops[..j]))
  {
    PossiblePrefix(env, ops, i);
    PossiblePrefix(env, ops, j);
    RunKeepsInv(env, ops[..i]);
    RunKeepsInv(env, ops[..j]);
    RunEvolves(env, ops[..j], i);
    assert ops[..j][..i] == ops[..i];
  }

  // ---------- trees and tree heads ----------

  /** In every run each cached tree is the decoded leaf table of its log. */
  lemma CachedTreesAreStoredLeaves(env: Env, ops: seq<Op>, l: Text)
    requires PossibleRun(env, ops)
    ensures var s := After(env, ops);
            Tree(s, l) == DecodeAll(StoredLeaves(s, l)) && (l in s.logs ==> s.logs[l] == Tree(s, l))
  {
    RunKeepsInv(env, ops);
    TreeIsStored(After(env, ops), l);
  }

  /** The tree head is the root of the first leaves of its log. */
  ghost predicate SthTrue(env: Env, s: State, sth: Sth) {
    sth.treeSize <= |Tree(s, sth.logId)| && sth.root == Mth(env.h, Tree(s, sth.logId)[..sth.treeSize])
  }

  /** The proof is for a leaf of the head's tree, at the head's size, and both verifiers accept it for
      the hash of that leaf against the head's root. */
  ghost predicate ProofTrue(env: Env, s: State, p: InclusionProof, sth: Sth) {
    && SthTrue(env, s, sth)
    && p.leafIndex < p.treeSize == sth.treeSize
    && var leafHash := env.h.leaf(Tree(s, sth.logId)[p.leafIndex]);
       && InclusionProofs.Accepted(env.h, leafHash, p.leafIndex, p.treeSize, p.auditPath, sth.root)
       && LedgerVerifier.InclusionAccepted(env.h, leafHash, p.leafIndex, p.treeSize, p.auditPath, sth.root)
  }

  lemma EmittedProofTrue(env: Env, s: State, logId: Text, index: nat, size: nat)
    requires index < size <= |Tree(s, logId)|
    ensures var tree := Tree(s, logId)[..size];
            ProofTrue(env, s, InclusionProof(index, size, Path(env.h, index, tree)), Sth(logId, size, Mth(env.h, tree)))
  {
    InclusionProofs.Complete(env.h, index, Tree(s, logId)[..size]);
  }

  /** Both verifiers accept the path between the two heads. */
  ghost predicate ConsistencyTrue(env: Env, first: Sth, second: Sth, path: seq<Hash>) {
    && ConsistencyProofs.Accepted(env.h, first.treeSize, first.root, second.treeSize, second.root, path)
    && LedgerVerifier.ConsistencyAccepted(env.h, first.treeSize, first.root, second.treeSize, second.root, path)
  }

  lemma EmittedConsistencyTrue(env: Env, tree: seq<Bytes>, logId: Text, m: nat, n: nat)
    requires 0 < m <= n <= |tree|
    ensures ConsistencyTrue(env, Sth(logId, m, Mth(env.h, tree[..m])), Sth(logId, n, Mth(env.h, tree[..n])),
                            ConsistencyProofs.Proof(env.h, m, tree[..n]))
  {
    assert tree[..n][..m] == tree[..m];
    BothAcceptProof(env.h, m, tree[..n]);
  }

  /** What a reply asserts: its heads, its proofs and its consistency path. Evidence entries carry a
      head only, and of checkpoints nothing is asserted but that they were submitted. */
  ghost predicate ReplyTrue(env: Env, s: State, reply: Reply) {
    match reply
    case AttestationReply(id, status, logId, index, leafHash, p, sth, _) =>
      && ProofTrue(env, s, p, sth) && sth.logId == logId && p.leafIndex == index
      && id in s.attById && s.attById[id].logId == logId && s.attById[id].leafIndex == index
      && s.attById[id].leafHash == leafHash && s.attById[id].status == status
    case InclusionReply(id, p, sth) =>
      ProofTrue(env, s, p, sth) && id in s.attById && s.attById[id].logId == sth.logId
      && s.attById[id].leafIndex == p.leafIndex
    case StatusReply(id, status, since, next, actor, p, sth) =>
      && ProofTrue(env, s, p, sth) && id in s.attById && s.attById[id].logId == sth.logId
      && s.attById[id].status == status && History(s, id) != []
      && var last := History(s, id)[|History(s, id)| - 1];
         && last.status == status && last.since == since && last.supersededBy == next && last.actor == actor
         && last.leafIndex == p.leafIndex
    case ConsistencyReply(_, first, second, path) =>
      SthTrue(env, s, first) && SthTrue(env, s, second) && ConsistencyTrue(env, first, second, path)
    case EvidenceReply(entry, _) => SthTrue(env, s, entry.sth)
    case CheckpointReply(_, sth) => Submitted(s, sth)
    case BundleReply(atts, checkpoints, evs) =>
      && (forall e | e in atts ::
            ProofTrue(env, s, e.inclusion, e.sth) && e.registryId in s.attById
            && s.attById[e.registryId].logId == e.sth.logId
            && s.attById[e.registryId].leafIndex == e.inclusion.leafIndex)
      && (forall c | c in checkpoints :: Submitted(s, c))
      && (forall e | e in evs :: SthTrue(env, s, e.sth))
    case _ => true
  }

  /** The head is stored as a checkpoint. */
  ghost predicate Submitted(s: State, head: Sth) {
    exists l, i | l in s.checkpoints && 0 <= i < |s.checkpoints[l]| :: s.checkpoints[l][i].head == head
  }

  lemma WholeTree(s: State, logId: Text)
    ensures Tree(s, logId)[..|Tree(s, logId)|] == Tree(s, logId)
  {
  }

  lemma RecordInTree(env: Env, s: State, id: Text)
    requires Inv(env, s) && id in s.attById
    ensures var a := s.attById[id];
            && a.registryId == id
            && a.leafIndex < |Tree(s, a.logId)| && Tree(s, a.logId)[a.leafIndex] == AttestationLeaf(a)
            && a.leafHash == env.h.leaf(Tree(s, a.logId)[a.leafIndex])
  {
    assert AttestationSound(env, s, id);
  }

  lemma DtoTrue(env: Env, s: State, id: Text, already: bool, up: bool)
    requires Inv(env, s) && id in s.attById
    ensures var o := AttestationDto(env, s, s.attById[id], already, up);
            ReplyTrue(env, o.state, o.reply) && (up ==> o.reply.AttestationReply? && o.reply.attestationId == id)
  {
    hide Tree, Inv, Mth, ProofTrue, AttestationLeaf;
    var a := s.attById[id];
    var t := GetLog(s, a.logId);
    GetLogKeepsInv(env, s, a.logId);
    RecordInTree(env, s, id);
    WholeTree(t, a.logId);
    EmittedProofTrue(env, t, a.logId, a.leafIndex, |Tree(t, a.logId)|);
  }

  lemma HeadTrue(env: Env, s: State, logId: Text)
    ensures SthTrue(env, s, SthOf(env, s, logId))
  {
    WholeTree(s, logId);
  }

  lemma AnchorReplyTrue(env: Env, s: State, req: AttestationRequest, tenant: Text, id: Text, at: Text, up: bool)
    requires Inv(env, s) && id !in s.attById && id !in s.statuses
    ensures var o := AnchorAttestation(env, s, req, tenant, id, at, up);
            ReplyTrue(env, o.state, o.reply)
  {
    hide Tree, Inv, ContentKey, Lower, TenantLogId, LeafOf, AttestationDto, Append, SthOf, ReplyTrue, Path;
    var contentHash, logId := Lower(req.contentHash), TenantLogId(tenant);
    var key := ContentKey(tenant, contentHash);
    KeyLeadsToRecord(env, s, key);
    if key in s.attByContent {
      DtoTrue(env, s, s.attByContent[key], true, up);
    } else {
      AnchoredIs(env, s, req, tenant, id, at, up);
      var leaf := LeafOf(AttestationFields(id, contentHash, req.subject, req.issuer, req.recordType));
      var t := Append(s, logId, leaf);
      if up {
        var index, leafHash := |Tree(t, logId)| - 1, env.h.leaf(leaf);
        var a := Attestation(id, req.subject, req.issuer, req.recordType, contentHash, Active, tenant, logId, index,
                             leafHash, req.passport, at);
        NewRecordTrue(env, t, a, StatusEntry(id, Active, at, None, req.issuer, logId, index, leafHash));
      } else {
        FailedTrue(env, t, ChainUnavailable);
      }
    }
  }

  /** The reply to a record that has just been written over state t, for the last leaf of its log. */
  lemma NewRecordTrue(env: Env, t: State, a: Attestation, e: StatusEntry)
    requires a.leafIndex == |Tree(t, a.logId)| - 1
    ensures var u := AppendStatus(PutAttestation(t, a), e);
            |Tree(u, a.logId)| == |Tree(t, a.logId)| &&
            ReplyTrue(env, u, AttestationReply(a.registryId, a.status, a.logId, a.leafIndex, a.leafHash,
                                               InclusionProof(a.leafIndex, |Tree(u, a.logId)|,
                                                              Path(env.h, a.leafIndex, Tree(u, a.logId))),
                                               SthOf(env, t, a.logId), false))
  {
    hide Tree, Mth, ProofTrue, ContentKey;
    var u := AppendStatus(PutAttestation(t, a), e);
    SameTrees(t, u);
    WholeTree(u, a.logId);
    EmittedProofTrue(env, u, a.logId, a.leafIndex, |Tree(u, a.logId)|);
  }

  lemma FailedTrue(env: Env, s: State, error: Error)
    ensures ReplyTrue(env, s, Failed(error))
  {
  }

  lemma SetStatusReplyTrue(env: Env, s: State, id: Text, action: Action, next: Option<Text>, tenant: Text,
                           since: Text, up: bool)
    requires Inv(env, s)
    ensures var o := SetStatus(env, s, id, action, next, tenant, since, up);
            ReplyTrue(env, o.state, o.reply)
  {
    hide Tree, Inv, Mth, LeafOf, Append, Evolves, LeafAt, GetLog, SthOf, AppendStatus, ReplyTrue;
    var o := SetStatus(env, s, id, action, next, tenant, since, up);
    if o.reply.Failed? {
      FailedTrue(env, o.state, o.reply.error);
    }
    if id in s.attById && s.attById[id].tenant == tenant && s.attById[id].status != Revoked && up {
      var a := s.attById[id];
      var status := if action == Revoke then Revoked else Superseded;
      var leaf := LeafOf(StatusFields(id, status, since, tenant, next));
      var t := Append(s, a.logId, leaf);
      AppendKeepsInv(env, s, a.logId, leaf);
      AppendKeepsRecords(s, a.logId, leaf);
      var index := |Tree(t, a.logId)| - 1;
      StatusWrittenTrue(env, t, id, a.(status := status),
                        StatusEntry(id, status, since, next, tenant, a.logId, index, env.h.leaf(leaf)));
    }
  }

  /** The reply to a status that has just been written over state t. */
  lemma StatusWrittenTrue(env: Env, t: State, id: Text, a: Attestation, e: StatusEntry)
    requires e.registryId == id && e.status == a.status && e.leafIndex == |Tree(t, a.logId)| - 1
    ensures var u := AppendStatus(t, e).(attById := t.attById[id := a]);
            |Tree(u, a.logId)| == |Tree(t, a.logId)| &&
            ReplyTrue(env, u, StatusReply(id, e.status, e.since, e.supersededBy, e.actor,
                                          InclusionProof(e.leafIndex, |Tree(u, a.logId)|,
                                                         Path(env.h, e.leafIndex, Tree(u, a.logId))),
                                          SthOf(env, t, a.logId)))
  {
    hide Tree, Mth, ProofTrue;
    var u := AppendStatus(t, e).(attById := t.attById[id := a]);
    SameTrees(t, u);
    WholeTree(u, a.logId);
    EmittedProofTrue(env, u, a.logId, e.leafIndex, |Tree(u, a.logId)|);
    assert History(u, id) == History(t, id) + [e];
  }

  lemma StatusRecordReplyTrue(env: Env, s: State, id: Text, up: bool)
    requires Inv(env, s)
    ensures var o := GetStatusRecord(env, s, id, up);
            ReplyTrue(env, o.state, o.reply) && (id in s.attById && up ==> o.reply.StatusReply?)
  {
    hide Tree, Inv, Mth, ProofTrue;
    if id in s.attById {
      var a := s.attById[id];
      var t := GetLog(s, a.logId);
      GetLogKeepsInv(env, s, a.logId);
      LastEntry(env, s, id);
      WholeTree(t, a.logId);
      HistoryInsideTree(env, s, id);
      var hist := s.statuses[id];
      EmittedProofTrue(env, t, a.logId, hist[|hist| - 1].leafIndex, |Tree(t, a.logId)|);
    }
  }

  lemma LastEntry(env: Env, s: State, id: Text)
    requires Inv(env, s) && id in s.attById
    ensures id in s.statuses && s.statuses[id] != []
    ensures s.statuses[id][|s.statuses[id]| - 1].status == s.attById[id].status
  {
    hide EntrySound, AttestationSound, EvidenceSound, IndexesSound, CacheAgrees, StatusLeaf;
    assert HistorySound(env, s, id);
  }

  lemma InclusionReplyTrue(env: Env, s: State, id: Text, size: Option<int>, up: bool)
    requires Inv(env, s)
    ensures var o := GetInclusion(env, s, id, size, up);
            ReplyTrue(env, o.state, o.reply)
  {
    hide Tree, Inv, Mth, ProofTrue;
    if id in s.attById {
      var a := s.attById[id];
      var t := GetLog(s, a.logId);
      var n := match size { case Some(k) => k case None => |Tree(t, a.logId)| };
      if 1 <= n <= |Tree(t, a.logId)| && a.leafIndex < n {
        EmittedProofTrue(env, t, a.logId, a.leafIndex, n);
      }
    }
  }

  lemma ConsistencyReplyTrue(env: Env, s: State, logId: Text, first: int, second: int, answers: nat)
    ensures var o := GetConsistency(env, s, logId, first, second, answers);
            ReplyTrue(env, o.state, o.reply) && forall sth | sth in o.handed :: SthTrue(env, o.state, sth)
  {
    hide Tree, Mth, ConsistencyTrue;
    var t := GetLog(s, logId);
    var tree := Tree(t, logId);
    if 1 <= first <= second <= |tree| {
      EmittedConsistencyTrue(env, tree, logId, first, second);
    }
  }

  lemma EvidenceRepliesTrue(env: Env, s: State, op: Op)
    requires op.DoRegisterEvidence? || op.DoGetEvidence? || op.DoUpdateRetention?
    ensures ReplyTrue(env, Step(env, s, op).state, Step(env, s, op).reply)
  {
    hide Tree, Mth, ContentKey, Lower, TenantLogId, LeafOf, ExtendedUntil;
    var t := Step(env, s, op).state;
    if Step(env, s, op).reply.EvidenceReply? {
      var logId := Step(env, s, op).reply.entry.sth.logId;
      HeadTrue(env, t, logId);
      EvidenceHead(env, s, op);
    }
  }

  lemma EvidenceHead(env: Env, s: State, op: Op)
    requires op.DoRegisterEvidence? || op.DoGetEvidence? || op.DoUpdateRetention?
    requires Step(env, s, op).reply.EvidenceReply?
    ensures var o := Step(env, s, op);
            o.reply.entry.sth == SthOf(env, o.state, o.reply.entry.sth.logId)
  {
    hide Mth, ContentKey, Lower, TenantLogId, LeafOf, ExtendedUntil, DecodeAll;
  }

  /** Every stored attestation has its leaf. */
  ghost predicate Provable(s: State) {
    forall id | id in s.attById :: s.attById[id].leafIndex < |Tree(s, s.attById[id].logId)|
  }

  /** What the bundle says of an attestation. */
  ghost function BundleEntryOf(env: Env, s: State, id: Text): BundleEntry
    requires Provable(s) && id in s.attById
  {
    var a := s.attById[id];
    var tree := Tree(s, a.logId);
    BundleEntry(a.registryId, a.status, InclusionProof(a.leafIndex, |tree|, Path(env.h, a.leafIndex, tree)),
                SthOf(env, s, a.logId))
  }

  ghost function BundleEntries(env: Env, s: State, ids: seq<Text>): seq<BundleEntry>
    requires Provable(s) && forall id | id in ids :: id in s.attById
  {
    seq(|ids|, (i: nat) requires i < |ids| => BundleEntryOf(env, s, ids[i]))
  }

  ghost function EvidenceEntries(env: Env, s: State, ids: seq<Text>, now: int): seq<EvidenceEntry>
    requires forall id | id in ids :: id in s.evById
  {
    seq(|ids|, (i: nat) requires i < |ids| => EntryOf(env, s, s.evById[ids[i]], now))
  }

  lemma CachingKeepsProvable(s: State, t: State)
    requires Provable(s) && OnlyCaches(s, t)
    ensures Provable(t) && t.attById == s.attById
  {
    CachingKeepsTrees(s, t);
    hide Tree;
  }

  lemma CachingKeepsEntry(env: Env, s: State, t: State, id: Text)
    requires Provable(s) && OnlyCaches(s, t) && id in s.attById
    ensures Provable(t) && BundleEntryOf(env, t, id) == BundleEntryOf(env, s, id)
  {
    CachingKeepsTrees(s, t);
    hide Tree, Mth, Path;
  }

  lemma CachingKeepsEntries(env: Env, s: State, t: State, ids: seq<Text>)
    requires Provable(s) && OnlyCaches(s, t) && forall id | id in ids :: id in s.attById
    ensures Provable(t) && BundleEntries(env, t, ids) == BundleEntries(env, s, ids)
  {
    CachingKeepsProvable(s, t);
    hide OnlyCaches, BundleEntryOf, Provable;
    forall i | 0 <= i < |ids|
      ensures BundleEntryOf(env, t, ids[i]) == BundleEntryOf(env, s, ids[i])
    {
      CachingKeepsEntry(env, s, t, ids[i]);
    }
  }

  lemma EntryFound(env: Env, s: State, id: Text)
    requires Provable(s) && id in s.attById
    ensures var a := s.attById[id];
            var p := InclusionFor(env, s, a.logId, a.leafIndex, |Tree(s, a.logId)|);
            p.Some? && BundleEntry(a.registryId, a.status, p.value, SthOf(env, s, a.logId)) == BundleEntryOf(env, s, id)
  {
    WholeTree(s, s.attById[id].logId);
    hide Tree, Mth, Path;
  }

  lemma {:induction false} GatheredAttestations(env: Env, s: State, ids: seq<Text>, answers: nat,
                                                sofar: seq<BundleEntry>)
    requires Provable(s) && forall id | id in ids :: id in s.attById
    ensures var g := GatherAttestations(env, s, ids, answers, sofar);
            && g.error == (if |ids| <= answers then None else Some(ChainUnavailable))
            && (g.error.None? ==> g.entries == sofar + BundleEntries(env, s, ids))
            && g.handed == BundleHeads(sofar + BundleEntries(env, s, ids[..Asked(|ids|, answers)]))
    decreases |ids|
  {
    hide Tree, OnlyCaches, InclusionFor, SthOf, BundleEntryOf, Provable;
    if ids == [] {
      assert sofar + [] == sofar;
    } else {
      var t := GetLog(s, s.attById[ids[0]].logId);
      GetLogOnlyCaches(s, s.attById[ids[0]].logId);
      CachingKeepsEntries(env, s, t, ids);
      CachingKeepsEntries(env, s, t, ids[..Asked(|ids|, answers)]);
      EntryFound(env, t, ids[0]);
      var e := BundleEntryOf(env, t, ids[0]);
      if answers > 0 {
        GatheredAttestations(env, t, ids[1..], answers - 1, sofar + [e]);
        var asked := Asked(|ids| - 1, answers - 1);
        assert BundleEntries(env, t, ids) == [e] + BundleEntries(env, t, ids[1..]);
        assert BundleEntries(env, t, ids[..1 + asked]) == [e] + BundleEntries(env, t, ids[1..][..asked]);
        assert sofar + [e] + BundleEntries(env, t, ids[1..][..asked])
            == sofar + BundleEntries(env, t, ids[..1 + asked]);
      } else {
        assert BundleHeads(sofar + BundleEntries(env, t, ids[..1])) == BundleHeads(sofar) + [e.sth];
      }
    }
  }

  /** How many of `wanted` calls are made if `answers` are answered: one more than that. */
  function Asked(wanted: nat, answers: nat): nat {
    if wanted <= answers then wanted else answers + 1
  }

  lemma CachingKeepsEvidenceEntries(env: Env, s: State, t: State, ids: seq<Text>, now: int)
    requires OnlyCaches(s, t) && forall id | id in ids :: id in s.evById
    ensures t.evById == s.evById && EvidenceEntries(env, t, ids, now) == EvidenceEntries(env, s, ids, now)
  {
    CachingKeepsTrees(s, t);
    hide Tree, Mth, Deletable;
  }

  lemma {:induction false} GatheredEvidence(env: Env, s: State, ids: seq<Text>, now: int, answers: nat,
                                            sofar: seq<EvidenceEntry>)
    requires forall id | id in ids :: id in s.evById
    ensures var g := GatherEvidence(env, s, ids, now, answers, sofar);
            && g.error == (if |ids| <= answers then None else Some(ChainUnavailable))
            && (g.error.None? ==> g.entries == sofar + EvidenceEntries(env, s, ids, now))
            && g.handed == EvidenceHeads(sofar + EvidenceEntries(env, s, ids[..Asked(|ids|, answers)], now))
    decreases |ids|
  {
    hide Tree, OnlyCaches, EntryOf;
    if ids == [] {
      assert sofar + [] == sofar;
    } else {
      var t := GetLog(s, s.evById[ids[0]].logId);
      GetLogOnlyCaches(s, s.evById[ids[0]].logId);
      CachingKeepsEvidenceEntries(env, s, t, ids, now);
      CachingKeepsEvidenceEntries(env, s, t, ids[..Asked(|ids|, answers)], now);
      var e := EntryOf(env, t, t.evById[ids[0]], now);
      if answers > 0 {
        GatheredEvidence(env, t, ids[1..], now, answers - 1, sofar + [e]);
        var asked := Asked(|ids| - 1, answers - 1);
        assert EvidenceEntries(env, t, ids, now) == [e] + EvidenceEntries(env, t, ids[1..], now);
        assert EvidenceEntries(env, t, ids[..1 + asked], now) == [e] + EvidenceEntries(env, t, ids[1..][..asked], now);
        assert sofar + [e] + EvidenceEntries(env, t, ids[1..][..asked], now)
            == sofar + EvidenceEntries(env, t, ids[..1 + asked], now);
      } else {
        assert EvidenceHeads(sofar + EvidenceEntries(env, t, ids[..1], now)) == EvidenceHeads(sofar) + [e.sth];
      }
    }
  }

  lemma EverythingProvable(env: Env, s: State)
    requires Inv(env, s)
    ensures Provable(s)
  {
    hide Inv, Tree, AttestationLeaf;
    forall id | id in s.attById
      ensures s.attById[id].leafIndex < |Tree(s, s.attById[id].logId)|
    {
      RecordInTree(env, s, id);
    }
  }

  /** The bundle has one entry for every matching record, in order, all against the state before the
      call, and the latest checkpoints of their logs; only an anchor service that stops answering stands in
      its way. Handed out are the heads of the entries up to the first call that is not answered. */
  lemma BundleIs(env: Env, s: State, subject: Text, atts: seq<Text>, evs: seq<Text>, now: int, answers: nat)
    requires Inv(env, s) && Lists(s, subject, atts, evs)
    ensures Provable(s)
    ensures var o := VerifyBundle(env, s, atts, evs, now, answers);
            && o.reply == (if |atts| + |evs| <= answers then
                             BundleReply(BundleEntries(env, s, atts),
                                         LatestCheckpoints(s, BundleLogs(BundleEntries(env, s, atts))),
                                         EvidenceEntries(env, s, evs, now))
                           else Failed(ChainUnavailable))
            && o.handed == BundleHeads(BundleEntries(env, s, atts[..Asked(|atts|, answers)]))
                         + EvidenceHeads(EvidenceEntries(env, s, evs[..AskedFor(|atts|, |evs|, answers)], now))
  {
    hide Inv, Tree, BundleEntryOf, EntryOf, OnlyCaches, GatherAttestations, GatherEvidence, Provable, BundleEntries,
         EvidenceEntries, BundleHeads, EvidenceHeads, LatestCheckpoints, BundleLogs;
    EverythingProvable(env, s);
    var g := GatherAttestations(env, s, atts, answers, []);
    GatheringAttestationsOnlyCaches(env, s, atts, answers, []);
    GatheredAttestations(env, s, atts, answers, []);
    NothingBefore(BundleEntries(env, s, atts));
    NothingBefore(BundleEntries(env, s, atts[..Asked(|atts|, answers)]));
    EntryCounts(env, s, atts, evs, now);
    if |atts| <= answers {
      var asked := evs[..Asked(|evs|, answers - |atts|)];
      CachingKeepsEvidenceEntries(env, s, g.state, evs, now);
      CachingKeepsEvidenceEntries(env, s, g.state, asked, now);
      GatheredEvidence(env, g.state, evs, now, answers - |atts|, []);
      NothingBefore(EvidenceEntries(env, s, evs, now));
      NothingBefore(EvidenceEntries(env, s, asked, now));
    }
  }

  /** Evidence comes after the attestations. */
  function AskedFor(before: nat, wanted: nat, answers: nat): nat {
    if answers < before then 0 else Asked(wanted, answers - before)
  }

  lemma NothingBefore<T>(s: seq<T>)
    ensures [] + s == s
  {
  }

  lemma EntryCounts(env: Env, s: State, atts: seq<Text>, evs: seq<Text>, now: int)
    requires Provable(s) && (forall id | id in atts :: id in s.attById) && forall id | id in evs :: id in s.evById
    ensures |BundleEntries(env, s, atts)| == |atts|
    ensures EvidenceHeads(EvidenceEntries(env, s, evs[..0], now)) == []
  {
    hide Tree, BundleEntryOf, EntryOf, Provable;
  }

  lemma {:induction false} LatestAreSubmitted(s: State, logs: seq<Text>)
    ensures forall c | c in LatestCheckpoints(s, logs) :: Submitted(s, c)
  {
    if logs != [] {
      LatestAreSubmitted(s, logs[..|logs| - 1]);
      var l := logs[|logs| - 1];
      if CheckpointsOf(s, l) != [] {
        assert Submitted(s, s.checkpoints[l][|s.checkpoints[l]| - 1].head);
      }
    }
  }

  lemma BundleReplyTrue(env: Env, s: State, subject: Text, atts: seq<Text>, evs: seq<Text>, now: int, answers: nat)
    requires Inv(env, s) && Lists(s, subject, atts, evs)
    ensures var o := VerifyBundle(env, s, atts, evs, now, answers);
            ReplyTrue(env, o.state, o.reply)
  {
    hide Tree, Inv, ProofTrue, SthTrue, VerifyBundle, LatestCheckpoints, BundleLogs, Submitted, BundleEntries,
         EvidenceEntries, BundleHeads, EvidenceHeads, OnlyCaches, Provable;
    var t := VerifyBundle(env, s, atts, evs, now, answers).state;
    BundleIs(env, s, subject, atts, evs, now, answers);
    BundleOnlyCaches(env, s, atts, evs, now, answers);
    CachingKeepsTrees(s, t);
    LatestAreSubmitted(s, BundleLogs(BundleEntries(env, s, atts)));
    CachingKeepsCheckpoints(s, t);
    BundleEntriesTrue(env, s, t, atts);
    EvidenceEntriesTrue(env, s, t, evs, now);
  }

  lemma CachingKeepsCheckpoints(s: State, t: State)
    requires OnlyCaches(s, t)
    ensures t.attById == s.attById && forall head :: Submitted(t, head) <==> Submitted(s, head)
  {
  }

  lemma BundleEntriesTrue(env: Env, s: State, t: State, ids: seq<Text>)
    requires Inv(env, s) && Provable(s) && (forall id | id in ids :: id in s.attById)
    requires t.attById == s.attById && forall l :: Tree(t, l) == Tree(s, l)
    ensures forall e | e in BundleEntries(env, s, ids) ::
              && ProofTrue(env, t, e.inclusion, e.sth) && e.registryId in t.attById
              && t.attById[e.registryId].logId == e.sth.logId
              && t.attById[e.registryId].leafIndex == e.inclusion.leafIndex
  {
    hide Tree, Inv, Mth, ProofTrue, Provable;
    forall e | e in BundleEntries(env, s, ids)
      ensures ProofTrue(env, t, e.inclusion, e.sth) && e.registryId in t.attById
      ensures var a := t.attById[e.registryId]; a.logId == e.sth.logId && a.leafIndex == e.inclusion.leafIndex
    {
      var i: nat :| i < |ids| && e == BundleEntryOf(env, s, ids[i]);
      RecordInTree(env, s, ids[i]);
      BundleEntryTrue(env, s, t, ids[i]);
    }
  }

  lemma EvidenceEntriesTrue(env: Env, s: State, t: State, ids: seq<Text>, now: int)
    requires (forall id | id in ids :: id in s.evById) && forall l :: Tree(t, l) == Tree(s, l)
    ensures forall e | e in EvidenceEntries(env, s, ids, now) :: SthTrue(env, t, e.sth)
  {
    hide Tree, Mth, SthTrue;
    forall e | e in EvidenceEntries(env, s, ids, now)
      ensures SthTrue(env, t, e.sth)
    {
      var i: nat :| i < |ids| && e == EntryOf(env, s, s.evById[ids[i]], now);
      HeadTrue(env, t, s.evById[ids[i]].logId);
    }
  }

  lemma BundleHandsTrueHeads(env: Env, s: State, op: Op, sth: Sth)
    requires Inv(env, s) && Possible(s, op) && op.DoVerifyBundle? && sth in Step(env, s, op).handed
    ensures SthTrue(env, Step(env, s, op).state, sth)
  {
    hide Tree, Inv, Mth, SthTrue, VerifyBundle, BundleEntryOf, EntryOf, BundleEntries, EvidenceEntries;
    hide LatestCheckpoints, BundleLogs;
    var t := Step(env, s, op).state;
    BundleIs(env, s, op.subject, op.atts, op.evs, op.now, op.answers);
    BundleOnlyCaches(env, s, op.atts, op.evs, op.now, op.answers);
    CachingKeepsTrees(s, t);
    HeadTrue(env, t, sth.logId);
    var atts := op.atts[..Asked(|op.atts|, op.answers)];
    var evs := op.evs[..AskedFor(|op.atts|, |op.evs|, op.answers)];
    if sth in BundleHeads(BundleEntries(env, s, atts)) {
      BundleHeadsCurrent(env, s, t, atts, sth);
    } else {
      EvidenceHeadsCurrent(env, s, t, evs, op.now, sth);
    }
  }

  lemma BundleHeadsCurrent(env: Env, s: State, t: State, ids: seq<Text>, sth: Sth)
    requires Provable(s) && (forall id | id in ids :: id in s.attById) && forall l :: Tree(t, l) == Tree(s, l)
    requires sth in BundleHeads(BundleEntries(env, s, ids))
    ensures sth == SthOf(env, t, sth.logId)
  {
    hide Tree, Mth, Path, Provable;
  }

  lemma EvidenceHeadsCurrent(env: Env, s: State, t: State, ids: seq<Text>, now: int, sth: Sth)
    requires (forall id | id in ids :: id in s.evById) && forall l :: Tree(t, l) == Tree(s, l)
    requires sth in EvidenceHeads(EvidenceEntries(env, s, ids, now))
    ensures sth == SthOf(env, t, sth.logId)
  {
    hide Tree, Mth, Deletable;
  }

  lemma BundleEntryTrue(env: Env, s: State, t: State, id: Text)
    requires Provable(s) && id in s.attById && forall l :: Tree(t, l) == Tree(s, l)
    ensures var e := BundleEntryOf(env, s, id); ProofTrue(env, t, e.inclusion, e.sth)
  {
    hide Tree, Mth, Path, ProofTrue;
    var a := s.attById[id];
    WholeTree(t, a.logId);
    EmittedProofTrue(env, t, a.logId, a.leafIndex, |Tree(t, a.logId)|);
  }

  /** Every reply of every operation tells the truth about the state it leaves behind. */
  lemma StepReplyTrue(env: Env, s: State, op: Op)
    requires Inv(env, s) && Possible(s, op)
    ensures ReplyTrue(env, Step(env, s, op).state, Step(env, s, op).reply)
  {
    hide Tree, Inv, Mth, ProofTrue, SthTrue, AnchorAttestation, SetStatus, GetStatusRecord, GetInclusion,
         GetConsistency, VerifyBundle, RegisterEvidence, UpdateRetention, AttestationDto, EvidenceDto;
    match op
    case DoAnchorAttestation(req, tenant, id, at, up) => AnchorReplyTrue(env, s, req, tenant, id, at, up);
    case DoGetAttestation(id, up) =>
      if id in s.attById {
        DtoTrue(env, s, id, false, up);
      }
    case DoGetInclusion(id, size, up) => InclusionReplyTrue(env, s, id, size, up);
    case DoGetStatusRecord(id, up) => StatusRecordReplyTrue(env, s, id, up);
    case DoSetStatus(id, action, next, tenant, since, up) =>
      SetStatusReplyTrue(env, s, id, action, next, tenant, since, up);
    case DoSubmitCheckpoint(head, id, up) => CheckpointReplyTrue(env, s, head, id, up);
    case DoGetConsistency(logId, first, second, answers) => ConsistencyReplyTrue(env, s, logId, first, second, answers);
    case DoRegisterEvidence(_, _, _, _, _) => EvidenceRepliesTrue(env, s, op);
    case DoGetEvidence(_, _, _) => EvidenceRepliesTrue(env, s, op);
    case DoUpdateRetention(_, _, _, _, _, _) => EvidenceRepliesTrue(env, s, op);
    case DoDeleteEvidence(_, _, _, _, _) =>
    case DoVerifyBundle(subject, atts, evs, now, answers) => BundleReplyTrue(env, s, subject, atts, evs, now, answers);
    case Restart =>
  }

  lemma CheckpointReplyTrue(env: Env, s: State, head: Sth, id: Text, up: bool)
    ensures var o := SubmitCheckpoint(s, head, id, up); ReplyTrue(env, o.state, o.reply)
  {
    var list := PutCheckpoint(s, Checkpoint(id, head)).checkpoints[head.logId];
    assert list[|list| - 1].head == head;
  }

  lemma EveryReplyTrue(env: Env, ops: seq<Op>, i: nat)
    requires PossibleRun(env, ops) && i < |ops|
    ensures ReplyTrue(env, After(env, ops[..i + 1]), ReplyAt(env, ops, i))
  {
    hide Step, Inv, ReplyTrue;
    PossiblePrefix(env, ops, i);
    RunKeepsInv(env, ops[..i]);
    StepReplyTrue(env, After(env, ops[..i]), ops[i]);
    assert ops[..i + 1][..i] == ops[..i];
  }

  // ---------- no equivocation ----------

  /** The heads handed to the anchor service by operation i, answered or not. */
  function HandedAt(env: Env, ops: seq<Op>, i: nat): seq<Sth>
    requires i < |ops|
  {
    Step(env, After(env, ops[..i]), ops[i]).handed
  }

  /** The tree heads a reply shows; those of checkpoints are in a bundle beside them. */
  function Heads(reply: Reply): set<Sth> {
    match reply
    case AttestationReply(_, _, _, _, _, _, sth, _) => {sth}
    case InclusionReply(_, _, sth) => {sth}
    case StatusReply(_, _, _, _, _, _, sth) => {sth}
    case ConsistencyReply(_, first, second, _) => {first, second}
    case EvidenceReply(entry, _) => {entry.sth}
    case CheckpointReply(_, sth) => {sth}
    case BundleReply(atts, _, evs) => (set e | e in atts :: e.sth) + (set e | e in evs :: e.sth)
    case _ => {}
  }

  /** No reply shows a head that was not handed to the anchor service. */
  lemma ShownHeadsAreHanded(env: Env, s: State, op: Op, sth: Sth)
    requires Inv(env, s) && Possible(s, op) && sth in Heads(Step(env, s, op).reply)
    ensures sth in Step(env, s, op).handed
  {
    hide Inv, Tree, Mth, Append, LeafOf, ContentKey, Lower, TenantLogId, InclusionFor, SthOf, VerifyBundle,
         ExtendedUntil, Path, PutEvidence, AppendStatus, PutAttestation, Deletable;
    if op.DoVerifyBundle? {
      ShownInBundle(env, s, op, sth);
    }
  }

  lemma ShownInBundle(env: Env, s: State, op: Op, sth: Sth)
    requires Inv(env, s) && Possible(s, op) && op.DoVerifyBundle? && sth in Heads(Step(env, s, op).reply)
    ensures sth in Step(env, s, op).handed
  {
    hide Inv, Tree, VerifyBundle, BundleEntryOf, EntryOf, LatestCheckpoints, BundleLogs;
    BundleIs(env, s, op.subject, op.atts, op.evs, op.now, op.answers);
    var atts, evs := BundleEntries(env, s, op.atts), EvidenceEntries(env, s, op.evs, op.now);
    assert op.atts[..|op.atts|] == op.atts && op.evs[..|op.evs|] == op.evs;
    if sth in (set e | e in atts :: e.sth) {
      var i :| 0 <= i < |atts| && atts[i].sth == sth;
      assert BundleHeads(atts)[i] == sth;
    } else {
      var i :| 0 <= i < |evs| && evs[i].sth == sth;
      assert EvidenceHeads(evs)[i] == sth;
    }
  }

  /** Every head an operation hands to the anchor service is the root of the first leaves of its log, unless it
      is a client's checkpoint. */
  lemma HandedHeadsTrue(env: Env, s: State, op: Op, sth: Sth)
    requires Inv(env, s) && Possible(s, op) && !op.DoSubmitCheckpoint? && sth in Step(env, s, op).handed
    ensures SthTrue(env, Step(env, s, op).state, sth)
  {
    hide Inv, Tree, Mth, SthTrue, VerifyBundle, GetConsistency, Possible;
    if op.DoVerifyBundle? {
      BundleHandsTrueHeads(env, s, op, sth);
    } else if op.DoGetConsistency? {
      ConsistencyReplyTrue(env, s, op.logId, op.first, op.second, op.answers);
    } else if op.DoGetInclusion? {
      HandedForInclusion(env, s, op, sth);
    } else {
      HandedIsCurrent(env, s, op, sth);
      HeadTrue(env, Step(env, s, op).state, sth.logId);
    }
  }

  lemma HandedForInclusion(env: Env, s: State, op: Op, sth: Sth)
    requires op.DoGetInclusion? && sth in Step(env, s, op).handed
    ensures SthTrue(env, Step(env, s, op).state, sth)
  {
    hide Tree, Mth, Path;
  }

  /** All other operations hand out the head of the tree they leave. */
  lemma HandedIsCurrent(env: Env, s: State, op: Op, sth: Sth)
    requires Inv(env, s) && Possible(s, op)
    requires !op.DoSubmitCheckpoint? && !op.DoVerifyBundle? && !op.DoGetConsistency? && !op.DoGetInclusion?
    requires sth in Step(env, s, op).handed
    ensures sth == SthOf(env, Step(env, s, op).state, sth.logId)
  {
    hide Step, Inv, Possible, SthOf;
    if op.DoAnchorAttestation? {
      AnchorHandsCurrent(env, s, op, sth);
    } else if op.DoSetStatus? {
      StatusHandsCurrent(env, s, op, sth);
    } else if op.DoRegisterEvidence? {
      RegisteringHandsCurrent(env, s, op, sth);
    } else if op.DoUpdateRetention? || op.DoDeleteEvidence? || op.DoGetEvidence? {
      EvidenceHandsCurrent(env, s, op, sth);
    } else {
      ReadingHandsCurrent(env, s, op, sth);
    }
  }

  lemma AnchorHandsCurrent(env: Env, s: State, op: Op, sth: Sth)
    requires op.DoAnchorAttestation? && sth in Step(env, s, op).handed
    ensures sth == SthOf(env, Step(env, s, op).state, sth.logId)
  {
    hide Mth, Append, LeafOf, ContentKey, Lower, TenantLogId, InclusionFor, Path;
  }

  lemma StatusHandsCurrent(env: Env, s: State, op: Op, sth: Sth)
    requires op.DoSetStatus? && sth in Step(env, s, op).handed
    ensures sth == SthOf(env, Step(env, s, op).state, sth.logId)
  {
    hide Mth, Append, LeafOf, Path;
  }

  lemma RegisteringHandsCurrent(env: Env, s: State, op: Op, sth: Sth)
    requires Inv(env, s) && op.DoRegisterEvidence? && sth in Step(env, s, op).handed
    ensures sth == SthOf(env, Step(env, s, op).state, sth.logId)
  {
    hide Tree, Inv, Mth, Append, LeafOf, ContentKey, Lower, TenantLogId, Deletable, GetLog;
    var key := ContentKey(op.tenant, Lower(op.evidence.contentHash));
    KeyLeadsToRecord(env, s, key);
    if key !in s.evByContent {
      RegisteredIs(env, s, op.evidence, op.tenant, op.evidenceId, op.now, op.anchorUp);
      var hold := match op.evidence.legalHold { case Some(b) => b case None => false };
      var fields := EvidenceFields(op.evidenceId, Lower(op.evidence.contentHash), op.evidence.until,
                                   op.evidence.basis, hold);
      SameTrees(Append(s, TenantLogId(op.tenant), LeafOf(fields)), Step(env, s, op).state);
    }
  }

  lemma EvidenceHandsCurrent(env: Env, s: State, op: Op, sth: Sth)
    requires op.DoUpdateRetention? || op.DoDeleteEvidence? || op.DoGetEvidence?
    requires sth in Step(env, s, op).handed
    ensures sth == SthOf(env, Step(env, s, op).state, sth.logId)
  {
    hide Tree, Mth, Append, LeafOf, ContentKey, ExtendedUntil, Deletable, GetLog, PutEvidence;
  }

  lemma ReadingHandsCurrent(env: Env, s: State, op: Op, sth: Sth)
    requires op.DoGetAttestation? || op.DoGetStatusRecord? || op.Restart?
    requires sth in Step(env, s, op).handed
    ensures sth == SthOf(env, Step(env, s, op).state, sth.logId)
  {
    hide Mth, InclusionFor;
  }

  lemma HeadStaysTrue(env: Env, s: State, t: State, sth: Sth)
    requires SthTrue(env, s, sth) && Evolves(env, s, t)
    ensures SthTrue(env, t, sth)
  {
    hide Mth;
    var a, b := Tree(s, sth.logId), Tree(t, sth.logId);
    hide Tree;
    assert a <= b;
    assert a[..sth.treeSize] == b[..sth.treeSize];
  }

  /** A head of the ledger's own, handed to the anchor service at any moment of a run, is still true at every
      later moment. */
  lemma HeadsStayTrue(env: Env, ops: seq<Op>, i: nat, k: nat, sth: Sth)
    requires PossibleRun(env, ops) && i < k <= |ops| && sth in HandedAt(env, ops, i) && !ops[i].DoSubmitCheckpoint?
    ensures SthTrue(env, After(env, ops[..k]), sth)
  {
    hide Step, SthTrue, Evolves, Inv;
    PossiblePrefix(env, ops, i);
    RunKeepsInv(env, ops[..i]);
    HandedHeadsTrue(env, After(env, ops[..i]), ops[i], sth);
    assert ops[..i + 1][..i] == ops[..i];
    RunEvolvesBetween(env, ops, i + 1, k);
    HeadStaysTrue(env, After(env, ops[..i + 1]), After(env, ops[..k]), sth);
  }

  /** Any two heads of its own that the ledger ever handed to the anchor service for one log fit together,
      also those of refused deletes and of operations that then failed: equal sizes have equal roots, and for
      different sizes the ledger's own consistency proof, at any later moment, joins exactly these two heads
      and is accepted by both verifiers. */
  lemma HeadsAreConsistent(env: Env, ops: seq<Op>, i: nat, j: nat, k: nat, a: Sth, b: Sth)
    requires PossibleRun(env, ops) && i < k <= |ops| && j < k
    requires a in HandedAt(env, ops, i) && b in HandedAt(env, ops, j)
    requires !ops[i].DoSubmitCheckpoint? && !ops[j].DoSubmitCheckpoint?
    requires a.logId == b.logId && 0 < a.treeSize <= b.treeSize
    ensures a.treeSize == b.treeSize ==> a == b
    ensures var r := GetConsistency(env, After(env, ops[..k]), a.logId, a.treeSize, b.treeSize, 2).reply;
            r.ConsistencyReply? && r.first == a && r.second == b && ConsistencyTrue(env, a, b, r.path)
  {
    hide Step, Evolves, Inv, HandedAt, After, Mth, PossibleRun;
    HeadsStayTrue(env, ops, i, k, a);
    HeadsStayTrue(env, ops, j, k, b);
    JoinedHeads(env, ops, k, a, b);
  }

  /** The ledger joins exactly the heads that are true. */
  lemma JoinedHeads(env: Env, ops: seq<Op>, k: nat, a: Sth, b: Sth)
    requires PossibleRun(env, ops) && k <= |ops|
    requires a.logId == b.logId && 0 < a.treeSize <= b.treeSize <= |Tree(After(env, ops[..k]), a.logId)|
    ensures var s := After(env, ops[..k]);
            var r := GetConsistency(env, s, a.logId, a.treeSize, b.treeSize, 2).reply;
            && r.ConsistencyReply? && ConsistencyTrue(env, r.first, r.second, r.path)
            && (r.first == a <==> SthTrue(env, s, a)) && (r.second == b <==> SthTrue(env, s, b))
  {
    hide Step, Evolves, Inv, After, Mth, PossibleRun, ConsistencyTrue;
    var s := After(env, ops[..k]);
    PossiblePrefix(env, ops, k);
    CachedTreesAreStoredLeaves(env, ops[..k], a.logId);
    SizeFromStore(s, a.logId);
    ConsistencyReplyTrue(env, s, a.logId, a.treeSize, b.treeSize, 2);
  }

  // ---------- checkpoints ----------

  /** A client's checkpoint is handed out as it is. It fits the heads of the ledger, at any later moment at which
      the log has as many leaves, exactly if its root is the one of that many leaves: otherwise the consistency
      proof that both verifiers accept starts from another head of the same size. */
  lemma CheckpointFitsExactly(env: Env, ops: seq<Op>, i: nat, k: nat, b: Sth)
    requires PossibleRun(env, ops) && i < k <= |ops| && ops[i].DoSubmitCheckpoint?
    requires b.logId == ops[i].head.logId
    requires 0 < ops[i].head.treeSize <= b.treeSize <= |Tree(After(env, ops[..k]), b.logId)|
    ensures HandedAt(env, ops, i) == [ops[i].head]
    ensures var s, c := After(env, ops[..k]), ops[i].head;
            var r := GetConsistency(env, s, c.logId, c.treeSize, b.treeSize, 2).reply;
            && r.ConsistencyReply? && ConsistencyTrue(env, r.first, r.second, r.path)
            && r.first.logId == c.logId && r.first.treeSize == c.treeSize
            && (r.first == c <==> c.root == Mth(env.h, Tree(s, c.logId)[..c.treeSize]))
  {
    hide Evolves, Inv, After, Mth, PossibleRun, ConsistencyTrue;
    JoinedHeads(env, ops, k, ops[i].head, b);
  }

  /** Such a checkpoint can be submitted: after the first attestation of a tenant, a head of size 1 of the
      tenant's log with any other root. */
  lemma CheckpointContradictsHead(env: Env, req: AttestationRequest, tenant: Text, id: Text, at: Text, root: Hash,
                                  checkpointId: Text)
    ensures var first := DoAnchorAttestation(req, tenant, id, at, true);
            var ops := [first, DoSubmitCheckpoint(Sth(TenantLogId(tenant), 1, root), checkpointId, true)];
            var leaf := LeafOf(AttestationFields(id, Lower(req.contentHash), req.subject, req.issuer, req.recordType));
            && PossibleRun(env, ops)
            && HandedAt(env, ops, 0) == [Sth(TenantLogId(tenant), 1, env.h.leaf(leaf))]
            && HandedAt(env, ops, 1) == [Sth(TenantLogId(tenant), 1, root)]
  {
    hide Step;
    var none: seq<Op> := [];
    var op := DoAnchorAttestation(req, tenant, id, at, true);
    var submit := DoSubmitCheckpoint(Sth(TenantLogId(tenant), 1, root), checkpointId, true);
    PossibleRunExtends(env, none, op);
    assert none + [op] == [op];
    PossibleRunExtends(env, [op], submit);
    assert [op] + [submit] == [op, submit];
    assert [op, submit][..0] == none && [op, submit][..1] == [op];
    FirstHead(env, req, tenant, id, at);
    SubmittedIsHanded(env, After(env, [op]), submit);
  }

  lemma SubmittedIsHanded(env: Env, s: State, op: Op)
    requires op.DoSubmitCheckpoint?
    ensures Step(env, s, op).handed == [op.head]
  {
  }

  lemma FirstHead(env: Env, req: AttestationRequest, tenant: Text, id: Text, at: Text)
    ensures var leaf := LeafOf(AttestationFields(id, Lower(req.contentHash), req.subject, req.issuer, req.recordType));
            Step(env, Empty(), DoAnchorAttestation(req, tenant, id, at, true)).handed
            == [Sth(TenantLogId(tenant), 1, env.h.leaf(leaf))]
  {
    hide Append, LeafOf, Lower, ContentKey, TenantLogId, Tree;
    var leaf := LeafOf(AttestationFields(id, Lower(req.contentHash), req.subject, req.issuer, req.recordType));
    AppendedTree(Empty(), TenantLogId(tenant), leaf, TenantLogId(tenant));
    EmptyTree(TenantLogId(tenant));
    MthSmall(env.h, [leaf]);
  }

  lemma EmptyTree(logId: Text)
    ensures Tree(Empty(), logId) == []
  {
  }

  /** Every checkpoint in the store was submitted by an operation of the run, for the log it is filed under. */
  lemma {:induction false} StoredCheckpointsWereHanded(env: Env, ops: seq<Op>, l: Text, n: nat) returns (i: nat)
    requires l in After(env, ops).checkpoints && n < |After(env, ops).checkpoints[l]|
    ensures i < |ops| && ops[i].DoSubmitCheckpoint? && ops[i].head.logId == l
    ensures var c := After(env, ops).checkpoints[l][n];
            c == Checkpoint(ops[i].checkpointId, ops[i].head) && HandedAt(env, ops, i) == [c.head]
  {
    hide Step;
    var front, op := ops[..|ops| - 1], ops[|ops| - 1];
    var s, t := After(env, front), After(env, ops);
    OnlyCheckpointsAddCheckpoints(env, s, op);
    if l in s.checkpoints && n < |s.checkpoints[l]| {
      i := StoredCheckpointsWereHanded(env, front, l, n);
      assert front[..i] == ops[..i];
    } else {
      i := |front|;
      SubmittedIsHanded(env, s, op);
    }
  }

  lemma OnlyCheckpointsAddCheckpoints(env: Env, s: State, op: Op)
    ensures var t := Step(env, s, op).state;
            if op.DoSubmitCheckpoint? && op.anchorUp then
              t.checkpoints == s.checkpoints[op.head.logId :=
                                 CheckpointsOf(s, op.head.logId) + [Checkpoint(op.checkpointId, op.head)]]
            else t.checkpoints == s.checkpoints
  {
    hide Step;
    if op.DoVerifyBundle? {
      BundleAddsNoCheckpoints(env, s, op);
    } else if op.DoAnchorAttestation? {
      AttestingAddsNoCheckpoints(env, s, op);
    } else if op.DoSetStatus? {
      StatusAddsNoCheckpoints(env, s, op);
    } else if op.DoRegisterEvidence? {
      RegisteringAddsNoCheckpoints(env, s, op);
    } else if op.DoUpdateRetention? || op.DoDeleteEvidence? || op.DoGetEvidence? {
      EvidenceAddsNoCheckpoints(env, s, op);
    } else {
      ReadingAddsNoCheckpoints(env, s, op);
    }
  }

  lemma BundleAddsNoCheckpoints(env: Env, s: State, op: Op)
    requires op.DoVerifyBundle?
    ensures Step(env, s, op).state.checkpoints == s.checkpoints
  {
    hide Tree, VerifyBundle;
    BundleOnlyCaches(env, s, op.atts, op.evs, op.now, op.answers);
  }

  /** What the operations are made of leaves the checkpoints alone. */
  lemma WritesKeepCheckpoints()
    ensures forall s, l, leaf :: Append(s, l, leaf).checkpoints == s.checkpoints
    ensures forall s, l :: GetLog(s, l).checkpoints == s.checkpoints
    ensures forall s, a :: PutAttestation(s, a).checkpoints == s.checkpoints
    ensures forall s, e :: AppendStatus(s, e).checkpoints == s.checkpoints
    ensures forall s, e :: PutEvidence(s, e).checkpoints == s.checkpoints
  {
    hide Tree, StoredLeaves, ContentKey, History;
  }

  lemma AttestingAddsNoCheckpoints(env: Env, s: State, op: Op)
    requires op.DoAnchorAttestation?
    ensures Step(env, s, op).state.checkpoints == s.checkpoints
  {
    hide Tree, LeafOf, ContentKey, Lower, TenantLogId, InclusionFor, SthOf, Path, Append, GetLog, PutAttestation,
         AppendStatus;
    WritesKeepCheckpoints();
  }

  lemma StatusAddsNoCheckpoints(env: Env, s: State, op: Op)
    requires op.DoSetStatus?
    ensures Step(env, s, op).state.checkpoints == s.checkpoints
  {
    hide Tree, LeafOf, SthOf, Path, Append, AppendStatus;
    WritesKeepCheckpoints();
  }

  lemma RegisteringAddsNoCheckpoints(env: Env, s: State, op: Op)
    requires op.DoRegisterEvidence?
    ensures Step(env, s, op).state.checkpoints == s.checkpoints
  {
    hide Tree, LeafOf, ContentKey, Lower, TenantLogId, EntryOf, SthOf, Append, GetLog, PutEvidence;
    WritesKeepCheckpoints();
    var hold := match op.evidence.legalHold { case Some(b) => b case None => false };
    var fields := EvidenceFields(op.evidenceId, Lower(op.evidence.contentHash), op.evidence.until,
                                 op.evidence.basis, hold);
    AppendedTree(s, TenantLogId(op.tenant), LeafOf(fields), TenantLogId(op.tenant));
  }

  lemma EvidenceAddsNoCheckpoints(env: Env, s: State, op: Op)
    requires op.DoUpdateRetention? || op.DoDeleteEvidence? || op.DoGetEvidence?
    ensures Step(env, s, op).state.checkpoints == s.checkpoints
  {
    hide Tree, LeafOf, ContentKey, Lower, TenantLogId, EntryOf, SthOf, ExtendedUntil, Append, GetLog, PutEvidence;
    WritesKeepCheckpoints();
  }

  lemma ReadingAddsNoCheckpoints(env: Env, s: State, op: Op)
    requires !op.DoVerifyBundle? && !op.DoAnchorAttestation? && !op.DoSetStatus? && !op.DoRegisterEvidence?
    requires !op.DoUpdateRetention? && !op.DoDeleteEvidence? && !op.DoGetEvidence?
    ensures var t := Step(env, s, op).state;
            if op.DoSubmitCheckpoint? && op.anchorUp then
              t.checkpoints == s.checkpoints[op.head.logId :=
                                 CheckpointsOf(s, op.head.logId) + [Checkpoint(op.checkpointId, op.head)]]
            else t.checkpoints == s.checkpoints
  {
    hide Tree, Mth, InclusionFor, SthOf, Path;
  }

  lemma SizeFromStore(s: State, l: Text)
    ensures |DecodeAll(StoredLeaves(s, l))| == |StoredLeaves(s, l)|
    ensures Tree(GetLog(s, l), l) == Tree(s, l)
  {
  }

  /** The tree of a log never loses or changes a leaf, so old roots never change. */
  lemma OldRootsNeverChange(env: Env, ops: seq<Op>, i: nat, k: nat, l: Text, size: nat)
    requires PossibleRun(env, ops) && i <= k <= |ops| && size <= |Tree(After(env, ops[..i]), l)|
    ensures size <= |Tree(After(env, ops[..k]), l)|
    ensures Mth(env.h, Tree(After(env, ops[..k]), l)[..size]) == Mth(env.h, Tree(After(env, ops[..i]), l)[..size])
  {
    RunEvolvesBetween(env, ops, i, k);
    var a, b := Tree(After(env, ops[..i]), l), Tree(After(env, ops[..k]), l);
    assert a <= b;
    assert a[..size] == b[..size];
  }
}
