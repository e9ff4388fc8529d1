/** The ledger service over its store, object by object; every operation does what the model says. */
module LedgerService {
  import opened Hashing
  import opened Encoding
  import opened Texts
  import opened MerkleTree
  import opened TransparencyLog
  import opened LedgerModel
  import opened MemoryStore
  import opened LedgerInvariant
  import ConsistencyProofs

  ghost function Trees(m: map<Text, Log>): map<Text, seq<Bytes>>
    reads m.Values
  {
    map l | l in m :: m[l].leaves
  }

  lemma TreesUpdated(m: map<Text, Log>, l: Text, tl: Log)
    ensures Trees(m[l := tl]) == Trees(m)[l := tl.leaves]
  {
  }

  /** The anchor service did not answer, although the leaf is written. */
  datatype Appended = NotAnchored | Appended(leafIndex: nat, leafHash: Hash, sth: Sth)

  /** anchorSTH as the ledger sees it: it is handed a head, which it may sign and put on the chain, and it
      answers or does not. */
  class AnchorService {
    var handed: seq<Sth>

    constructor ()
      ensures handed == []
    {
      handed := [];
    }

    method AnchorSth(head: Sth, answered: bool) returns (ok: bool)
      modifies this
      ensures handed == old(handed) + [head] && ok == answered
    {
      handed := handed + [head];
      return answered;
    }
  }

  /** What the bundle gets for one attestation. */
  datatype Entry = NotMade(error: Error) | Made(value: BundleEntry)

  function EntryFor(a: Attestation, p: Option<InclusionProof>, sth: Sth, answered: bool): Entry {
    match p
    case None => NotMade(OutOfRange)
    case Some(proof) =>
      if answered then Made(BundleEntry(a.registryId, a.status, proof, sth)) else NotMade(ChainUnavailable)
  }

  class Service {
    const env: Env
    const store: Store
    const anchors: AnchorService
    var logs: map<Text, Log>

    /** The objects an operation may change: this service, its store, trees and records. */
    ghost var Repr: set<object>

    ghost function View(): State
      reads this, store, store.attById.Values, store.evById.Values, logs.Values
    {
      store.View().(logs := Trees(logs))
    }

    /** Every cached tree is kept under its own log id, so no two entries share an object. */
    ghost predicate Valid()
      reads this, store
    {
      && store.Valid()
      && this in Repr && store in Repr && anchors in Repr
      && (forall l | l in logs :: logs[l].logId == l && logs[l].h == env.h && logs[l] in Repr)
      && (forall id | id in store.attById :: store.attById[id] in Repr)
      && (forall id | id in store.evById :: store.evById[id] in Repr)
    }

    /** The call has changed the ledger, answered, and handed out heads as the outcome says. */
    twostate predicate Does(new reply: Reply, new o: Outcome)
      reads this, store, anchors, store.attById.Values, store.evById.Values, logs.Values
    {
      View() == o.state && reply == o.reply && anchors.handed == old(anchors.handed) + o.handed
    }

    /** Records keep their place in the order of insertion: new ones only come after them. */
    twostate predicate KeepsOrder()
      reads this, store
    {
      old(store.attOrder) <= store.attOrder && old(store.evOrder) <= store.evOrder
    }

    /** No tree has reached the size where its hash can no longer be computed. */
    ghost predicate HasRoom()
      reads this, store, store.attById.Values, store.evById.Values, logs.Values
    {
      forall l :: |Tree(View(), l)| < MAX_SIZE
    }

    /** What a status change touches is the service's own. */
    lemma Owns(logId: Text, registryId: Text)
      requires Valid()
      ensures this in Repr && store in Repr && anchors in Repr
      ensures logId in logs ==> logs[logId] in Repr
      ensures registryId in store.attById ==> store.attById[registryId] in Repr
    {
    }

    lemma RoomIn(logId: Text)
      requires HasRoom()
      ensures |Tree(View(), logId)| < MAX_SIZE
    {
    }

    /** A new service, also over a store that has seen operations before: nothing is cached. */
    constructor (env: Env, store: Store, anchors: AnchorService)
      requires store.Valid()
      ensures this.env == env && this.store == store && this.anchors == anchors && Valid() && logs == map[]
      ensures View() == store.View()
    {
      this.env, this.store, this.anchors := env, store, anchors;
      logs := map[];
      Repr := {this, store, anchors} + store.attById.Values + store.evById.Values;
    }

    /** Asking for an anchor changes nothing of the ledger. */
    method AskForAnchor(head: Sth, answered: bool) returns (ok: bool)
      requires Valid()
      modifies anchors
      ensures Valid() && View() == old(View()) && ok == answered
      ensures anchors.handed == old(anchors.handed) + [head]
    {
      hide Store.View, Store.Valid, Trees;
      ok := anchors.AnchorSth(head, answered);
    }

    // ---------- logs ----------

    /** The cached tree, or one built from the leaf table and cached. */
    method GetLog(logId: Text) returns (tl: Log)
      requires Valid()
      modifies this`logs, this`Repr
      ensures Valid() && View() == LedgerModel.GetLog(old(View()), logId)
      ensures logId in logs && logs[logId] == tl && tl.leaves == Tree(old(View()), logId)
      ensures logs == old(logs)[logId := tl] && (logId in old(logs) ==> tl == old(logs)[logId])
      ensures logId !in old(logs) ==> fresh(tl)
      ensures Repr == old(Repr) + {tl} && fresh(Repr - old(Repr))
    {
      hide DecodeAll, Trees, AttestationValues, AttestationIds, EvidenceValues, EvidenceIds, Store.Valid;
      TreesLookup(logs, logId);
      if logId in logs {
        tl := logs[logId];
        TreesUpdated(logs, logId, tl);
        assert logs == logs[logId := tl];
      } else {
        var hexes := store.GetLeaves(logId);
        tl := new Log(logId, env.h, DecodeAll(hexes));
        TreesUpdated(logs, logId, tl);
        logs := logs[logId := tl];
        Repr := Repr + {tl};
      }
      assert store.View() == old(store.View());
      assert Trees(logs) == old(Trees(logs))[logId := tl.leaves];
    }

    /** Appending to one cached tree leaves the others alone. */
    method AppendToTree(tl: Log, leaf: Bytes) returns (leafIndex: nat)
      requires Valid() && tl.logId in logs && logs[tl.logId] == tl
      modifies tl
      ensures Valid() && tl.leaves == old(tl.leaves) + [leaf] && leafIndex == |old(tl.leaves)|
      ensures View() == old(View()).(logs := old(View()).logs[tl.logId := tl.leaves])
    {
      hide Store.View, Store.Valid;
      leafIndex := tl.Append(leaf);
      assert Trees(logs) == old(Trees(logs))[tl.logId := tl.leaves];
    }

    method StoreLeaf(logId: Text, leaf: Bytes)
      requires Valid()
      modifies store`leavesByLog
      ensures Valid()
      ensures var s := old(View());
              View() == s.(leaves := s.leaves[logId := StoredLeaves(s, logId) + [ToHex(leaf)]])
    {
      hide Store.Valid, ToHex, Trees, AttestationValues, AttestationIds, EvidenceValues, EvidenceIds;
      var _ := store.AppendLeaf(logId, ToHex(leaf));
    }

    /** Writes the leaf to the cached tree and to the leaf table. */
    method WriteLeaf(logId: Text, leaf: Bytes) returns (tl: Log, leafIndex: nat)
      requires Valid()
      modifies this`logs, this`Repr, store`leavesByLog, if logId in logs then {logs[logId]} else {}
      ensures Valid() && View() == Append(old(View()), logId, leaf)
      ensures logs == old(logs)[logId := tl] && tl.leaves == Tree(View(), logId) && leafIndex == |tl.leaves| - 1
      ensures tl.leaves == Tree(old(View()), logId) + [leaf]
      ensures if logId in old(logs) then tl == old(logs)[logId] else fresh(tl)
      ensures Repr == old(Repr) + {tl} && fresh(Repr - old(Repr))
    {
      hide View, Tree, Store.Valid, ToHex, Append, LedgerModel.GetLog;
      ghost var s := View();
      tl := GetLog(logId);
      leafIndex := AppendToTree(tl, leaf);
      StoreLeaf(logId, leaf);
      AppendInSteps(s, logId, leaf);
      AppendedTree(s, logId, leaf, logId);
    }

    /** ... and then asks for an anchor of the new head. */
    method AppendAndAnchor(logId: Text, leaf: Bytes, anchorUp: bool) returns (r: Appended)
      requires Valid() && |Tree(View(), logId)| < MAX_SIZE
      modifies this`logs, this`Repr, store`leavesByLog, if logId in logs then {logs[logId]} else {}, anchors
      ensures Valid() && View() == Append(old(View()), logId, leaf)
      ensures anchors.handed == old(anchors.handed) + [SthOf(env, View(), logId)]
      ensures store.attOrder == old(store.attOrder) && store.evOrder == old(store.evOrder)
      ensures r == if anchorUp then Appended(|Tree(View(), logId)| - 1, env.h.leaf(leaf), SthOf(env, View(), logId))
                   else NotAnchored
      ensures logId in logs && logs == old(logs)[logId := logs[logId]]
      ensures if logId in old(logs) then logs[logId] == old(logs)[logId] else fresh(logs[logId])
      ensures Repr == old(Repr) + {logs[logId]} && fresh(Repr - old(Repr))
    {
      hide Tree, Append, Mth, View, Store.Valid;
      var tl, leafIndex := WriteLeaf(logId, leaf);
      assert tl.leaves[leafIndex] == leaf;
      var leafHash := env.h.leaf(tl.leaves[leafIndex]);
      var treeSize := tl.TreeSize();
      var root := tl.CurrentRoot();
      var sth := Sth(logId, treeSize, root);
      assert logs[logId] == tl && tl.h == env.h;
      var ok := AskForAnchor(sth, anchorUp);
      if !ok {
        return NotAnchored;
      }
      return Appended(leafIndex, leafHash, sth);
    }

    // ---------- attestations ----------

    /** The head of a log, and the proof of a leaf in it if there is such a leaf. */
    method LatestProof(logId: Text, leafIndex: nat) returns (inclusion: Option<InclusionProof>, sth: Sth)
      requires Valid() && |Tree(View(), logId)| <= MAX_SIZE
      modifies this`logs, this`Repr
      ensures Valid() && fresh(Repr - old(Repr)) && View() == LedgerModel.GetLog(old(View()), logId)
      ensures inclusion == InclusionFor(env, View(), logId, leafIndex, |Tree(View(), logId)|)
      ensures sth == SthOf(env, View(), logId)
    {
      hide Tree, Mth, Path, View;
      var tl := GetLog(logId);
      CachedTree(old(View()), logId);
      WholeList(tl.leaves);
      var proof := tl.InclusionProofFor(leafIndex, tl.TreeSize());
      inclusion := match proof { case Ok(p) => Some(p) case RangeError => None };
      var root := tl.CurrentRoot();
      sth := Sth(logId, tl.TreeSize(), root);
    }

    /** buildAttestationDto */
    method BuildAttestationDto(rec: AttestationRecord, already: bool, anchorUp: bool) returns (reply: Reply)
      requires Valid() && |Tree(View(), rec.fixed.logId)| <= MAX_SIZE
      modifies this`logs, this`Repr, anchors
      ensures Valid() && fresh(Repr - old(Repr))
      ensures Does(reply, AttestationDto(env, old(View()), rec.Value(), already, anchorUp))
    {
      hide Tree, View, InclusionFor, SthOf, LedgerModel.GetLog;
      var a := rec.Value();
      var inclusion, sth := LatestProof(a.logId, a.leafIndex);
      if inclusion.None? {
        return Failed(OutOfRange);
      }
      var ok := AskForAnchor(sth, anchorUp);
      if !ok {
        return Failed(ChainUnavailable);
      }
      return AttestationReply(a.registryId, a.status, a.logId, a.leafIndex, a.leafHash, inclusion.value, sth, already);
    }

    method AnchorAttestation(req: AttestationRequest, tenant: Text, registryId: Text, at: Text, anchorUp: bool)
      returns (reply: Reply)
      requires Valid() && HasRoom() && registryId !in store.attById
      modifies Repr
      ensures Valid() && fresh(Repr - old(Repr))
      ensures KeepsOrder()
      ensures Does(reply, LedgerModel.AnchorAttestation(env, old(View()), req, tenant, registryId, at, anchorUp))
    {
      hide Tree, Mth, Path, Append, ContentKey, Lower, TenantLogId, LeafOf, AttestationDto;
      var contentHash := Lower(req.contentHash);
      var existing := store.GetAttestationByContentHash(tenant, contentHash);
      if existing != null {
        reply := BuildAttestationDto(existing, true, anchorUp);
        return;
      }
      reply := AnchorNew(req, contentHash, tenant, registryId, at, anchorUp);
    }

    /** The part of anchorAttestation for a content hash that is not known. */
    method AnchorNew(req: AttestationRequest, contentHash: Text, tenant: Text, registryId: Text, at: Text,
                     anchorUp: bool)
      returns (reply: Reply)
      requires Valid() && HasRoom() && registryId !in store.attById && contentHash == Lower(req.contentHash)
      requires ContentKey(tenant, contentHash) !in View().attByContent
      modifies Repr
      ensures Valid() && fresh(Repr - old(Repr))
      ensures KeepsOrder()
      ensures Does(reply, LedgerModel.AnchorAttestation(env, old(View()), req, tenant, registryId, at, anchorUp))
    {
      hide Tree, Path, Append, ContentKey, Lower, TenantLogId, LeafOf, View, SthOf, Store.Valid, HasRoom,
           LedgerModel.AnchorAttestation, LedgerModel.PutAttestation, LedgerModel.AppendStatus;
      var logId := TenantLogId(tenant);
      RoomIn(logId);
      AnchoredIs(env, View(), req, tenant, registryId, at, anchorUp);
      var leaf := LeafOf(AttestationFields(registryId, contentHash, req.subject, req.issuer, req.recordType));
      var r := AppendAndAnchor(logId, leaf, anchorUp);
      AppendedTree(old(View()), logId, leaf, logId);
      if r.NotAnchored? {
        return Failed(ChainUnavailable);
      }
      var a := Attestation(registryId, req.subject, req.issuer, req.recordType, contentHash, Active, tenant, logId,
                           r.leafIndex, r.leafHash, req.passport, at);
      var entry := StatusEntry(registryId, Active, at, None, req.issuer, logId, r.leafIndex, r.leafHash);
      var inclusion := Record(a, entry);
      reply := AttestationReply(registryId, Active, logId, r.leafIndex, r.leafHash, inclusion, r.sth, false);
    }

    /** The proof of a leaf in a cached tree, at its present size. */
    method CurrentProof(logId: Text, leafIndex: nat) returns (p: InclusionProof)
      requires Valid() && logId in logs && leafIndex < |Tree(View(), logId)| <= MAX_SIZE
      modifies this`logs, this`Repr
      ensures Valid() && View() == old(View()) && logs == old(logs) && Repr == old(Repr)
      ensures p == InclusionProof(leafIndex, |Tree(View(), logId)|, Path(env.h, leafIndex, Tree(View(), logId)))
    {
      hide Tree, Mth, Path;
      var tl := GetLog(logId);
      CachedTree(old(View()), logId);
      WholeList(tl.leaves);
      var inclusion := tl.InclusionProofFor(leafIndex, tl.TreeSize());
      return inclusion.value;
    }

    /** Stores a new attestation with the first entry of its history; then the proof of that entry. */
    method Record(a: Attestation, entry: StatusEntry) returns (inclusion: InclusionProof)
      requires Valid() && a.registryId !in store.attById
      requires entry.logId in logs && entry.leafIndex < |Tree(View(), entry.logId)| <= MAX_SIZE
      modifies this`logs, store`attById, store`attOrder, store`attByContent, store`statusByRegistry, this`Repr
      ensures Valid() && fresh(Repr - old(Repr)) && old(Repr) <= Repr
      ensures KeepsOrder()
      ensures View() == LedgerModel.AppendStatus(LedgerModel.PutAttestation(old(View()), a), entry)
      ensures inclusion == InclusionProof(entry.leafIndex, |Tree(View(), entry.logId)|,
                                          Path(env.h, entry.leafIndex, Tree(View(), entry.logId)))
    {
      hide View, Tree, Mth, Path, ContentKey;
      ghost var s := View();
      PutRecord(a);
      WriteStatus(entry);
      SameTrees(s, View());
      inclusion := CurrentProof(entry.logId, entry.leafIndex);
    }

    method PutRecord(a: Attestation)
      requires Valid() && a.registryId !in store.attById
      modifies store`attById, store`attOrder, store`attByContent, this`Repr
      ensures Valid() && fresh(Repr - old(Repr)) && old(Repr) <= Repr
      ensures KeepsOrder()
      ensures View() == LedgerModel.PutAttestation(old(View()), a)
    {
      hide Store.View, Store.Valid, Trees, ContentKey;
      var rec := new AttestationRecord(a);
      store.PutAttestation(rec);
      Repr := Repr + {rec};
    }

    method WriteStatus(entry: StatusEntry)
      requires Valid()
      modifies store`statusByRegistry
      ensures Valid() && View() == LedgerModel.AppendStatus(old(View()), entry)
    {
      hide AttestationValues, AttestationIds, EvidenceValues, EvidenceIds, Trees;
      store.AppendStatus(entry);
    }

    method GetAttestation(registryId: Text, anchorUp: bool) returns (reply: Reply)
      requires Valid() && HasRoom()
      modifies Repr
      ensures Valid() && fresh(Repr - old(Repr))
      ensures KeepsOrder()
      ensures Does(reply, LedgerModel.GetAttestation(env, old(View()), registryId, anchorUp))
    {
      hide Tree, Mth, Path, AttestationDto;
      var rec := store.GetAttestationById(registryId);
      if rec == null {
        return Failed(NotFound);
      }
      reply := BuildAttestationDto(rec, false, anchorUp);
    }

    method GetInclusion(registryId: Text, treeSize: Option<int>, anchorUp: bool) returns (reply: Reply)
      requires Valid() && HasRoom()
      modifies Repr
      ensures Valid() && fresh(Repr - old(Repr))
      ensures KeepsOrder()
      ensures Does(reply, LedgerModel.GetInclusion(env, old(View()), registryId, treeSize, anchorUp))
    {
      hide Tree, Mth, Path, View, Store.Valid;
      RecordView(registryId);
      var rec := store.GetAttestationById(registryId);
      if rec == null {
        return Failed(NotFound);
      }
      var logId, index := rec.fixed.logId, rec.fixed.leafIndex;
      var tl := GetLog(logId);
      CachedTree(old(View()), logId);
      var size := match treeSize { case Some(n) => n case None => tl.TreeSize() };
      if size < 1 || size > tl.TreeSize() || index >= size {
        return Failed(ProofUnavailable);
      }
      var inclusion, root := tl.InclusionProofFor(index, size), tl.RootAt(size);
      var sth := Sth(logId, size, root.value);
      var ok := AskForAnchor(sth, anchorUp);
      if !ok {
        return Failed(ChainUnavailable);
      }
      return InclusionReply(registryId, inclusion.value, sth);
    }

    method GetStatusRecord(registryId: Text, anchorUp: bool) returns (reply: Reply)
      requires Valid() && HasRoom()
      modifies Repr
      ensures Valid() && fresh(Repr - old(Repr))
      ensures KeepsOrder()
      ensures Does(reply, LedgerModel.GetStatusRecord(env, old(View()), registryId, anchorUp))
    {
      hide Tree, View, InclusionFor, SthOf, LedgerModel.GetLog;
      RecordView(registryId);
      HistoryView(registryId);
      var rec := store.GetAttestationById(registryId);
      if rec == null {
        return Failed(NotFound);
      }
      var latest := store.GetLatestStatus(registryId);
      var index := match latest { case Some(e) => e.leafIndex case None => rec.fixed.leafIndex };
      var inclusion, sth := LatestProof(rec.fixed.logId, index);
      if inclusion.None? {
        return Failed(OutOfRange);
      }
      var ok := AskForAnchor(sth, anchorUp);
      if !ok {
        return Failed(ChainUnavailable);
      }
      var since := match latest { case Some(e) => e.since case None => rec.fixed.anchoredAt };
      var actor := match latest { case Some(e) => e.actor case None => rec.fixed.issuer };
      var next := match latest { case Some(e) => e.supersededBy case None => None };
      return StatusReply(registryId, rec.status, since, next, actor, inclusion.value, sth);
    }

    lemma HistoryView(registryId: Text)
      ensures History(View(), registryId)
           == if registryId in store.statusByRegistry then store.statusByRegistry[registryId] else []
    {
    }

    method SetStatus(registryId: Text, action: Action, supersededBy: Option<Text>, actorTenant: Text, since: Text,
                     anchorUp: bool)
      returns (reply: Reply)
      requires Valid() && HasRoom()
      modifies Repr
      ensures Valid() && fresh(Repr - old(Repr))
      ensures KeepsOrder()
      ensures Does(reply, LedgerModel.SetStatus(env, old(View()), registryId, action, supersededBy, actorTenant, since,
                                               anchorUp))
    {
      hide View, ChangedStatus;
      var rec := store.GetAttestationById(registryId);
      RecordView(registryId);
      if rec == null {
        return Failed(NotFound);
      }
      if rec.fixed.tenant != actorTenant {
        return Failed(ForbiddenTenant);
      }
      if rec.status == Revoked {
        return Failed(StatusConflict);
      }
      var status := if action == Revoke then Revoked else Superseded;
      reply := ChangeStatus(rec, status, supersededBy, actorTenant, since, anchorUp);
    }

    /** The part of setStatus after its checks. */
    method ChangeStatus(rec: AttestationRecord, status: Status, supersededBy: Option<Text>, actorTenant: Text,
                        since: Text, anchorUp: bool)
      returns (reply: Reply)
      requires Valid() && HasRoom()
      requires rec.fixed.registryId in store.attById && store.attById[rec.fixed.registryId] == rec
      modifies Repr
      ensures Valid() && fresh(Repr - old(Repr))
      ensures KeepsOrder()
      ensures Does(reply, ChangedStatus(env, old(View()), rec.fixed.registryId, status, supersededBy, actorTenant,
                                        since, anchorUp))
    {
      hide Tree, Mth, Path, Append, LeafOf, SthOf, View, LedgerModel.AppendStatus, ChangedStatus, Valid,
           HasRoom, Ascii, StatusText, OrEmpty;
      var registryId, logId := rec.fixed.registryId, rec.fixed.logId;
      RoomIn(logId);
      Owns(logId, registryId);
      ghost var s := View();
      RecordView(registryId);
      ChangedStatusIs(env, s, registryId, status, supersededBy, actorTenant, since, anchorUp);
      var leaf := LeafOf(StatusFields(registryId, status, since, actorTenant, supersededBy));
      var r := AppendAndAnchor(logId, leaf, anchorUp);
      if r.NotAnchored? {
        return Failed(ChainUnavailable);
      }
      var inclusion := RecordStatus(StatusEntry(registryId, status, since, supersededBy, actorTenant, logId,
                                                r.leafIndex, r.leafHash));
      reply := StatusReply(registryId, status, since, supersededBy, actorTenant, inclusion, r.sth);
    }

    /** The new entry of the history and, on the shared record, the new status; then the proof of the entry. */
    method RecordStatus(entry: StatusEntry) returns (inclusion: InclusionProof)
      requires Valid() && entry.registryId in store.attById && entry.registryId in View().attById
      requires entry.logId in logs && entry.leafIndex < |Tree(View(), entry.logId)| <= MAX_SIZE
      modifies this`logs, this`Repr, store`statusByRegistry, store.attById[entry.registryId]
      ensures Valid() && Repr == old(Repr)
      ensures store.attOrder == old(store.attOrder) && store.evOrder == old(store.evOrder)
      ensures var s, id := old(View()), entry.registryId;
              View() == LedgerModel.AppendStatus(s, entry)
                          .(attById := s.attById[id := s.attById[id].(status := entry.status)])
      ensures inclusion == InclusionProof(entry.leafIndex, |Tree(View(), entry.logId)|,
                                          Path(env.h, entry.leafIndex, Tree(View(), entry.logId)))
    {
      hide View, Tree, Mth, Path;
      ghost var s := View();
      WriteStatus(entry);
      WriteCurrentStatus(entry.registryId, entry.status);
      SameTrees(s, View());
      inclusion := CurrentProof(entry.logId, entry.leafIndex);
    }

    method WriteCurrentStatus(registryId: Text, status: Status)
      requires Valid() && registryId in store.attById
      modifies store.attById[registryId]
      ensures Valid() && registryId in old(View()).attById
      ensures View() == old(View()).(attById := old(View()).attById[registryId :=
                                                  old(View()).attById[registryId].(status := status)])
    {
      hide AttestationValues, AttestationIds, EvidenceValues, EvidenceIds, Trees;
      RecordLookup(store.attById, registryId);
      store.SetAttestationStatus(registryId, status);
    }

    lemma RecordView(registryId: Text)
      requires Valid()
      ensures registryId in View().attById <==> registryId in store.attById
      ensures registryId in store.attById ==>
                View().attById[registryId] == store.attById[registryId].Value()
                && View().attById[registryId].registryId == registryId
    {
    }

    // ---------- consistency ----------

    /** submitCheckpoint: the client's head is anchored and stored as it is. */
    method SubmitCheckpoint(head: Sth, checkpointId: Text, anchorUp: bool) returns (reply: Reply)
      requires Valid()
      modifies Repr
      ensures Valid() && fresh(Repr - old(Repr))
      ensures KeepsOrder()
      ensures Does(reply, LedgerModel.SubmitCheckpoint(old(View()), head, checkpointId, anchorUp))
    {
      hide Store.View, Store.Valid, Trees;
      var ok := AskForAnchor(head, anchorUp);
      if !ok {
        return Failed(ChainUnavailable);
      }
      store.PutCheckpoint(Checkpoint(checkpointId, head));
      return CheckpointReply(checkpointId, head);
    }

    method GetConsistency(logId: Text, first: int, second: int, answers: nat) returns (reply: Reply)
      requires Valid() && HasRoom()
      modifies Repr
      ensures Valid() && fresh(Repr - old(Repr))
      ensures KeepsOrder()
      ensures Does(reply, LedgerModel.GetConsistency(env, old(View()), logId, first, second, answers))
    {
      hide Tree, Mth, ConsistencyProofs.Proof, View, Store.Valid, Log.RootAt, Log.ConsistencyProofFor, HasRoom,
           LedgerModel.GetConsistency, LedgerModel.GetLog;
      LeavesView(logId);
      RoomIn(logId);
      ConsistencyIs(env, View(), logId, first, second, answers);
      var leaves := store.GetLeaves(logId);
      if |leaves| == 0 {
        return Failed(ProofUnavailable);
      }
      var tl := GetLog(logId);
      if first < 1 || second > tl.TreeSize() || first > second {
        return Failed(ProofUnavailable);
      }
      var proof := tl.ConsistencyProofFor(first, second);
      var firstRoot, secondRoot := tl.RootAt(first), tl.RootAt(second);
      var a, b := Sth(logId, first, firstRoot.value), Sth(logId, second, secondRoot.value);
      var ok := AnchorBoth(a, b, answers);
      if !ok {
        return Failed(ChainUnavailable);
      }
      return ConsistencyReply(logId, a, b, proof.value.path);
    }

    /** The two anchors of a consistency reply, the second only if the first was answered. */
    method AnchorBoth(a: Sth, b: Sth, answers: nat) returns (ok: bool)
      requires Valid()
      modifies anchors
      ensures Valid() && View() == old(View()) && ok == (answers > 1)
      ensures anchors.handed == old(anchors.handed) + if answers == 0 then [a] else [a, b]
    {
      hide View, Store.Valid;
      ok := AskForAnchor(a, answers > 0);
      if !ok {
        return false;
      }
      ok := AskForAnchor(b, answers > 1);
    }

    lemma LeavesView(logId: Text)
      ensures StoredLeaves(View(), logId) == StoredLeaves(store.View(), logId)
    {
    }

    // ---------- evidence ----------

    /** buildEvidenceDto */
    method BuildEvidenceDto(rec: EvidenceRecord, already: bool, now: int, anchorUp: bool) returns (reply: Reply)
      requires Valid() && |Tree(View(), rec.fixed.logId)| <= MAX_SIZE
      modifies this`logs, this`Repr, anchors
      ensures Valid() && fresh(Repr - old(Repr))
      ensures Does(reply, EvidenceDto(env, old(View()), rec.Value(), already, now, anchorUp))
    {
      hide Tree, Mth, View, Store.Valid, Deletable;
      var tl := GetLog(rec.fixed.logId);
      CachedTree(old(View()), rec.fixed.logId);
      var root := tl.CurrentRoot();
      var e := rec.Value();
      var sth := Sth(e.logId, tl.TreeSize(), root);
      var ok := AskForAnchor(sth, anchorUp);
      if !ok {
        return Failed(ChainUnavailable);
      }
      return EvidenceReply(EvidenceEntry(e.evidenceId, e.contentHash, e.until, e.legalHold, Deletable(env, e, now),
                                         sth), already);
    }

    method RegisterEvidence(req: EvidenceRequest, tenant: Text, evidenceId: Text, now: int, anchorUp: bool)
      returns (reply: Reply)
      requires Valid() && HasRoom() && evidenceId !in store.evById
      modifies Repr
      ensures Valid() && fresh(Repr - old(Repr))
      ensures KeepsOrder()
      ensures Does(reply, LedgerModel.RegisterEvidence(env, old(View()), req, tenant, evidenceId, now, anchorUp))
    {
      hide Tree, Mth, Append, ContentKey, Lower, TenantLogId, LeafOf, EvidenceDto;
      var contentHash := Lower(req.contentHash);
      var existing := store.GetEvidenceByContentHash(tenant, contentHash);
      if existing != null {
        reply := BuildEvidenceDto(existing, true, now, anchorUp);
        return;
      }
      reply := RegisterNew(req, contentHash, tenant, evidenceId, now, anchorUp);
    }

    /** The part of registerEvidence for a content hash that is not known. */
    method RegisterNew(req: EvidenceRequest, contentHash: Text, tenant: Text, evidenceId: Text, now: int,
                       anchorUp: bool)
      returns (reply: Reply)
      requires Valid() && HasRoom() && evidenceId !in store.evById && contentHash == Lower(req.contentHash)
      requires ContentKey(tenant, contentHash) !in View().evByContent
      modifies Repr
      ensures Valid() && fresh(Repr - old(Repr))
      ensures KeepsOrder()
      ensures Does(reply, LedgerModel.RegisterEvidence(env, old(View()), req, tenant, evidenceId, now, anchorUp))
    {
      hide Tree, Append, ContentKey, Lower, TenantLogId, LeafOf, View, SthOf, Deletable, Store.Valid, HasRoom,
           LedgerModel.RegisterEvidence, LedgerModel.PutEvidence;
      var logId := TenantLogId(tenant);
      RoomIn(logId);
      RegisteredIs(env, View(), req, tenant, evidenceId, now, anchorUp);
      var legalHold := match req.legalHold { case Some(b) => b case None => false };
      var leaf := LeafOf(EvidenceFields(evidenceId, contentHash, req.until, req.basis, legalHold));
      var r := AppendAndAnchor(logId, leaf, anchorUp);
      if r.NotAnchored? {
        return Failed(ChainUnavailable);
      }
      var e := Evidence(evidenceId, contentHash, req.until, req.basis, legalHold, tenant, logId, r.leafIndex,
                        req.subject, req.passport, false);
      NewEvidence(e);
      return EvidenceReply(
        EvidenceEntry(evidenceId, contentHash, e.until, legalHold, Deletable(env, e, now), r.sth), false);
    }

    method NewEvidence(e: Evidence)
      requires Valid() && e.evidenceId !in store.evById
      modifies store`evById, store`evOrder, store`evByContent, this`Repr
      ensures Valid() && fresh(Repr - old(Repr)) && old(Repr) <= Repr
      ensures KeepsOrder()
      ensures View() == LedgerModel.PutEvidence(old(View()), e)
    {
      hide Store.View, Store.Valid, Trees, ContentKey;
      var rec := new EvidenceRecord(e);
      store.PutEvidence(rec);
      Repr := Repr + {rec};
    }

    method GetEvidence(evidenceId: Text, now: int, anchorUp: bool) returns (reply: Reply)
      requires Valid() && HasRoom()
      modifies Repr
      ensures Valid() && fresh(Repr - old(Repr))
      ensures KeepsOrder()
      ensures Does(reply, LedgerModel.GetEvidence(env, old(View()), evidenceId, now, anchorUp))
    {
      hide Tree, Mth, EvidenceDto, View, Store.Valid;
      EvidenceView(evidenceId);
      var rec := store.GetEvidenceById(evidenceId);
      if rec == null || rec.deleted {
        return Failed(NotFound);
      }
      reply := BuildEvidenceDto(rec, false, now, anchorUp);
    }

    /** Changes the record in place, then stores it again. */
    method ChangeEvidence(rec: EvidenceRecord, until: Text, legalHold: bool, deleted: bool)
      requires Valid() && rec.fixed.evidenceId in store.evById && store.evById[rec.fixed.evidenceId] == rec
      modifies rec, store`evById, store`evOrder, store`evByContent
      ensures Valid()
      ensures KeepsOrder()
      ensures rec.Value() == old(rec.Value()).(until := until, legalHold := legalHold, deleted := deleted)
      ensures View() == LedgerModel.PutEvidence(old(View()), rec.Value())
    {
      hide Store.View, Store.Valid, Trees, ContentKey;
      ghost var before := View();
      MutateEvidence(rec, until, legalHold, deleted);
      store.PutEvidence(rec);
      WrittenTwice(before, rec.Value());
    }

    method MutateEvidence(rec: EvidenceRecord, until: Text, legalHold: bool, deleted: bool)
      requires Valid() && rec.fixed.evidenceId in store.evById && store.evById[rec.fixed.evidenceId] == rec
      modifies rec
      ensures Valid()
      ensures rec.Value() == old(rec.Value()).(until := until, legalHold := legalHold, deleted := deleted)
      ensures View() == old(View()).(evById := old(View()).evById[rec.fixed.evidenceId := rec.Value()])
    {
      hide AttestationValues, AttestationIds, EvidenceIds, Trees, OrderOf, Store.AttestationsValid;
      rec.until := until;
      rec.legalHold := legalHold;
      rec.deleted := deleted;
      assert store.EvidenceMap() == old(store.EvidenceMap())[rec.fixed.evidenceId := rec.Value()];
    }

    method UpdateRetention(evidenceId: Text, legalHold: Option<bool>, extendUntil: Option<Text>, tenant: Text,
                           now: int, anchorUp: bool)
      returns (reply: Reply)
      requires Valid() && HasRoom()
      modifies Repr
      ensures Valid() && fresh(Repr - old(Repr))
      ensures KeepsOrder()
      ensures Does(reply, LedgerModel.UpdateRetention(env, old(View()), evidenceId, legalHold, extendUntil, tenant, now,
                                                     anchorUp))
    {
      hide Tree, View, EvidenceDto, LedgerModel.PutEvidence, Store.Valid;
      EvidenceView(evidenceId);
      var rec := store.GetEvidenceById(evidenceId);
      if rec == null || rec.deleted {
        return Failed(NotFound);
      }
      if rec.fixed.tenant != tenant {
        return Failed(ForbiddenTenant);
      }
      var until := rec.until;
      if extendUntil.Some? {
        var current, next := env.parseDate(rec.until), env.parseDate(extendUntil.value);
        if next.None? {
          return Failed(InvalidRequest);
        }
        if current.Some? && next.value < current.value {
          return Failed(StatusConflict);
        }
        until := extendUntil.value;
      }
      var hold := if legalHold.Some? then legalHold.value else rec.legalHold;
      ghost var s := View();
      ChangeEvidence(rec, until, hold, rec.deleted);
      TreesOfChanged(s, rec.Value());
      reply := BuildEvidenceDto(rec, false, now, anchorUp);
    }

    lemma EvidenceView(evidenceId: Text)
      requires Valid()
      ensures evidenceId in View().evById <==> evidenceId in store.evById
      ensures evidenceId in store.evById ==>
                View().evById[evidenceId] == store.evById[evidenceId].Value()
                && View().evById[evidenceId].evidenceId == evidenceId
    {
    }

    method DeleteEvidence(evidenceId: Text, tenant: Text, now: int, at: Text, anchorUp: bool) returns (reply: Reply)
      requires Valid() && HasRoom()
      modifies Repr
      ensures Valid() && fresh(Repr - old(Repr))
      ensures KeepsOrder()
      ensures Does(reply, LedgerModel.DeleteEvidence(env, old(View()), evidenceId, tenant, now, at, anchorUp))
    {
      hide Tree, View, Append, LeafOf, LedgerModel.PutEvidence, SthOf, HasRoom, LedgerModel.DeleteEvidence;
      EvidenceView(evidenceId);
      DeletedIs(env, View(), evidenceId, tenant, now, at, anchorUp);
      var rec := store.GetEvidenceById(evidenceId);
      if rec == null || rec.deleted {
        return Failed(NotFound);
      }
      if rec.fixed.tenant != tenant {
        return Failed(ForbiddenTenant);
      }
      var until := env.parseDate(rec.until);
      var locked := (until.Some? && until.value > now) || rec.legalHold;
      if locked {
        RoomIn(rec.fixed.logId);
        var r := AppendAndAnchor(rec.fixed.logId, LeafOf(DeleteAttemptFields(evidenceId, at, tenant)), anchorUp);
        return Failed(if r.NotAnchored? then ChainUnavailable else RetentionLocked);
      }
      ChangeEvidence(rec, rec.until, rec.legalHold, true);
      return Deleted;
    }

    // ---------- the public bundle ----------

    method VerifyBundle(subject: Text, now: int, answers: nat)
      returns (reply: Reply, ghost attIds: seq<Text>, ghost evIds: seq<Text>)
      requires Valid() && HasRoom()
      modifies Repr
      ensures Valid() && fresh(Repr - old(Repr))
      ensures KeepsOrder()
      ensures attIds == Select(old(store.attOrder), AttestationSelects(old(View()).attById, subject))
      ensures evIds == Select(old(store.evOrder), EvidenceSelects(old(View()).evById, subject))
      ensures Lists(old(View()), subject, attIds, evIds)
      ensures Does(reply, LedgerModel.VerifyBundle(env, old(View()), attIds, evIds, now, answers))
    {
      hide View, Lists, HasRoom, GatherAttestations, GatherEvidence, AttestationMatches, EvidenceMatches;
      hide AttestationSelects, EvidenceSelects, Select, Store.Attestations, Store.EvidenceMap, OrderOf;
      hide LatestCheckpoints, BundleLogs, BundleHeads, EvidenceHeads, OnlyCaches, Store.AttestationsValid,
           Store.EvidenceValid, LedgerModel.VerifyBundle;
      ghost var s := View();
      var atts := store.ListAttestationsBySubject(subject);
      var evs := store.ListEvidenceBySubject(subject);
      attIds, evIds := AttestationIdsOf(atts), EvidenceIdsOf(evs);
      OrderedListing(subject);
      BundleIsMadeOf(env, s, attIds, evIds, now, answers);
      var attestations, logIds, attError := BundleAttestations(atts, answers);
      if attError.Some? {
        return Failed(attError.value), attIds, evIds;
      }
      var checkpoints := BundleCheckpoints(logIds);
      GatheringAttestationsOnlyCaches(env, s, attIds, answers, []);
      SameLatest(s, View(), logIds);
      var evidence, evError := BundleEvidence(evs, now, Minus(answers, |attestations|));
      if evError.Some? {
        return Failed(evError.value), attIds, evIds;
      }
      reply := BundleReply(attestations, checkpoints, evidence);
    }

    method BundleCheckpoints(logIds: seq<Text>) returns (checkpoints: seq<Sth>)
      ensures checkpoints == LatestCheckpoints(View(), logIds)
    {
      hide View;
      checkpoints := [];
      CheckpointsView();
      assert logIds[..0] == [];
      for i := 0 to |logIds|
        invariant checkpoints == LatestCheckpoints(View(), logIds[..i])
      {
        assert logIds[..i + 1][..i] == logIds[..i];
        var latest := store.LatestCheckpoint(logIds[i]);
        if latest.Some? {
          checkpoints := checkpoints + [latest.value.head];
        }
      }
      assert logIds[..|logIds|] == logIds;
    }

    lemma CheckpointsView()
      ensures View().checkpoints == store.checkpointsByLog
    {
    }

    lemma OrderedListing(subject: Text)
      requires store.Valid()
      ensures View().attById == store.Attestations() && View().evById == store.EvidenceMap()
      ensures Lists(View(), subject, Select(store.attOrder, AttestationSelects(View().attById, subject)),
                    Select(store.evOrder, EvidenceSelects(View().evById, subject)))
    {
      hide Lists, Select, AttestationSelects, EvidenceSelects;
      assert View().attById.Keys == store.attById.Keys && View().evById.Keys == store.evById.Keys;
      SelectedAreListed(View(), subject, store.attOrder, store.evOrder);
    }

    method BundleAttestations(recs: seq<AttestationRecord>, answers: nat)
      returns (entries: seq<BundleEntry>, logIds: seq<Text>, error: Option<Error>)
      requires Valid() && HasRoom() && forall rec | rec in recs :: store.HasAttestation(rec)
      modifies this`logs, this`Repr, anchors
      ensures Valid() && HasRoom() && fresh(Repr - old(Repr))
      ensures var g := GatherAttestations(env, old(View()), AttestationIdsOf(recs), answers, []);
              && View() == g.state && entries == g.entries && error == g.error
              && anchors.handed == old(anchors.handed) + g.handed
      ensures error.None? ==> logIds == BundleLogs(entries)
    {
      hide View, Tree, SthOf, InclusionFor, LedgerModel.GetLog, Store.Valid, BundleHeads, HasRoom, BundleLogs,
           GatherAttestations;
      ghost var ids := AttestationIdsOf(recs);
      entries, logIds, error := [], [], None;
      NoHeads();
      NoMoreIds(env, View(), ids, 0, answers, [], []);
      for i := 0 to |recs|
        invariant Valid() && HasRoom() && fresh(Repr - old(Repr))
        invariant |entries| == i <= answers && logIds == BundleLogs(entries)
        invariant anchors.handed == old(anchors.handed) + BundleHeads(entries)
        invariant GatherAttestations(env, View(), ids[i..], answers - i, entries)
               == GatherAttestations(env, old(View()), ids, answers, [])
      {
        assert recs[i] in recs && ids[i] == recs[i].fixed.registryId;
        RecordView(ids[i]);
        NextAttestation(env, View(), ids, i, answers - i, entries);
        var entry := BundleAttestation(recs[i], i < answers);
        if entry.NotMade? {
          return entries, logIds, Some(entry.error);
        }
        MoreBundleHeads(entries, entry.value);
        entries := entries + [entry.value];
        var logId := entry.value.sth.logId;
        logIds := if logId in logIds then logIds else logIds + [logId];
      }
      NoMoreIds(env, View(), ids, 0, answers - |recs|, entries, []);
    }

    /** One turn of that loop. */
    method BundleAttestation(rec: AttestationRecord, answered: bool) returns (entry: Entry)
      requires Valid() && HasRoom() && store.HasAttestation(rec)
      modifies this`logs, this`Repr, anchors
      ensures Valid() && HasRoom() && fresh(Repr - old(Repr))
      ensures View() == LedgerModel.GetLog(old(View()), rec.fixed.logId)
      ensures var s, a := View(), rec.Value();
              var p := InclusionFor(env, s, a.logId, a.leafIndex, |Tree(s, a.logId)|);
              && entry == EntryFor(a, p, SthOf(env, s, a.logId), answered)
              && anchors.handed == old(anchors.handed) + if p.Some? then [SthOf(env, s, a.logId)] else []
    {
      hide View, Tree, SthOf, InclusionFor, LedgerModel.GetLog, Store.Valid;
      GetLogKeepsTrees(View(), rec.fixed.logId);
      var inclusion, sth := LatestProof(rec.fixed.logId, rec.fixed.leafIndex);
      if inclusion.None? {
        return NotMade(OutOfRange);
      }
      var ok := AskForAnchor(sth, answered);
      if !ok {
        return NotMade(ChainUnavailable);
      }
      return Made(BundleEntry(rec.fixed.registryId, rec.status, inclusion.value, sth));
    }

    method BundleEvidence(recs: seq<EvidenceRecord>, now: int, answers: nat)
      returns (entries: seq<EvidenceEntry>, error: Option<Error>)
      requires Valid() && HasRoom() && forall rec | rec in recs :: store.HasEvidence(rec)
      modifies this`logs, this`Repr, anchors
      ensures Valid() && fresh(Repr - old(Repr))
      ensures var g := GatherEvidence(env, old(View()), EvidenceIdsOf(recs), now, answers, []);
              && View() == g.state && entries == g.entries && error == g.error
              && anchors.handed == old(anchors.handed) + g.handed
    {
      hide View, Tree, EntryOf, LedgerModel.GetLog, Store.Valid, EvidenceHeads, GatherEvidence;
      ghost var ids := EvidenceIdsOf(recs);
      entries, error := [], None;
      NoHeads();
      NoMoreIds(env, View(), ids, now, answers, [], []);
      for i := 0 to |recs|
        invariant Valid() && HasRoom() && fresh(Repr - old(Repr))
        invariant |entries| == i <= answers
        invariant anchors.handed == old(anchors.handed) + EvidenceHeads(entries)
        invariant GatherEvidence(env, View(), ids[i..], now, answers - i, entries)
               == GatherEvidence(env, old(View()), ids, now, answers, [])
      {
        assert recs[i] in recs && ids[i] == recs[i].fixed.evidenceId;
        EvidenceView(ids[i]);
        NextEvidence(env, View(), ids, i, now, answers - i, entries);
        GetLogKeepsTrees(View(), recs[i].fixed.logId);
        var dto := BuildEvidenceDto(recs[i], false, now, i < answers);
        if dto.Failed? {
          return entries, Some(dto.error);
        }
        MoreEvidenceHeads(entries, dto.entry);
        entries := entries + [dto.entry];
      }
      NoMoreIds(env, View(), ids, now, answers - |recs|, [], entries);
    }
  }

  lemma BundleIsMadeOf(env: Env, s: State, atts: seq<Text>, evs: seq<Text>, now: int, answers: nat)
    ensures var g := GatherAttestations(env, s, atts, answers, []);
            var f := GatherEvidence(env, g.state, evs, now, Minus(answers, |g.entries|), []);
            LedgerModel.VerifyBundle(env, s, atts, evs, now, answers)
            == if g.error.Some? then Outcome(g.state, Failed(g.error.value), g.handed)
               else
                 Outcome(f.state, if f.error.Some? then Failed(f.error.value)
                                  else BundleReply(g.entries, LatestCheckpoints(s, BundleLogs(g.entries)), f.entries),
                         g.handed + f.handed)
  {
    hide GatherAttestations, GatherEvidence, LatestCheckpoints, BundleLogs;
  }

  lemma {:induction false} SameLatest(s: State, t: State, logIds: seq<Text>)
    requires OnlyCaches(s, t)
    ensures LatestCheckpoints(t, logIds) == LatestCheckpoints(s, logIds)
  {
    if logIds != [] {
      SameLatest(s, t, logIds[..|logIds| - 1]);
    }
  }

  lemma MoreBundleHeads(entries: seq<BundleEntry>, e: BundleEntry)
    ensures BundleHeads(entries + [e]) == BundleHeads(entries) + [e.sth]
    ensures var logs := BundleLogs(entries);
            BundleLogs(entries + [e]) == if e.sth.logId in logs then logs else logs + [e.sth.logId]
  {
    assert (entries + [e])[..|entries|] == entries;
  }

  lemma NoHeads()
    ensures BundleHeads([]) == [] && BundleLogs([]) == [] && EvidenceHeads([]) == []
  {
  }

  lemma MoreEvidenceHeads(entries: seq<EvidenceEntry>, e: EvidenceEntry)
    ensures EvidenceHeads(entries + [e]) == EvidenceHeads(entries) + [e.sth]
  {
  }

  lemma NextAttestation(env: Env, s: State, ids: seq<Text>, i: nat, answers: nat, sofar: seq<BundleEntry>)
    requires i < |ids| && ids[i] in s.attById
    ensures var a := s.attById[ids[i]];
            var t := LedgerModel.GetLog(s, a.logId);
            var p, sth := InclusionFor(env, t, a.logId, a.leafIndex, |Tree(t, a.logId)|), SthOf(env, t, a.logId);
            GatherAttestations(env, s, ids[i..], answers, sofar)
            == match EntryFor(a, p, sth, answers > 0) {
                 case NotMade(error) =>
                   Gathered(t, sofar, BundleHeads(sofar) + (if p.Some? then [sth] else []), Some(error))
                 case Made(e) => GatherAttestations(env, t, ids[i + 1..], answers - 1, sofar + [e])
               }
  {
    hide Tree, SthOf, InclusionFor, LedgerModel.GetLog, BundleHeads;
    assert ids[i..][1..] == ids[i + 1..] && ids[i..][0] == ids[i];
  }

  lemma NextEvidence(env: Env, s: State, ids: seq<Text>, i: nat, now: int, answers: nat, sofar: seq<EvidenceEntry>)
    requires i < |ids| && ids[i] in s.evById
    ensures var e := s.evById[ids[i]];
            var t := LedgerModel.GetLog(s, e.logId);
            var entry := EntryOf(env, t, e, now);
            GatherEvidence(env, s, ids[i..], now, answers, sofar)
            == if answers == 0 then Gathered(t, sofar, EvidenceHeads(sofar) + [entry.sth], Some(ChainUnavailable))
               else GatherEvidence(env, t, ids[i + 1..], now, answers - 1, sofar + [entry])
  {
    hide EntryOf, LedgerModel.GetLog, EvidenceHeads;
    assert ids[i..][1..] == ids[i + 1..] && ids[i..][0] == ids[i];
  }

  lemma NoMoreIds(env: Env, s: State, ids: seq<Text>, now: int, answers: nat, atts: seq<BundleEntry>,
                  evs: seq<EvidenceEntry>)
    ensures ids[0..] == ids && ids[|ids|..] == []
    ensures GatherAttestations(env, s, [], answers, atts) == Gathered(s, atts, BundleHeads(atts), None)
    ensures GatherEvidence(env, s, [], now, answers, evs) == Gathered(s, evs, EvidenceHeads(evs), None)
  {
  }

  lemma DeletedIs(env: Env, s: State, id: Text, tenant: Text, now: int, at: Text, up: bool)
    ensures var o := LedgerModel.DeleteEvidence(env, s, id, tenant, now, at, up);
            if id !in s.evById || s.evById[id].deleted then o == Outcome(s, Failed(NotFound), [])
            else
              var e := s.evById[id];
              var t := Append(s, e.logId, LeafOf(DeleteAttemptFields(id, at, tenant)));
              if e.tenant != tenant then o == Outcome(s, Failed(ForbiddenTenant), [])
              else if Deletable(env, e, now) then
                o == Outcome(LedgerModel.PutEvidence(s, e.(deleted := true)), Deleted, [])
              else
                o == Outcome(t, Failed(if up then RetentionLocked else ChainUnavailable), [SthOf(env, t, e.logId)])
  {
    hide Append, LeafOf, LedgerModel.PutEvidence, SthOf;
  }

  lemma ConsistencyIs(env: Env, s: State, logId: Text, first: int, second: int, answers: nat)
    ensures var t, tree := LedgerModel.GetLog(s, logId), Tree(s, logId);
            var o := LedgerModel.GetConsistency(env, s, logId, first, second, answers);
            && (StoredLeaves(s, logId) == [] ==> o == Outcome(s, Failed(ProofUnavailable), []))
            && (StoredLeaves(s, logId) != [] && !(1 <= first <= second <= |tree|) ==>
                  o == Outcome(t, Failed(ProofUnavailable), []))
            && (StoredLeaves(s, logId) != [] && 1 <= first <= second <= |tree| ==>
                  var a := Sth(logId, first, Mth(env.h, tree[..first]));
                  var b := Sth(logId, second, Mth(env.h, tree[..second]));
                  var path := ConsistencyProofs.Proof(env.h, first, tree[..second]);
                  o == Outcome(t, if answers > 1 then ConsistencyReply(logId, a, b, path) else Failed(ChainUnavailable),
                               if answers == 0 then [a] else [a, b]))
  {
    hide Mth, ConsistencyProofs.Proof;
    CachedTree(s, logId);
    hide Tree;
  }

  lemma AppendInSteps(s: State, logId: Text, leaf: Bytes)
    ensures var t := LedgerModel.GetLog(s, logId);
            Append(s, logId, leaf)
            == t.(logs := t.logs[logId := Tree(s, logId) + [leaf]],
                  leaves := t.leaves[logId := StoredLeaves(t, logId) + [ToHex(leaf)]])
  {
    hide ToHex, DecodeAll;
    var tree := Tree(s, logId);
    assert s.logs[logId := tree][logId := tree + [leaf]] == s.logs[logId := tree + [leaf]];
  }

  lemma ChangedStatusIs(env: Env, s: State, registryId: Text, status: Status, supersededBy: Option<Text>,
                        actor: Text, since: Text, up: bool)
    requires registryId in s.attById
    ensures var a := s.attById[registryId];
            var leaf := LeafOf(StatusFields(registryId, status, since, actor, supersededBy));
            var t, n := Append(s, a.logId, leaf), |Tree(s, a.logId)|;
            var entry := StatusEntry(registryId, status, since, supersededBy, actor, a.logId, n, env.h.leaf(leaf));
            var u := LedgerModel.AppendStatus(t, entry).(attById := s.attById[registryId := a.(status := status)]);
            && Tree(t, a.logId) == Tree(s, a.logId) + [leaf] && t == s.(logs := t.logs, leaves := t.leaves)
            && ChangedStatus(env, s, registryId, status, supersededBy, actor, since, up)
               == if !up then Outcome(t, Failed(ChainUnavailable), [SthOf(env, t, a.logId)])
                  else Outcome(u, StatusReply(registryId, status, since, supersededBy, actor,
                                              InclusionProof(n, |Tree(u, a.logId)|, Path(env.h, n, Tree(u, a.logId))),
                                              SthOf(env, t, a.logId)),
                               [SthOf(env, t, a.logId)])
  {
    hide Tree, Append, Path, LeafOf, SthOf;
    var a := s.attById[registryId];
    var leaf := LeafOf(StatusFields(registryId, status, since, actor, supersededBy));
    var t, n := Append(s, a.logId, leaf), |Tree(s, a.logId)|;
    AppendedTree(s, a.logId, leaf, a.logId);
    AppendKeepsRecords(s, a.logId, leaf);
    var entry := StatusEntry(registryId, status, since, supersededBy, actor, a.logId, n, env.h.leaf(leaf));
    SameTrees(t, LedgerModel.AppendStatus(t, entry).(attById := s.attById[registryId := a.(status := status)]));
  }

  lemma RecordLookup(m: map<Text, AttestationRecord>, id: Text)
    requires id in m
    ensures id in AttestationValues(m) && AttestationValues(m)[id] == m[id].Value()
  {
  }

  lemma WrittenTwice(s: State, e: Evidence)
    ensures LedgerModel.PutEvidence(s.(evById := s.evById[e.evidenceId := e]), e) == LedgerModel.PutEvidence(s, e)
  {
    assert s.evById[e.evidenceId := e][e.evidenceId := e] == s.evById[e.evidenceId := e];
  }

  lemma TreesOfChanged(s: State, e: Evidence)
    ensures forall l :: Tree(LedgerModel.PutEvidence(s, e), l) == Tree(s, l)
  {
    SameTrees(s, LedgerModel.PutEvidence(s, e));
  }

  lemma CachedTree(s: State, logId: Text)
    ensures var t := LedgerModel.GetLog(s, logId);
            logId in t.logs && Tree(t, logId) == Tree(s, logId)
    ensures logId in s.logs ==> LedgerModel.GetLog(s, logId) == s
  {
  }

  lemma GetLogKeepsTrees(s: State, logId: Text)
    ensures forall l :: Tree(LedgerModel.GetLog(s, logId), l) == Tree(s, l)
  {
    GetLogOnlyCaches(s, logId);
    CachingKeepsTrees(s, LedgerModel.GetLog(s, logId));
  }

  lemma WholeList(d: seq<Bytes>)
    ensures d[..|d|] == d
  {
  }

  lemma TreesLookup(m: map<Text, Log>, l: Text)
    ensures l in m <==> l in Trees(m)
    ensures l in m ==> Trees(m)[l] == m[l].leaves
  {
  }

}
