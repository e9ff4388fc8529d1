/** What every ledger operation keeps, and how a state may grow into a later one. */
module LedgerInvariant {
  import opened Hashing
  import opened Encoding
  import opened Texts
  import opened MerkleTree
  import opened TransparencyLog
  import opened LedgerModel

  /** Leaf number `i` of the log is `leaf`. */
  ghost predicate LeafAt(s: State, logId: Text, i: nat, leaf: Bytes) {
    i < |Tree(s, logId)| && Tree(s, logId)[i] == leaf
  }

  /** The cached trees are the decoded leaf table, and every stored leaf decodes. */
  ghost predicate CacheAgrees(s: State) {
    && (forall l | l in s.logs :: s.logs[l] == DecodeAll(StoredLeaves(s, l)))
    && (forall l, i | l in s.leaves && 0 <= i < |s.leaves[l]| :: FromHex(s.leaves[l][i]).Some?)
  }

  /** The record points at the leaf that encodes it, and its content key leads back to it. */
  ghost predicate AttestationSound(env: Env, s: State, id: Text)
    requires id in s.attById
  {
    var a := s.attById[id];
    && a.registryId == id
    && a.contentHash == Lower(a.contentHash)
    && a.logId == TenantLogId(a.tenant)
    && LeafAt(s, a.logId, a.leafIndex, AttestationLeaf(a))
    && a.leafHash == env.h.leaf(AttestationLeaf(a))
    && ContentKey(a.tenant, a.contentHash) in s.attByContent
    && s.attByContent[ContentKey(a.tenant, a.contentHash)] == id
  }

  ghost predicate EntrySound(env: Env, s: State, a: Attestation, e: StatusEntry, leaf: Bytes) {
    && e.registryId == a.registryId && e.logId == a.logId
    && LeafAt(s, a.logId, e.leafIndex, leaf)
    && e.leafHash == env.h.leaf(leaf)
  }

  /** The history starts at the attestation's own leaf, every later entry has a leaf of its own further
      on, the last entry is the record's status, and nothing follows a revocation. */
  ghost predicate HistorySound(env: Env, s: State, id: Text)
    requires id in s.attById && id in s.statuses
  {
    var a, hist := s.attById[id], s.statuses[id];
    && hist != []
    && hist[0] == StatusEntry(id, Active, a.anchoredAt, None, a.issuer, a.logId, a.leafIndex, a.leafHash)
    && hist[|hist| - 1].status == a.status
    && (forall i | 1 <= i < |hist| :: hist[i].status != Active && EntrySound(env, s, a, hist[i], StatusLeaf(hist[i])))
    && (forall i, j | 0 <= i < j < |hist| :: hist[i].leafIndex < hist[j].leafIndex)
    && (forall i | 0 <= i < |hist| - 1 :: hist[i].status != Revoked)
  }

  /** The record points at a leaf that encodes it under some earlier retention. */
  ghost predicate EvidenceSound(s: State, id: Text)
    requires id in s.evById
  {
    var e := s.evById[id];
    && e.evidenceId == id
    && e.contentHash == Lower(e.contentHash)
    && e.logId == TenantLogId(e.tenant)
    && (exists until, hold :: LeafAt(s, e.logId, e.leafIndex, EvidenceLeaf(e.(until := until, legalHold := hold))))
    && ContentKey(e.tenant, e.contentHash) in s.evByContent
    && s.evByContent[ContentKey(e.tenant, e.contentHash)] == id
  }

  /** Every content key leads to a record with that key. */
  ghost predicate IndexesSound(s: State) {
    && (forall k | k in s.attByContent ::
          s.attByContent[k] in s.attById
          && ContentKey(s.attById[s.attByContent[k]].tenant, s.attById[s.attByContent[k]].contentHash) == k)
    && (forall k | k in s.evByContent ::
          s.evByContent[k] in s.evById
          && ContentKey(s.evById[s.evByContent[k]].tenant, s.evById[s.evByContent[k]].contentHash) == k)
  }

  ghost predicate RecordsSound(env: Env, s: State) {
    && s.statuses.Keys == s.attById.Keys
    && (forall id {:trigger AttestationSound(env, s, id)} | id in s.attById :: AttestationSound(env, s, id))
    && (forall id {:trigger HistorySound(env, s, id)} | id in s.attById :: HistorySound(env, s, id))
    && (forall id {:trigger EvidenceSound(s, id)} | id in s.evById :: EvidenceSound(s, id))
    && IndexesSound(s)
  }

  ghost predicate Inv(env: Env, s: State) {
    CacheAgrees(s) && RecordsSound(env, s)
  }

  // ---------- growth ----------

  ghost predicate TreesGrow(s: State, t: State) {
    forall l :: Tree(s, l) <= Tree(t, l)
  }

  /** A recorded date is only ever replaced by one that is not earlier. */
  ghost predicate UntilGrows(env: Env, before: Text, after: Text) {
    env.parseDate(before).Some? ==>
      env.parseDate(after).Some? && env.parseDate(before).value <= env.parseDate(after).value
  }

  ghost predicate AttestationGrows(a: Attestation, b: Attestation) {
    b == a.(status := b.status) && (a.status == Revoked ==> b.status == Revoked)
  }

  ghost predicate EvidenceGrows(env: Env, e: Evidence, f: Evidence) {
    && f == e.(until := f.until, legalHold := f.legalHold, deleted := f.deleted)
    && UntilGrows(env, e.until, f.until)
    && (e.deleted ==> f == e)
  }

  /** Leaves are only appended, records only gain status, histories only get longer, retention is only
      extended, and a deleted evidence record never changes again. */
  ghost predicate Evolves(env: Env, s: State, t: State) {
    && TreesGrow(s, t)
    && (forall id | id in s.attById :: id in t.attById && AttestationGrows(s.attById[id], t.attById[id]))
    && (forall id | id in s.statuses :: id in t.statuses && s.statuses[id] <= t.statuses[id])
    && (forall id | id in s.evById :: id in t.evById && EvidenceGrows(env, s.evById[id], t.evById[id]))
    && (forall k | k in s.attByContent :: k in t.attByContent && t.attByContent[k] == s.attByContent[k])
    && (forall k | k in s.evByContent :: k in t.evByContent && t.evByContent[k] == s.evByContent[k])
  }

  lemma EvolvesTransitive(env: Env, s: State, t: State, u: State)
    requires Evolves(env, s, t) && Evolves(env, t, u)
    ensures Evolves(env, s, u)
  {
    hide Tree;
    forall l
      ensures Tree(s, l) <= Tree(u, l)
    {
      assert Tree(s, l) <= Tree(t, l) <= Tree(u, l);
    }
  }

  lemma EvolvesReflexive(env: Env, s: State)
    ensures Evolves(env, s, s)
  {
  }

  /** Same records, longer trees. */
  ghost predicate OnlyTreesGrow(s: State, t: State) {
    && t == s.(logs := t.logs, leaves := t.leaves, checkpoints := t.checkpoints)
    && TreesGrow(s, t)
  }

  lemma AttestationStays(env: Env, s: State, t: State, id: Text)
    requires id in s.attById && AttestationSound(env, s, id) && TreesGrow(s, t)
    requires id in t.attById && t.attById[id] == s.attById[id].(status := t.attById[id].status)
    requires var key := ContentKey(s.attById[id].tenant, s.attById[id].contentHash);
             key in t.attByContent && t.attByContent[key] == id
    ensures AttestationSound(env, t, id)
  {
    assert AttestationLeaf(t.attById[id]) == AttestationLeaf(s.attById[id]);
    hide Tree, AttestationLeaf, ContentKey, Lower, TenantLogId;
    assert Tree(s, s.attById[id].logId) <= Tree(t, s.attById[id].logId);
  }

  lemma EntryNames(env: Env, s: State, a: Attestation, e: StatusEntry, leaf: Bytes)
    requires EntrySound(env, s, a, e, leaf)
    ensures e.registryId == a.registryId
  {
  }

  lemma EntryStays(env: Env, s: State, t: State, a: Attestation, b: Attestation, e: StatusEntry, leaf: Bytes)
    requires EntrySound(env, s, a, e, leaf) && TreesGrow(s, t) && b == a.(status := b.status)
    ensures EntrySound(env, t, b, e, leaf)
  {
    hide Tree;
    assert Tree(s, a.logId) <= Tree(t, a.logId);
  }

  lemma HistoryStays(env: Env, s: State, t: State, id: Text)
    requires id in s.attById && id in s.statuses && HistorySound(env, s, id) && TreesGrow(s, t)
    requires id in t.attById && t.attById[id] == s.attById[id]
    requires id in t.statuses && t.statuses[id] == s.statuses[id]
    ensures HistorySound(env, t, id)
  {
    hide EntrySound, TreesGrow, StatusLeaf;
    var a, hist := s.attById[id], s.statuses[id];
    forall i | 1 <= i < |hist|
      ensures EntrySound(env, t, a, hist[i], StatusLeaf(hist[i]))
    {
      EntryStays(env, s, t, a, a, hist[i], StatusLeaf(hist[i]));
    }
  }

  lemma EvidenceStays(s: State, t: State, id: Text)
    requires id in s.evById && EvidenceSound(s, id) && TreesGrow(s, t)
    requires id in t.evById
    requires var e, f := s.evById[id], t.evById[id];
             f == e.(until := f.until, legalHold := f.legalHold, deleted := f.deleted)
    requires var key := ContentKey(s.evById[id].tenant, s.evById[id].contentHash);
             key in t.evByContent && t.evByContent[key] == id
    ensures EvidenceSound(t, id)
  {
    hide Tree, ContentKey, Lower, TenantLogId;
    var e, f := s.evById[id], t.evById[id];
    var until, hold :| LeafAt(s, e.logId, e.leafIndex, EvidenceLeaf(e.(until := until, legalHold := hold)));
    assert EvidenceLeaf(e.(until := until, legalHold := hold)) == EvidenceLeaf(f.(until := until, legalHold := hold));
    assert Tree(s, e.logId) <= Tree(t, e.logId);
    assert LeafAt(t, f.logId, f.leafIndex, EvidenceLeaf(f.(until := until, legalHold := hold)));
  }

  lemma AttestationsUntouched(env: Env, s: State, t: State)
    requires RecordsSound(env, s) && TreesGrow(s, t)
    requires t.attById == s.attById && t.attByContent == s.attByContent && t.statuses == s.statuses
    ensures forall id | id in t.attById :: AttestationSound(env, t, id) && HistorySound(env, t, id)
  {
    forall id | id in t.attById
      ensures AttestationSound(env, t, id) && HistorySound(env, t, id)
    {
      assert AttestationSound(env, s, id) && HistorySound(env, s, id);
      KeyOf(env, s, id);
      hide AttestationSound, HistorySound, TreesGrow, ContentKey;
      AttestationStays(env, s, t, id);
      HistoryStays(env, s, t, id);
    }
  }

  lemma KeyOf(env: Env, s: State, id: Text)
    requires RecordsSound(env, s)
    ensures id in s.attById ==>
              var key := ContentKey(s.attById[id].tenant, s.attById[id].contentHash);
              key in s.attByContent && s.attByContent[key] == id
    ensures id in s.evById ==>
              var key := ContentKey(s.evById[id].tenant, s.evById[id].contentHash);
              key in s.evByContent && s.evByContent[key] == id
  {
    hide ContentKey, Tree, LeafAt;
    if id in s.attById {
      assert AttestationSound(env, s, id);
    }
    if id in s.evById {
      assert EvidenceSound(s, id);
    }
  }

  lemma EvidenceUntouched(env: Env, s: State, t: State)
    requires RecordsSound(env, s) && TreesGrow(s, t) && t.evById == s.evById && t.evByContent == s.evByContent
    ensures forall id | id in t.evById :: EvidenceSound(t, id)
  {
    hide AttestationSound, HistorySound, EvidenceSound, TreesGrow, ContentKey;
    forall id | id in t.evById
      ensures EvidenceSound(t, id)
    {
      assert EvidenceSound(s, id);
      KeyOf(env, s, id);
      EvidenceStays(s, t, id);
    }
  }

  lemma RecordsSurvive(env: Env, s: State, t: State)
    requires RecordsSound(env, s) && OnlyTreesGrow(s, t)
    ensures RecordsSound(env, t) && Evolves(env, s, t)
  {
    hide AttestationSound, HistorySound, EvidenceSound, TreesGrow, ContentKey;
    AttestationsUntouched(env, s, t);
    EvidenceUntouched(env, s, t);
  }

  // ---------- caching ----------

  /** A tree is the decoded leaf table, whether it is cached or not. */
  lemma TreeIsStored(s: State, l: Text)
    requires CacheAgrees(s)
    ensures Tree(s, l) == DecodeAll(StoredLeaves(s, l))
  {
  }

  /** Dropping or loading cached trees changes nothing else. */
  lemma CachingKeepsInv(env: Env, s: State, t: State)
    requires Inv(env, s) && t == s.(logs := t.logs)
    requires forall l | l in t.logs :: t.logs[l] == Tree(s, l)
    ensures Inv(env, t) && Evolves(env, s, t) && forall l :: Tree(t, l) == Tree(s, l)
  {
    forall l
      ensures Tree(t, l) == Tree(s, l)
    {
      TreeIsStored(s, l);
    }
    assert CacheAgrees(t) by {
      forall l | l in t.logs
        ensures t.logs[l] == DecodeAll(StoredLeaves(t, l))
      {
        TreeIsStored(s, l);
      }
    }
    RecordsSurvive(env, s, t);
  }

  lemma GetLogKeepsInv(env: Env, s: State, logId: Text)
    requires Inv(env, s)
    ensures var t := GetLog(s, logId);
            Inv(env, t) && Evolves(env, s, t) && forall l :: Tree(t, l) == Tree(s, l)
  {
    var t := GetLog(s, logId);
    forall l | l in t.logs
      ensures t.logs[l] == Tree(s, l)
    {
    }
    CachingKeepsInv(env, s, t);
  }

  // ---------- appending a leaf ----------

  lemma DecodeAllSnoc(hexes: seq<string>, leaf: Bytes)
    ensures DecodeAll(hexes + [ToHex(leaf)]) == DecodeAll(hexes) + [leaf]
  {
    HexRoundTrip(leaf);
    hide ToHex, FromHex;
    assert DecodeLeaf(ToHex(leaf)) == leaf;
  }

  lemma AppendedTree(s: State, logId: Text, leaf: Bytes, l: Text)
    ensures Tree(Append(s, logId, leaf), l) == if l == logId then Tree(s, logId) + [leaf] else Tree(s, l)
  {
    hide ToHex, DecodeAll;
  }

  lemma AppendKeepsRecords(s: State, logId: Text, leaf: Bytes)
    ensures var t := Append(s, logId, leaf);
            t == s.(logs := t.logs, leaves := t.leaves)
  {
  }

  lemma AppendKeepsCache(s: State, logId: Text, leaf: Bytes)
    requires CacheAgrees(s)
    ensures CacheAgrees(Append(s, logId, leaf))
  {
    hide ToHex, DecodeAll, FromHex;
    var t := Append(s, logId, leaf);
    HexRoundTrip(leaf);
    TreeIsStored(s, logId);
    DecodeAllSnoc(StoredLeaves(s, logId), leaf);
    forall l | l in t.logs
      ensures t.logs[l] == DecodeAll(StoredLeaves(t, l))
    {
      if l != logId {
        assert s.logs[l] == DecodeAll(StoredLeaves(s, l));
      }
    }
  }

  lemma AppendKeepsInv(env: Env, s: State, logId: Text, leaf: Bytes)
    requires Inv(env, s)
    ensures var t := Append(s, logId, leaf);
            && Inv(env, t) && Evolves(env, s, t)
            && Tree(t, logId) == Tree(s, logId) + [leaf]
            && LeafAt(t, logId, |Tree(t, logId)| - 1, leaf)
  {
    var t := Append(s, logId, leaf);
    AppendKeepsCache(s, logId, leaf);
    forall l
      ensures Tree(s, l) <= Tree(t, l)
    {
      AppendedTree(s, logId, leaf, l);
    }
    AppendedTree(s, logId, leaf, logId);
    RecordsSurvive(env, s, t);
  }

  // ---------- writing records ----------

  lemma LowerTwice(s: Text)
    ensures Lower(Lower(s)) == Lower(s)
  {
  }

  lemma SameTrees(s: State, t: State)
    requires t == s.(attById := t.attById, attByContent := t.attByContent, statuses := t.statuses,
                     evById := t.evById, evByContent := t.evByContent)
    ensures TreesGrow(s, t) && forall l :: Tree(t, l) == Tree(s, l)
    ensures CacheAgrees(s) ==> CacheAgrees(t)
  {
    assert forall l :: StoredLeaves(t, l) == StoredLeaves(s, l);
  }

  /** A new attestation record with the first entry of its history. */
  lemma NewAttestationKeepsInv(env: Env, s: State, a: Attestation, e: StatusEntry)
    requires Inv(env, s)
    requires a.registryId !in s.attById && ContentKey(a.tenant, a.contentHash) !in s.attByContent
    requires a.contentHash == Lower(a.contentHash) && a.logId == TenantLogId(a.tenant) && a.status == Active
    requires LeafAt(s, a.logId, a.leafIndex, AttestationLeaf(a)) && a.leafHash == env.h.leaf(AttestationLeaf(a))
    requires e == StatusEntry(a.registryId, Active, a.anchoredAt, None, a.issuer, a.logId, a.leafIndex, a.leafHash)
    ensures var t := AppendStatus(PutAttestation(s, a), e);
            Inv(env, t) && Evolves(env, s, t) && forall l :: Tree(t, l) == Tree(s, l)
  {
    hide AttestationSound, HistorySound, EvidenceSound, IndexesSound, TreesGrow, Evolves, ContentKey, LeafAt, Tree,
         Lower, TenantLogId, AttestationLeaf, StatusLeaf, EvidenceLeaf, CacheAgrees, History,
         EntrySound, KeepsOthers, KeepsOtherEvidence;
    var t := AppendStatus(PutAttestation(s, a), e);
    SameTrees(s, t);
    NewRecordSound(env, s, a, e);
    NewRecordGrows(env, s, a, e);
    EvidenceUntouched(env, s, t);
    OtherRecordsStay(env, s, t, a.registryId);
  }

  /** Apart from one id, records and histories are as they were, and no content key is lost. */
  ghost predicate KeepsOthers(s: State, t: State, except: Text) {
    && (forall id | id in t.attById && id != except ::
          id in s.attById && t.attById[id] == s.attById[id]
          && id in s.statuses && id in t.statuses && t.statuses[id] == s.statuses[id])
    && (forall k | k in s.attByContent :: k in t.attByContent && t.attByContent[k] == s.attByContent[k])
  }

  lemma OtherRecordStays(env: Env, s: State, t: State, except: Text, id: Text)
    requires RecordsSound(env, s) && TreesGrow(s, t) && KeepsOthers(s, t, except)
    requires id in t.attById && id != except
    ensures AttestationSound(env, t, id) && HistorySound(env, t, id)
  {
    hide AttestationSound, HistorySound, EvidenceSound, IndexesSound, TreesGrow, ContentKey;
    KeyOf(env, s, id);
    AttestationStays(env, s, t, id);
    HistoryStays(env, s, t, id);
  }

  lemma OtherRecordsStay(env: Env, s: State, t: State, except: Text)
    requires RecordsSound(env, s) && TreesGrow(s, t) && KeepsOthers(s, t, except)
    ensures forall id | id in t.attById && id != except :: AttestationSound(env, t, id) && HistorySound(env, t, id)
  {
    forall id | id in t.attById && id != except
      ensures AttestationSound(env, t, id) && HistorySound(env, t, id)
    {
      OtherRecordStays(env, s, t, except, id);
    }
  }

  lemma StatusesOfNew(s: State, a: Attestation, e: StatusEntry)
    requires a.registryId !in s.statuses && e.registryId == a.registryId
    ensures AppendStatus(PutAttestation(s, a), e).statuses == s.statuses[a.registryId := [e]]
  {
    hide ContentKey;
    assert [] + [e] == [e];
  }

  lemma NewRecordGrows(env: Env, s: State, a: Attestation, e: StatusEntry)
    requires IndexesSound(s) && a.registryId !in s.attById && s.statuses.Keys == s.attById.Keys
    requires ContentKey(a.tenant, a.contentHash) !in s.attByContent && e.registryId == a.registryId
    ensures var t := AppendStatus(PutAttestation(s, a), e);
            && IndexesSound(t) && Evolves(env, s, t) && KeepsOthers(s, t, a.registryId)
            && t.statuses.Keys == t.attById.Keys
  {
    hide TreesGrow, ContentKey, IndexesSound, Tree, CacheAgrees, StoredLeaves, AppendStatus, PutAttestation,
         Evolves, KeepsOthers;
    var t := AppendStatus(PutAttestation(s, a), e);
    StatusesOfNew(s, a, e);
    NewRecordIndexes(s, a, e);
    SameTrees(s, t);
    AddedRecord(env, s, t, a, ContentKey(a.tenant, a.contentHash), [e]);
  }

  /** Adding one id to the records, histories and keys loses nothing. */
  ghost predicate AddsRecord(s: State, t: State, a: Attestation, key: Text, hist: seq<StatusEntry>) {
    && a.registryId !in s.attById && key !in s.attByContent && s.statuses.Keys == s.attById.Keys
    && t.attById == s.attById[a.registryId := a] && t.attByContent == s.attByContent[key := a.registryId]
    && t.statuses == s.statuses[a.registryId := hist]
    && t.evById == s.evById && t.evByContent == s.evByContent
  }

  lemma AddedRecord(env: Env, s: State, t: State, a: Attestation, key: Text, hist: seq<StatusEntry>)
    requires AddsRecord(s, t, a, key, hist) && TreesGrow(s, t)
    ensures Evolves(env, s, t) && KeepsOthers(s, t, a.registryId) && t.statuses.Keys == t.attById.Keys
  {
    hide TreesGrow, EvidenceGrows, AttestationGrows, KeepsOthers, AddsRecord;
    EvidenceKept(s, t, a, key, hist);
    SameEvidenceGrows(env, s, t);
    RecordsKept(s, t, a, key, hist);
    OthersKept(s, t, a, key, hist);
  }

  lemma EvidenceKept(s: State, t: State, a: Attestation, key: Text, hist: seq<StatusEntry>)
    requires AddsRecord(s, t, a, key, hist)
    ensures t.evById == s.evById && t.evByContent == s.evByContent && t.statuses.Keys == t.attById.Keys
  {
  }

  lemma RecordsKept(s: State, t: State, a: Attestation, key: Text, hist: seq<StatusEntry>)
    requires AddsRecord(s, t, a, key, hist)
    ensures forall id | id in s.attById :: id in t.attById && AttestationGrows(s.attById[id], t.attById[id])
    ensures forall id | id in s.statuses :: id in t.statuses && s.statuses[id] <= t.statuses[id]
    ensures forall k | k in s.attByContent :: k in t.attByContent && t.attByContent[k] == s.attByContent[k]
  {
  }

  lemma SameEvidenceGrows(env: Env, s: State, t: State)
    requires t.evById == s.evById
    ensures forall id | id in s.evById :: id in t.evById && EvidenceGrows(env, s.evById[id], t.evById[id])
  {
    forall id | id in s.evById
      ensures EvidenceGrows(env, s.evById[id], t.evById[id])
    {
      SameUntil(env, s.evById[id].until);
    }
  }

  lemma OthersKept(s: State, t: State, a: Attestation, key: Text, hist: seq<StatusEntry>)
    requires AddsRecord(s, t, a, key, hist)
    ensures KeepsOthers(s, t, a.registryId)
  {
  }

  lemma NewRecordIndexes(s: State, a: Attestation, e: StatusEntry)
    requires IndexesSound(s) && a.registryId !in s.attById
    requires ContentKey(a.tenant, a.contentHash) !in s.attByContent
    ensures var t := AppendStatus(PutAttestation(s, a), e);
            && IndexesSound(t)
            && t == s.(attById := s.attById[a.registryId := a],
                       attByContent := s.attByContent[ContentKey(a.tenant, a.contentHash) := a.registryId],
                       statuses := t.statuses)
  {
    hide ContentKey, History;
  }

  lemma NewRecordSound(env: Env, s: State, a: Attestation, e: StatusEntry)
    requires a.contentHash == Lower(a.contentHash) && a.logId == TenantLogId(a.tenant) && a.status == Active
    requires LeafAt(s, a.logId, a.leafIndex, AttestationLeaf(a)) && a.leafHash == env.h.leaf(AttestationLeaf(a))
    requires e == StatusEntry(a.registryId, Active, a.anchoredAt, None, a.issuer, a.logId, a.leafIndex, a.leafHash)
    requires a.registryId !in s.statuses
    ensures var t := AppendStatus(PutAttestation(s, a), e);
            AttestationSound(env, t, a.registryId) && HistorySound(env, t, a.registryId)
  {
    var t := AppendStatus(PutAttestation(s, a), e);
    SameTrees(s, t);
    hide Tree, AttestationLeaf, StatusLeaf, ContentKey, Lower, TenantLogId;
    assert t.statuses[a.registryId] == [e];
  }

  /** A new status with its own leaf, later than the leaves of all entries before it. */
  lemma NewStatusKeepsInv(env: Env, s: State, id: Text, status: Status, e: StatusEntry)
    requires Inv(env, s) && id in s.attById && s.attById[id].status != Revoked && status != Active
    requires e.status == status && EntrySound(env, s, s.attById[id], e, StatusLeaf(e))
    requires forall i | 0 <= i < |s.statuses[id]| :: s.statuses[id][i].leafIndex < e.leafIndex
    ensures var t := AppendStatus(s, e).(attById := s.attById[id := s.attById[id].(status := status)]);
            Inv(env, t) && Evolves(env, s, t) && forall l :: Tree(t, l) == Tree(s, l)
  {
    hide AttestationSound, HistorySound, EvidenceSound, IndexesSound, TreesGrow, Evolves, ContentKey, LeafAt, Tree,
         Lower, TenantLogId, AttestationLeaf, StatusLeaf, EvidenceLeaf, CacheAgrees, History,
         KeepsOthers, KeepsOtherEvidence;
    var t := AppendStatus(s, e).(attById := s.attById[id := s.attById[id].(status := status)]);
    SameTrees(s, t);
    RecordIds(env, s, id);
    LongerHistorySound(env, s, id, status, e);
    NewStatusGrows(env, s, id, status, e);
    EvidenceUntouched(env, s, t);
    OtherRecordsStay(env, s, t, id);
    KeyOf(env, s, id);
    AttestationStays(env, s, t, id);
  }

  lemma NewStatusIndexes(s: State, id: Text, status: Status, e: StatusEntry)
    requires IndexesSound(s) && id in s.attById
    ensures IndexesSound(AppendStatus(s, e).(attById := s.attById[id := s.attById[id].(status := status)]))
  {
    hide ContentKey;
  }

  lemma NewStatusGrows(env: Env, s: State, id: Text, status: Status, e: StatusEntry)
    requires IndexesSound(s) && id in s.attById && s.attById[id].status != Revoked
    requires s.statuses.Keys == s.attById.Keys && e.registryId == id
    ensures var t := AppendStatus(s, e).(attById := s.attById[id := s.attById[id].(status := status)]);
            && IndexesSound(t) && Evolves(env, s, t) && KeepsOthers(s, t, id)
            && t.statuses.Keys == s.statuses.Keys
  {
    hide TreesGrow, Tree, ContentKey, CacheAgrees, IndexesSound, Evolves, KeepsOthers;
    var t := AppendStatus(s, e).(attById := s.attById[id := s.attById[id].(status := status)]);
    SameTrees(s, t);
    NewStatusIndexes(s, id, status, e);
    assert t.statuses == s.statuses[id := s.statuses[id] + [e]];
    ChangedRecord(env, s, t, id, status, e);
  }

  lemma ChangedRecord(env: Env, s: State, t: State, id: Text, status: Status, e: StatusEntry)
    requires id in s.attById && s.attById[id].status != Revoked && s.statuses.Keys == s.attById.Keys
    requires t == s.(attById := s.attById[id := s.attById[id].(status := status)],
                     statuses := s.statuses[id := s.statuses[id] + [e]])
    requires TreesGrow(s, t)
    ensures Evolves(env, s, t) && KeepsOthers(s, t, id) && t.statuses.Keys == s.statuses.Keys
  {
    hide TreesGrow, EvidenceGrows;
    SameEvidenceGrows(env, s, t);
  }

  lemma LongerHistorySound(env: Env, s: State, id: Text, status: Status, e: StatusEntry)
    requires id in s.attById && id in s.statuses && HistorySound(env, s, id)
    requires s.attById[id].registryId == id && s.attById[id].status != Revoked && status != Active
    requires e.status == status && EntrySound(env, s, s.attById[id], e, StatusLeaf(e))
    requires forall i | 0 <= i < |s.statuses[id]| :: s.statuses[id][i].leafIndex < e.leafIndex
    ensures HistorySound(env, AppendStatus(s, e).(attById := s.attById[id := s.attById[id].(status := status)]), id)
  {
    hide EntrySound, TreesGrow, StatusLeaf, Tree, CacheAgrees;
    var t := AppendStatus(s, e).(attById := s.attById[id := s.attById[id].(status := status)]);
    SameTrees(s, t);
    var a, b, hist, longer := s.attById[id], t.attById[id], s.statuses[id], t.statuses[id];
    assert longer == hist + [e] by { EntryNames(env, s, a, e, StatusLeaf(e)); }
    forall i | 1 <= i < |longer|
      ensures EntrySound(env, t, b, longer[i], StatusLeaf(longer[i]))
    {
      EntryStays(env, s, t, a, b, longer[i], StatusLeaf(longer[i]));
    }
  }

  /** Status entries of a record all lie inside its tree. */
  lemma HistoryInsideTree(env: Env, s: State, id: Text)
    requires Inv(env, s) && id in s.attById
    ensures forall i | 0 <= i < |s.statuses[id]| :: s.statuses[id][i].leafIndex < |Tree(s, s.attById[id].logId)|
  {
    hide Tree, AttestationLeaf, StatusLeaf, EvidenceLeaf, ContentKey, Lower, TenantLogId;
    assert AttestationSound(env, s, id) && HistorySound(env, s, id);
    var hist := s.statuses[id];
    forall i | 0 <= i < |hist|
      ensures hist[i].leafIndex < |Tree(s, s.attById[id].logId)|
    {
      if i > 0 {
        assert EntrySound(env, s, s.attById[id], hist[i], StatusLeaf(hist[i]));
      }
    }
  }

  lemma NewEvidenceKeepsInv(env: Env, s: State, e: Evidence)
    requires Inv(env, s)
    requires e.evidenceId !in s.evById && ContentKey(e.tenant, e.contentHash) !in s.evByContent
    requires e.contentHash == Lower(e.contentHash) && e.logId == TenantLogId(e.tenant)
    requires LeafAt(s, e.logId, e.leafIndex, EvidenceLeaf(e))
    ensures var t := PutEvidence(s, e);
            Inv(env, t) && Evolves(env, s, t) && forall l :: Tree(t, l) == Tree(s, l)
  {
    hide AttestationSound, HistorySound, EvidenceSound, IndexesSound, TreesGrow, Evolves, ContentKey, LeafAt, Tree,
         Lower, TenantLogId, AttestationLeaf, StatusLeaf, EvidenceLeaf, CacheAgrees, History,
         KeepsOthers, KeepsOtherEvidence;
    var t := PutEvidence(s, e);
    SameTrees(s, t);
    NewEvidenceSound(s, e);
    AttestationsUntouched(env, s, t);
    NewEvidenceGrows(env, s, e);
    OtherEvidenceStays(env, s, t, e.evidenceId);
  }

  ghost predicate KeepsOtherEvidence(s: State, t: State, except: Text) {
    && (forall id | id in t.evById && id != except :: id in s.evById && t.evById[id] == s.evById[id])
    && (forall k | k in s.evByContent :: k in t.evByContent && t.evByContent[k] == s.evByContent[k])
  }

  lemma OtherEvidenceStays(env: Env, s: State, t: State, except: Text)
    requires RecordsSound(env, s) && TreesGrow(s, t) && KeepsOtherEvidence(s, t, except)
    ensures forall id | id in t.evById && id != except :: EvidenceSound(t, id)
  {
    hide AttestationSound, HistorySound, EvidenceSound, IndexesSound, TreesGrow, ContentKey;
    forall id | id in t.evById && id != except
      ensures EvidenceSound(t, id)
    {
      KeyOf(env, s, id);
      EvidenceStays(s, t, id);
    }
  }

  lemma NewEvidenceGrows(env: Env, s: State, e: Evidence)
    requires IndexesSound(s) && e.evidenceId !in s.evById && ContentKey(e.tenant, e.contentHash) !in s.evByContent
    ensures IndexesSound(PutEvidence(s, e)) && Evolves(env, s, PutEvidence(s, e))
    ensures KeepsOtherEvidence(s, PutEvidence(s, e), e.evidenceId)
    ensures PutEvidence(s, e).evById.Keys == s.evById.Keys + {e.evidenceId}
  {
    hide TreesGrow, Tree, ContentKey, IndexesSound, UntilGrows;
    var t := PutEvidence(s, e);
    SameTrees(s, t);
    NewEvidenceIndexes(s, e);
    forall id | id in s.evById
      ensures EvidenceGrows(env, s.evById[id], t.evById[id])
    {
      SameUntil(env, s.evById[id].until);
    }
  }

  lemma NewEvidenceIndexes(s: State, e: Evidence)
    requires IndexesSound(s) && e.evidenceId !in s.evById && ContentKey(e.tenant, e.contentHash) !in s.evByContent
    ensures IndexesSound(PutEvidence(s, e))
  {
    hide ContentKey;
  }

  lemma NewEvidenceSound(s: State, e: Evidence)
    requires e.contentHash == Lower(e.contentHash) && e.logId == TenantLogId(e.tenant)
    requires LeafAt(s, e.logId, e.leafIndex, EvidenceLeaf(e))
    ensures EvidenceSound(PutEvidence(s, e), e.evidenceId)
  {
    var t := PutEvidence(s, e);
    SameTrees(s, t);
    hide Tree, EvidenceLeaf, ContentKey, Lower, TenantLogId;
    assert e == e.(until := e.until, legalHold := e.legalHold);
    assert LeafAt(t, e.logId, e.leafIndex, EvidenceLeaf(e.(until := e.until, legalHold := e.legalHold)));
  }

  lemma ChangedEvidenceGrows(env: Env, s: State, e: Evidence)
    requires IndexesSound(s) && e.evidenceId in s.evById && EvidenceGrows(env, s.evById[e.evidenceId], e)
    requires var key := ContentKey(s.evById[e.evidenceId].tenant, s.evById[e.evidenceId].contentHash);
             key in s.evByContent && s.evByContent[key] == e.evidenceId
    ensures var t := PutEvidence(s, e);
            && IndexesSound(t) && Evolves(env, s, t) && t.evByContent == s.evByContent
            && KeepsOtherEvidence(s, t, e.evidenceId)
            && t.evById.Keys == s.evById.Keys && t.evById[e.evidenceId] == e
  {
    var t := PutEvidence(s, e);
    SameTrees(s, t);
    hide TreesGrow, Tree, ContentKey, UntilGrows;
    assert t.evByContent == s.evByContent;
    forall id | id in s.evById
      ensures EvidenceGrows(env, s.evById[id], t.evById[id])
    {
      SameUntil(env, s.evById[id].until);
    }
  }

  lemma SameUntil(env: Env, until: Text)
    ensures UntilGrows(env, until, until)
  {
  }

  lemma ChangedEvidenceKeepsInv(env: Env, s: State, e: Evidence)
    requires Inv(env, s) && e.evidenceId in s.evById && EvidenceGrows(env, s.evById[e.evidenceId], e)
    ensures var t := PutEvidence(s, e);
            Inv(env, t) && Evolves(env, s, t) && forall l :: Tree(t, l) == Tree(s, l)
  {
    hide AttestationSound, HistorySound, EvidenceSound, IndexesSound, TreesGrow, Evolves, ContentKey, LeafAt, Tree,
         Lower, TenantLogId, AttestationLeaf, StatusLeaf, EvidenceLeaf, CacheAgrees, History,
         KeepsOthers, KeepsOtherEvidence;
    var t := PutEvidence(s, e);
    SameTrees(s, t);
    AttestationsUntouched(env, s, t);
    KeyOf(env, s, e.evidenceId);
    RecordIds(env, s, e.evidenceId);
    ChangedEvidenceGrows(env, s, e);
    OtherEvidenceStays(env, s, t, e.evidenceId);
    EvidenceStays(s, t, e.evidenceId);
  }

  // ---------- what is done for a new content hash ----------

  lemma RegisteredIs(env: Env, s: State, req: EvidenceRequest, tenant: Text, id: Text, now: int, up: bool)
    requires ContentKey(tenant, Lower(req.contentHash)) !in s.evByContent
    ensures var hold := match req.legalHold { case Some(b) => b case None => false };
            var contentHash, logId := Lower(req.contentHash), TenantLogId(tenant);
            var t := Append(s, logId, LeafOf(EvidenceFields(id, contentHash, req.until, req.basis, hold)));
            var sth := SthOf(env, t, logId);
            && Tree(t, logId) != []
            && var e := Evidence(id, contentHash, req.until, req.basis, hold, tenant, logId, |Tree(t, logId)| - 1,
                                 req.subject, req.passport, false);
               RegisterEvidence(env, s, req, tenant, id, now, up)
               == if !up then Outcome(t, Failed(ChainUnavailable), [sth])
                  else
                    var entry := EvidenceEntry(id, contentHash, req.until, hold, Deletable(env, e, now), sth);
                    Outcome(PutEvidence(t, e), EvidenceReply(entry, false), [sth])
  {
    hide Tree, Append, ContentKey, Lower, TenantLogId, LeafOf, Deletable, PutEvidence;
    var hold := match req.legalHold { case Some(b) => b case None => false };
    var leaf := LeafOf(EvidenceFields(id, Lower(req.contentHash), req.until, req.basis, hold));
    AppendedTree(s, TenantLogId(tenant), leaf, TenantLogId(tenant));
  }

  lemma AnchoredIs(env: Env, s: State, req: AttestationRequest, tenant: Text, id: Text, at: Text, up: bool)
    requires ContentKey(tenant, Lower(req.contentHash)) !in s.attByContent
    ensures var contentHash, logId := Lower(req.contentHash), TenantLogId(tenant);
            var leaf := LeafOf(AttestationFields(id, contentHash, req.subject, req.issuer, req.recordType));
            var t := Append(s, logId, leaf);
            var sth := SthOf(env, t, logId);
            && Tree(t, logId) != []
            && var index, leafHash := |Tree(t, logId)| - 1, env.h.leaf(leaf);
               var a := Attestation(id, req.subject, req.issuer, req.recordType, contentHash, Active, tenant, logId,
                                    index, leafHash, req.passport, at);
               var entry := StatusEntry(id, Active, at, None, req.issuer, logId, index, leafHash);
               var u := AppendStatus(PutAttestation(t, a), entry);
               && Tree(u, logId) == Tree(t, logId)
               && AnchorAttestation(env, s, req, tenant, id, at, up)
                  == if !up then Outcome(t, Failed(ChainUnavailable), [sth])
                     else Outcome(u, AttestationReply(id, Active, logId, index, leafHash,
                                                      InclusionProof(index, |Tree(u, logId)|,
                                                                     Path(env.h, index, Tree(u, logId))),
                                                      sth, false), [sth])
  {
    hide Tree, Append, ContentKey, Lower, TenantLogId, LeafOf, SthOf, Path;
    var contentHash, logId := Lower(req.contentHash), TenantLogId(tenant);
    var leaf := LeafOf(AttestationFields(id, contentHash, req.subject, req.issuer, req.recordType));
    var t := Append(s, logId, leaf);
    AppendedTree(s, logId, leaf, logId);
    var index, leafHash := |Tree(t, logId)| - 1, env.h.leaf(leaf);
    var a := Attestation(id, req.subject, req.issuer, req.recordType, contentHash, Active, tenant, logId, index,
                         leafHash, req.passport, at);
    var entry := StatusEntry(id, Active, at, None, req.issuer, logId, index, leafHash);
    SameTrees(t, AppendStatus(PutAttestation(t, a), entry));
  }

  // ---------- operations ----------

  ghost predicate Keeps(env: Env, s: State, t: State) {
    Inv(env, t) && Evolves(env, s, t)
  }

  lemma AnchorAttestationKeeps(env: Env, s: State, req: AttestationRequest, tenant: Text, id: Text, at: Text,
                               up: bool)
    requires Inv(env, s) && id !in s.attById
    ensures Keeps(env, s, AnchorAttestation(env, s, req, tenant, id, at, up).state)
  {
    var contentHash := Lower(req.contentHash);
    var key := ContentKey(tenant, contentHash);
    hide Tree, Inv, Evolves, ContentKey, Lower, TenantLogId, LeafOf;
    if key in s.attByContent {
      KeyLeadsToRecord(env, s, key);
      GetLogKeepsInv(env, s, s.attById[s.attByContent[key]].logId);
    } else {
      var logId := TenantLogId(tenant);
      var leaf := LeafOf(AttestationFields(id, contentHash, req.subject, req.issuer, req.recordType));
      var t := Append(s, logId, leaf);
      AppendKeepsInv(env, s, logId, leaf);
      if up {
        var index := |Tree(t, logId)| - 1;
        var a := Attestation(id, req.subject, req.issuer, req.recordType, contentHash, Active, tenant, logId,
                             index, env.h.leaf(leaf), req.passport, at);
        var e := StatusEntry(id, Active, at, None, req.issuer, logId, index, env.h.leaf(leaf));
        LowerTwice(req.contentHash);
        assert AttestationLeaf(a) == leaf;
        NewAttestationKeepsInv(env, t, a, e);
        EvolvesTransitive(env, s, t, AppendStatus(PutAttestation(t, a), e));
      }
    }
  }

  lemma KeyLeadsToRecord(env: Env, s: State, key: Text)
    requires Inv(env, s)
    ensures key in s.attByContent ==> s.attByContent[key] in s.attById
    ensures key in s.evByContent ==> s.evByContent[key] in s.evById
  {
  }

  lemma SetStatusKeeps(env: Env, s: State, id: Text, action: Action, next: Option<Text>, tenant: Text,
                       since: Text, up: bool)
    requires Inv(env, s)
    ensures Keeps(env, s, SetStatus(env, s, id, action, next, tenant, since, up).state)
  {
    hide Inv, Evolves, ChangedStatus, Keeps;
    SameKeeps(env, s);
    if id in s.attById && s.attById[id].status != Revoked {
      ChangedStatusKeeps(env, s, id, if action == Revoke then Revoked else Superseded, next, tenant, since, up);
    }
  }

  lemma SameKeeps(env: Env, s: State)
    requires Inv(env, s)
    ensures Keeps(env, s, s)
  {
    hide Inv, Evolves;
    EvolvesReflexive(env, s);
  }

  lemma ChangedStatusKeeps(env: Env, s: State, id: Text, status: Status, next: Option<Text>, tenant: Text,
                           since: Text, up: bool)
    requires Inv(env, s) && id in s.attById && s.attById[id].status != Revoked && status != Active
    ensures Keeps(env, s, ChangedStatus(env, s, id, status, next, tenant, since, up).state)
  {
    hide Tree, Inv, Evolves, LeafOf, SthOf, Append, Path;
    var a := s.attById[id];
    var leaf := LeafOf(StatusFields(id, status, since, tenant, next));
    var t := Append(s, a.logId, leaf);
    AppendKeepsInv(env, s, a.logId, leaf);
    AppendKeepsRecords(s, a.logId, leaf);
    if up {
      var index := |Tree(t, a.logId)| - 1;
      var e := StatusEntry(id, status, since, next, tenant, a.logId, index, env.h.leaf(leaf));
      assert StatusLeaf(e) == leaf;
      HistoryInsideTree(env, s, id);
      RecordIds(env, s, id);
      StatusWritten(env, s, t, id, status, e);
    }
  }

  lemma StatusWritten(env: Env, s: State, t: State, id: Text, status: Status, e: StatusEntry)
    requires Inv(env, t) && Evolves(env, s, t)
    requires id in t.attById && t.attById[id].status != Revoked && status != Active
    requires e.status == status && EntrySound(env, t, t.attById[id], e, StatusLeaf(e))
    requires id in t.statuses && forall i | 0 <= i < |t.statuses[id]| :: t.statuses[id][i].leafIndex < e.leafIndex
    ensures Keeps(env, s, AppendStatus(t, e).(attById := t.attById[id := t.attById[id].(status := status)]))
  {
    hide Inv, Evolves, EntrySound, AppendStatus, StatusLeaf;
    NewStatusKeepsInv(env, t, id, status, e);
    EvolvesTransitive(env, s, t, AppendStatus(t, e).(attById := t.attById[id := t.attById[id].(status := status)]));
  }

  lemma RecordIds(env: Env, s: State, id: Text)
    requires Inv(env, s)
    ensures id in s.attById ==> s.attById[id].registryId == id && id in s.statuses
    ensures id in s.evById ==> s.evById[id].evidenceId == id
  {
    if id in s.attById {
      assert AttestationSound(env, s, id);
    }
    if id in s.evById {
      assert EvidenceSound(s, id);
    }
  }

  lemma RegisterEvidenceKeeps(env: Env, s: State, req: EvidenceRequest, tenant: Text, id: Text, now: int, up: bool)
    requires Inv(env, s) && id !in s.evById
    ensures Keeps(env, s, RegisterEvidence(env, s, req, tenant, id, now, up).state)
  {
    hide Inv, Evolves, ContentKey, Lower, TenantLogId, LeafOf, Append, Tree, PutEvidence, EntryOf, SthOf, GetLog;
    var contentHash := Lower(req.contentHash);
    var key := ContentKey(tenant, contentHash);
    if key in s.evByContent {
      KeyLeadsToRecord(env, s, key);
      GetLogKeepsInv(env, s, s.evById[s.evByContent[key]].logId);
    } else {
      var logId := TenantLogId(tenant);
      var legalHold := match req.legalHold { case Some(b) => b case None => false };
      var leaf := LeafOf(EvidenceFields(id, contentHash, req.until, req.basis, legalHold));
      var t := Append(s, logId, leaf);
      AppendKeepsInv(env, s, logId, leaf);
      if up {
        LowerTwice(req.contentHash);
        AppendedTree(s, logId, leaf, logId);
        AppendKeepsRecords(s, logId, leaf);
        RegisteredKeeps(env, s, t, Evidence(id, contentHash, req.until, req.basis, legalHold, tenant, logId,
                                            |Tree(t, logId)| - 1, req.subject, req.passport, false), leaf);
      }
    }
  }

  lemma RegisteredKeeps(env: Env, s: State, t: State, e: Evidence, leaf: Bytes)
    requires Inv(env, t) && Evolves(env, s, t)
    requires e.evidenceId !in t.evById && ContentKey(e.tenant, e.contentHash) !in t.evByContent
    requires e.contentHash == Lower(e.contentHash) && e.logId == TenantLogId(e.tenant)
    requires leaf == EvidenceLeaf(e) && LeafAt(t, e.logId, e.leafIndex, leaf)
    ensures Keeps(env, s, PutEvidence(t, e))
  {
    hide Inv, Evolves, ContentKey, Lower, TenantLogId, EvidenceLeaf, LeafAt, PutEvidence;
    NewEvidenceKeepsInv(env, t, e);
    EvolvesTransitive(env, s, t, PutEvidence(t, e));
  }

  lemma ExtensionGrows(env: Env, until: Text, extendUntil: Option<Text>)
    ensures ExtendedUntil(env, until, extendUntil).NewUntil? ==>
              UntilGrows(env, until, ExtendedUntil(env, until, extendUntil).until)
  {
  }

  lemma UpdateRetentionKeeps(env: Env, s: State, id: Text, hold: Option<bool>, extend: Option<Text>, tenant: Text,
                             now: int, up: bool)
    requires Inv(env, s)
    ensures Keeps(env, s, UpdateRetention(env, s, id, hold, extend, tenant, now, up).state)
  {
    hide Tree, Inv, Evolves, ContentKey, Lower, TenantLogId, LeafOf, ExtendedUntil;
    EvolvesReflexive(env, s);
    if id in s.evById && !s.evById[id].deleted && s.evById[id].tenant == tenant {
      var e := s.evById[id];
      ExtensionGrows(env, e.until, extend);
      match ExtendedUntil(env, e.until, extend)
      case Refused(_) =>
      case NewUntil(until) =>
        var f := e.(until := until, legalHold := match hold { case Some(b) => b case None => e.legalHold });
        RecordIds(env, s, id);
        ChangedEvidenceKeepsInv(env, s, f);
        GetLogKeepsInv(env, PutEvidence(s, f), f.logId);
        EvolvesTransitive(env, s, PutEvidence(s, f), GetLog(PutEvidence(s, f), f.logId));
    }
  }

  lemma DeleteEvidenceKeeps(env: Env, s: State, id: Text, tenant: Text, now: int, at: Text, up: bool)
    requires Inv(env, s)
    ensures Keeps(env, s, DeleteEvidence(env, s, id, tenant, now, at, up).state)
  {
    hide Tree, Inv, Evolves, ContentKey, Lower, TenantLogId, LeafOf;
    EvolvesReflexive(env, s);
    if id in s.evById && !s.evById[id].deleted && s.evById[id].tenant == tenant {
      var e := s.evById[id];
      RecordIds(env, s, id);
      AppendKeepsInv(env, s, e.logId, LeafOf(DeleteAttemptFields(id, at, tenant)));
      ChangedEvidenceKeepsInv(env, s, e.(deleted := true));
    }
  }

  /** Looking logs up changes nothing but which trees are in memory. */
  ghost predicate OnlyCaches(s: State, t: State) {
    && t == s.(logs := t.logs) && s.logs.Keys <= t.logs.Keys
    && forall l | l in t.logs :: t.logs[l] == Tree(s, l)
  }

  lemma CachingKeepsTrees(s: State, t: State)
    requires OnlyCaches(s, t)
    ensures forall l :: Tree(t, l) == Tree(s, l)
  {
    hide DecodeAll;
  }

  lemma OnlyCachesTransitive(s: State, t: State, u: State)
    requires OnlyCaches(s, t) && OnlyCaches(t, u)
    ensures OnlyCaches(s, u)
  {
    CachingKeepsTrees(s, t);
    hide Tree;
  }

  lemma GetLogOnlyCaches(s: State, logId: Text)
    ensures OnlyCaches(s, GetLog(s, logId))
  {
    hide DecodeAll;
  }

  lemma {:induction false} GatheringAttestationsOnlyCaches(env: Env, s: State, ids: seq<Text>, answers: nat,
                                                           sofar: seq<BundleEntry>)
    ensures OnlyCaches(s, GatherAttestations(env, s, ids, answers, sofar).state)
    decreases |ids|
  {
    hide Tree, SthOf, OnlyCaches, GetLog, InclusionFor;
    if ids == [] || ids[0] !in s.attById {
      CachingNothing(s);
    } else {
      var a := s.attById[ids[0]];
      var t := GetLog(s, a.logId);
      GetLogOnlyCaches(s, a.logId);
      var p := InclusionFor(env, t, a.logId, a.leafIndex, |Tree(t, a.logId)|);
      if answers > 0 && p.Some? {
        var more := sofar + [BundleEntry(a.registryId, a.status, p.value, SthOf(env, t, a.logId))];
        GatheringAttestationsOnlyCaches(env, t, ids[1..], answers - 1, more);
        OnlyCachesTransitive(s, t, GatherAttestations(env, t, ids[1..], answers - 1, more).state);
      }
    }
  }

  lemma {:induction false} GatheringEvidenceOnlyCaches(env: Env, s: State, ids: seq<Text>, now: int, answers: nat,
                                                       sofar: seq<EvidenceEntry>)
    ensures OnlyCaches(s, GatherEvidence(env, s, ids, now, answers, sofar).state)
    decreases |ids|
  {
    hide Tree, EntryOf, OnlyCaches, GetLog;
    if ids == [] || ids[0] !in s.evById {
      CachingNothing(s);
    } else {
      var e := s.evById[ids[0]];
      var t := GetLog(s, e.logId);
      GetLogOnlyCaches(s, e.logId);
      if answers > 0 {
        var more := sofar + [EntryOf(env, t, e, now)];
        GatheringEvidenceOnlyCaches(env, t, ids[1..], now, answers - 1, more);
        OnlyCachesTransitive(s, t, GatherEvidence(env, t, ids[1..], now, answers - 1, more).state);
      }
    }
  }

  lemma CachingNothing(s: State)
    ensures OnlyCaches(s, s)
  {
  }

  lemma BundleOnlyCaches(env: Env, s: State, atts: seq<Text>, evs: seq<Text>, now: int, answers: nat)
    ensures OnlyCaches(s, VerifyBundle(env, s, atts, evs, now, answers).state)
  {
    hide OnlyCaches, GatherAttestations, GatherEvidence, LatestCheckpoints, BundleLogs;
    var g := GatherAttestations(env, s, atts, answers, []);
    var t, rest := g.state, Minus(answers, |g.entries|);
    GatheringAttestationsOnlyCaches(env, s, atts, answers, []);
    GatheringEvidenceOnlyCaches(env, t, evs, now, rest, []);
    OnlyCachesTransitive(s, t, GatherEvidence(env, t, evs, now, rest, []).state);
  }

  lemma VerifyBundleKeeps(env: Env, s: State, atts: seq<Text>, evs: seq<Text>, now: int, answers: nat)
    requires Inv(env, s)
    ensures Keeps(env, s, VerifyBundle(env, s, atts, evs, now, answers).state)
  {
    hide Inv, Evolves, VerifyBundle, Tree;
    BundleOnlyCaches(env, s, atts, evs, now, answers);
    CachingKeepsInv(env, s, VerifyBundle(env, s, atts, evs, now, answers).state);
  }

  /** A checkpoint touches nothing that the invariant speaks of. */
  lemma CheckpointKeeps(env: Env, s: State, c: Checkpoint)
    requires Inv(env, s)
    ensures Keeps(env, s, PutCheckpoint(s, c)) && forall l :: Tree(PutCheckpoint(s, c), l) == Tree(s, l)
  {
    var t := PutCheckpoint(s, c);
    assert forall l :: StoredLeaves(t, l) == StoredLeaves(s, l);
    RecordsSurvive(env, s, t);
  }

  /** Every operation keeps the invariant and only lets the ledger grow. */
  lemma StepKeeps(env: Env, s: State, op: Op)
    requires Inv(env, s) && Possible(s, op)
    ensures Inv(env, Step(env, s, op).state) && Evolves(env, s, Step(env, s, op).state)
  {
    hide Tree, Inv, Evolves, ContentKey, Lower, TenantLogId, LeafOf, AnchorAttestation, SetStatus, RegisterEvidence,
         UpdateRetention, DeleteEvidence, VerifyBundle;
    EvolvesReflexive(env, s);
    match op
    case DoAnchorAttestation(req, tenant, id, at, up) => AnchorAttestationKeeps(env, s, req, tenant, id, at, up);
    case DoGetAttestation(id, _) =>
      if id in s.attById { GetLogKeepsInv(env, s, s.attById[id].logId); }
    case DoGetInclusion(id, _, _) =>
      if id in s.attById { GetLogKeepsInv(env, s, s.attById[id].logId); }
    case DoGetStatusRecord(id, _) =>
      if id in s.attById { GetLogKeepsInv(env, s, s.attById[id].logId); }
    case DoSetStatus(id, action, next, tenant, since, up) =>
      SetStatusKeeps(env, s, id, action, next, tenant, since, up);
    case DoSubmitCheckpoint(head, id, _) => CheckpointKeeps(env, s, Checkpoint(id, head));
    case DoGetConsistency(logId, _, _, _) => GetLogKeepsInv(env, s, logId);
    case DoRegisterEvidence(req, tenant, id, now, up) => RegisterEvidenceKeeps(env, s, req, tenant, id, now, up);
    case DoGetEvidence(id, _, _) =>
      if id in s.evById { GetLogKeepsInv(env, s, s.evById[id].logId); }
    case DoUpdateRetention(id, hold, extend, tenant, now, up) =>
      UpdateRetentionKeeps(env, s, id, hold, extend, tenant, now, up);
    case DoDeleteEvidence(id, tenant, now, at, up) => DeleteEvidenceKeeps(env, s, id, tenant, now, at, up);
    case DoVerifyBundle(_, atts, evs, now, answers) => VerifyBundleKeeps(env, s, atts, evs, now, answers);
    case Restart => CachingKeepsInv(env, s, s.(logs := map[]));
  }
}
