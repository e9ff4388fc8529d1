/** The in-memory store: maps to record objects that two indexes share and that are changed in place. */
module MemoryStore {
  import opened Hashing
  import opened Texts
  import opened LedgerModel

  /** Only the status of an attestation record ever changes. */
  class AttestationRecord {
    const fixed: Attestation
    var status: Status

    constructor (a: Attestation)
      ensures fixed == a && Value() == a
    {
      fixed, status := a, a.status;
    }

    function Value(): Attestation
      reads this
    {
      fixed.(status := status)
    }
  }

  class EvidenceRecord {
    const fixed: Evidence
    var until: Text
    var legalHold: bool
    var deleted: bool

    constructor (e: Evidence)
      ensures fixed == e && Value() == e
    {
      fixed, until, legalHold, deleted := e, e.until, e.legalHold, e.deleted;
    }

    function Value(): Evidence
      reads this
    {
      fixed.(until := until, legalHold := legalHold, deleted := deleted)
    }
  }

  // ---------- maps of records as maps of values ----------

  ghost function AttestationValues(m: map<Text, AttestationRecord>): map<Text, Attestation>
    reads m.Values
  {
    map id | id in m :: m[id].Value()
  }

  ghost function AttestationIds(m: map<Text, AttestationRecord>): map<Text, Text> {
    map k | k in m :: m[k].fixed.registryId
  }

  ghost function EvidenceValues(m: map<Text, EvidenceRecord>): map<Text, Evidence>
    reads m.Values
  {
    map id | id in m :: m[id].Value()
  }

  ghost function EvidenceIds(m: map<Text, EvidenceRecord>): map<Text, Text> {
    map k | k in m :: m[k].fixed.evidenceId
  }

  lemma AttestationMapsUpdated(m: map<Text, AttestationRecord>, k: Text, rec: AttestationRecord)
    ensures AttestationValues(m[k := rec]) == AttestationValues(m)[k := rec.Value()]
    ensures AttestationIds(m[k := rec]) == AttestationIds(m)[k := rec.fixed.registryId]
  {
  }

  lemma EvidenceMapsUpdated(m: map<Text, EvidenceRecord>, k: Text, rec: EvidenceRecord)
    ensures EvidenceValues(m[k := rec]) == EvidenceValues(m)[k := rec.Value()]
    ensures EvidenceIds(m[k := rec]) == EvidenceIds(m)[k := rec.fixed.evidenceId]
  {
  }

  function AttestationIdsOf(recs: seq<AttestationRecord>): (ids: seq<Text>)
    ensures |ids| == |recs|
  {
    seq(|recs|, (i: nat) requires i < |recs| => recs[i].fixed.registryId)
  }

  function EvidenceIdsOf(recs: seq<EvidenceRecord>): (ids: seq<Text>)
    ensures |ids| == |recs|
  {
    seq(|recs|, (i: nat) requires i < |recs| => recs[i].fixed.evidenceId)
  }

  // ---------- the order of a map's keys ----------

  /** A map that lists its keys in the order they were first set, as JavaScript's do. */
  ghost predicate OrderOf<V>(order: seq<Text>, m: map<Text, V>) {
    NoRepeats(order) && forall k :: k in order <==> k in m
  }

  function OrderAfterSet<V>(order: seq<Text>, m: map<Text, V>, k: Text): seq<Text> {
    if k in m then order else order + [k]
  }

  lemma SetKeepsOrder<V>(order: seq<Text>, m: map<Text, V>, k: Text, v: V)
    requires OrderOf(order, m)
    ensures OrderOf(OrderAfterSet(order, m, k), m[k := v])
  {
  }

  /** The keys that satisfy p, in order. */
  function Select(order: seq<Text>, p: Text -> bool): (ids: seq<Text>)
    ensures forall id :: id in ids <==> id in order && p(id)
  {
    var i := |order| - 1;
    if i < 0 then []
    else if p(order[i]) then Select(order[..i], p) + [order[i]]
    else Select(order[..i], p)
  }

  lemma {:induction false} SelectNoRepeats(order: seq<Text>, p: Text -> bool)
    requires NoRepeats(order)
    ensures NoRepeats(Select(order, p))
  {
    if order != [] {
      SelectNoRepeats(order[..|order| - 1], p);
    }
  }

  lemma SelectNext(order: seq<Text>, p: Text -> bool, i: nat)
    requires i < |order|
    ensures Select(order[..i + 1], p) == Select(order[..i], p) + if p(order[i]) then [order[i]] else []
  {
    assert order[..i + 1][..i] == order[..i];
  }

  lemma SelectNothing(order: seq<Text>, p: Text -> bool)
    ensures order[..0] == [] && Select([], p) == []
  {
  }

  ghost function AttestationSelects(m: map<Text, Attestation>, subject: Text): Text -> bool {
    id => id in m && AttestationMatches(m[id], subject)
  }

  ghost function EvidenceSelects(m: map<Text, Evidence>, subject: Text): Text -> bool {
    id => id in m && EvidenceMatches(m[id], subject)
  }

  /** What both lists come to: the matching ids, each once. */
  lemma SelectedAreListed(s: State, subject: Text, attOrder: seq<Text>, evOrder: seq<Text>)
    requires OrderOf(attOrder, s.attById) && OrderOf(evOrder, s.evById)
    ensures Lists(s, subject, Select(attOrder, AttestationSelects(s.attById, subject)),
                  Select(evOrder, EvidenceSelects(s.evById, subject)))
  {
    hide AttestationMatches, EvidenceMatches;
    SelectNoRepeats(attOrder, AttestationSelects(s.attById, subject));
    SelectNoRepeats(evOrder, EvidenceSelects(s.evById, subject));
  }

  class Store {
    var attById: map<Text, AttestationRecord>
    var attOrder: seq<Text>
    var attByContent: map<Text, AttestationRecord>
    var statusByRegistry: map<Text, seq<StatusEntry>>
    var evById: map<Text, EvidenceRecord>
    var evOrder: seq<Text>
    var evByContent: map<Text, EvidenceRecord>
    var checkpointsByLog: map<Text, seq<Checkpoint>>
    var leavesByLog: map<Text, seq<string>>

    /** Records are found under their own id, and whatever the content index finds is the very object
        the id index has. */
    ghost predicate AttestationsValid()
      reads this`attById, this`attOrder, this`attByContent
    {
      && OrderOf(attOrder, attById)
      && (forall id | id in attById :: attById[id].fixed.registryId == id)
      && (forall k | k in attByContent ::
            attByContent[k].fixed.registryId in attById && attById[attByContent[k].fixed.registryId] == attByContent[k])
    }

    ghost predicate EvidenceValid()
      reads this`evById, this`evOrder, this`evByContent
    {
      && OrderOf(evOrder, evById)
      && (forall id | id in evById :: evById[id].fixed.evidenceId == id)
      && (forall k | k in evByContent ::
            evByContent[k].fixed.evidenceId in evById && evById[evByContent[k].fixed.evidenceId] == evByContent[k])
    }

    ghost predicate Valid()
      reads this
    {
      AttestationsValid() && EvidenceValid()
    }

    ghost function Attestations(): map<Text, Attestation>
      reads this`attById, attById.Values
    {
      AttestationValues(attById)
    }

    ghost function EvidenceMap(): map<Text, Evidence>
      reads this`evById, evById.Values
    {
      EvidenceValues(evById)
    }

    /** The store as a value, without cached trees. */
    ghost function View(): State
      reads this, attById.Values, evById.Values
    {
      State(map[], leavesByLog, Attestations(), AttestationIds(attByContent), statusByRegistry, EvidenceMap(),
            EvidenceIds(evByContent), checkpointsByLog)
    }

    constructor ()
      ensures Valid() && View() == Empty() && attOrder == evOrder == []
    {
      attOrder, evOrder := [], [];
      attById, attByContent, statusByRegistry := map[], map[], map[];
      evById, evByContent, checkpointsByLog, leavesByLog := map[], map[], map[], map[];
    }

    ghost predicate HasAttestation(rec: AttestationRecord)
      reads this`attById
    {
      rec.fixed.registryId in attById && attById[rec.fixed.registryId] == rec
    }

    ghost predicate HasEvidence(rec: EvidenceRecord)
      reads this`evById
    {
      rec.fixed.evidenceId in evById && evById[rec.fixed.evidenceId] == rec
    }

    // ---------- attestations ----------

    method GetAttestationById(registryId: Text) returns (rec: AttestationRecord?)
      ensures rec == if registryId in attById then attById[registryId] else null
    {
      rec := if registryId in attById then attById[registryId] else null;
    }

    method GetAttestationByContentHash(tenant: Text, contentHash: Text) returns (rec: AttestationRecord?)
      ensures var key := ContentKey(tenant, contentHash);
              rec == if key in attByContent then attByContent[key] else null
    {
      var key := ContentKey(tenant, contentHash);
      rec := if key in attByContent then attByContent[key] else null;
    }

    /** A new id goes to the end of the order. Putting another object under an id in use would leave the
        old one in the content index. */
    method PutAttestation(rec: AttestationRecord)
      modifies this`attById, this`attOrder, this`attByContent
      ensures old(Valid()) && (rec.fixed.registryId in old(attById) ==> old(HasAttestation(rec))) ==> Valid()
      ensures attById == old(attById)[rec.fixed.registryId := rec]
      ensures attOrder == OrderAfterSet(old(attOrder), old(attById), rec.fixed.registryId)
      ensures View() == LedgerModel.PutAttestation(old(View()), rec.Value())
    {
      hide ContentKey, Lower, AttestationValues, AttestationIds, EvidenceValues, EvidenceIds, EvidenceValid, OrderOf;
      var key := ContentKey(rec.fixed.tenant, rec.fixed.contentHash);
      AttestationMapsUpdated(attById, rec.fixed.registryId, rec);
      AttestationMapsUpdated(attByContent, key, rec);
      if OrderOf(attOrder, attById) {
        SetKeepsOrder(attOrder, attById, rec.fixed.registryId, rec);
      }
      attOrder := if rec.fixed.registryId in attById then attOrder else attOrder + [rec.fixed.registryId];
      attById := attById[rec.fixed.registryId := rec];
      attByContent := attByContent[key := rec];
    }

    method SetAttestationStatus(registryId: Text, status: Status)
      requires Valid()
      modifies if registryId in attById then {attById[registryId]} else {}
      ensures Valid()
      ensures View() == if registryId !in attById then old(View())
                        else old(View()).(attById := old(Attestations())[registryId :=
                                                       old(Attestations())[registryId].(status := status)])
    {
      hide EvidenceMap, EvidenceIds, EvidenceValid;
      if registryId in attById {
        var rec := attById[registryId];
        rec.status := status;
        assert Attestations() == old(Attestations())[registryId := old(Attestations())[registryId].(status := status)];
      }
    }

    lemma AttestationAtIndex(subject: Text, i: nat)
      requires AttestationsValid() && i < |attOrder|
      ensures var id := attOrder[i];
              && id in attById && HasAttestation(attById[id]) && attById[id].fixed.registryId == id
              && (AttestationSelects(Attestations(), subject)(id) <==> AttestationMatches(attById[id].Value(), subject))
    {
      hide AttestationIds, EvidenceIds, EvidenceValues;
      assert attOrder[i] in attOrder;
    }

    /** The matching records, in the order they were first stored. */
    method ListAttestationsBySubject(subject: Text) returns (out: seq<AttestationRecord>)
      requires AttestationsValid()
      ensures forall rec | rec in out :: HasAttestation(rec)
      ensures AttestationIdsOf(out) == Select(attOrder, AttestationSelects(Attestations(), subject))
    {
      hide Attestations, AttestationSelects, OrderOf, Select;
      out := [];
      ghost var p := AttestationSelects(Attestations(), subject);
      SelectNothing(attOrder, p);
      for i := 0 to |attOrder|
        invariant forall rec | rec in out :: HasAttestation(rec)
        invariant AttestationIdsOf(out) == Select(attOrder[..i], p)
      {
        SelectNext(attOrder, p, i);
        AttestationAtIndex(subject, i);
        var rec := attById[attOrder[i]];
        if rec.fixed.subject == subject || rec.fixed.passport == Some(subject) {
          assert AttestationIdsOf(out + [rec]) == AttestationIdsOf(out) + [attOrder[i]];
          out := out + [rec];
        }
      }
      assert attOrder[..|attOrder|] == attOrder;
    }

    // ---------- status history ----------

    method AppendStatus(entry: StatusEntry)
      modifies this`statusByRegistry
      ensures old(Valid()) ==> Valid()
      ensures View() == LedgerModel.AppendStatus(old(View()), entry)
    {
      var list := if entry.registryId in statusByRegistry then statusByRegistry[entry.registryId] else [];
      list := list + [entry];
      statusByRegistry := statusByRegistry[entry.registryId := list];
    }

    method GetLatestStatus(registryId: Text) returns (entry: Option<StatusEntry>)
      ensures registryId in statusByRegistry && statusByRegistry[registryId] != [] ==>
                entry == Some(statusByRegistry[registryId][|statusByRegistry[registryId]| - 1])
      ensures !(registryId in statusByRegistry && statusByRegistry[registryId] != []) ==> entry == None
    {
      var list := if registryId in statusByRegistry then statusByRegistry[registryId] else [];
      entry := if |list| > 0 then Some(list[|list| - 1]) else None;
    }

    // ---------- evidence ----------

    method GetEvidenceById(evidenceId: Text) returns (rec: EvidenceRecord?)
      ensures rec == if evidenceId in evById then evById[evidenceId] else null
    {
      rec := if evidenceId in evById then evById[evidenceId] else null;
    }

    method GetEvidenceByContentHash(tenant: Text, contentHash: Text) returns (rec: EvidenceRecord?)
      ensures var key := ContentKey(tenant, contentHash);
              rec == if key in evByContent then evByContent[key] else null
    {
      var key := ContentKey(tenant, contentHash);
      rec := if key in evByContent then evByContent[key] else null;
    }

    /** Also updateEvidence, which does the same for a record that is there already. */
    method PutEvidence(rec: EvidenceRecord)
      modifies this`evById, this`evOrder, this`evByContent
      ensures old(Valid()) && (rec.fixed.evidenceId in old(evById) ==> old(HasEvidence(rec))) ==> Valid()
      ensures evById == old(evById)[rec.fixed.evidenceId := rec]
      ensures evOrder == OrderAfterSet(old(evOrder), old(evById), rec.fixed.evidenceId)
      ensures View() == LedgerModel.PutEvidence(old(View()), rec.Value())
    {
      hide ContentKey, Lower, AttestationValues, AttestationIds, EvidenceValues, EvidenceIds, AttestationsValid,
           OrderOf;
      var key := ContentKey(rec.fixed.tenant, rec.fixed.contentHash);
      EvidenceMapsUpdated(evById, rec.fixed.evidenceId, rec);
      EvidenceMapsUpdated(evByContent, key, rec);
      if OrderOf(evOrder, evById) {
        SetKeepsOrder(evOrder, evById, rec.fixed.evidenceId, rec);
      }
      evOrder := if rec.fixed.evidenceId in evById then evOrder else evOrder + [rec.fixed.evidenceId];
      evById := evById[rec.fixed.evidenceId := rec];
      evByContent := evByContent[key := rec];
    }

    lemma EvidenceAtIndex(subject: Text, i: nat)
      requires EvidenceValid() && i < |evOrder|
      ensures var id := evOrder[i];
              && id in evById && HasEvidence(evById[id]) && evById[id].fixed.evidenceId == id
              && (EvidenceSelects(EvidenceMap(), subject)(id) <==> EvidenceMatches(evById[id].Value(), subject))
    {
      hide AttestationIds, EvidenceIds, AttestationValues;
      assert evOrder[i] in evOrder;
    }

    /** The matching records that are not deleted, in the order they were first stored. */
    method ListEvidenceBySubject(subject: Text) returns (out: seq<EvidenceRecord>)
      requires EvidenceValid()
      ensures forall rec | rec in out :: HasEvidence(rec)
      ensures EvidenceIdsOf(out) == Select(evOrder, EvidenceSelects(EvidenceMap(), subject))
    {
      hide EvidenceMap, EvidenceSelects, OrderOf, Select;
      out := [];
      ghost var p := EvidenceSelects(EvidenceMap(), subject);
      SelectNothing(evOrder, p);
      for i := 0 to |evOrder|
        invariant forall rec | rec in out :: HasEvidence(rec)
        invariant EvidenceIdsOf(out) == Select(evOrder[..i], p)
      {
        SelectNext(evOrder, p, i);
        EvidenceAtIndex(subject, i);
        var rec := evById[evOrder[i]];
        if rec.deleted {
          continue;
        }
        if rec.fixed.subject == Some(subject) || rec.fixed.passport == Some(subject) {
          assert EvidenceIdsOf(out + [rec]) == EvidenceIdsOf(out) + [evOrder[i]];
          out := out + [rec];
        }
      }
      assert evOrder[..|evOrder|] == evOrder;
    }

    // ---------- checkpoints ----------

    method PutCheckpoint(c: Checkpoint)
      modifies this`checkpointsByLog
      ensures old(Valid()) ==> Valid()
      ensures View() == LedgerModel.PutCheckpoint(old(View()), c)
    {
      var list := if c.head.logId in checkpointsByLog then checkpointsByLog[c.head.logId] else [];
      list := list + [c];
      checkpointsByLog := checkpointsByLog[c.head.logId := list];
    }

    method LatestCheckpoint(logId: Text) returns (c: Option<Checkpoint>)
      ensures var list := if logId in checkpointsByLog then checkpointsByLog[logId] else [];
              c == if list == [] then None else Some(list[|list| - 1])
    {
      var list := if logId in checkpointsByLog then checkpointsByLog[logId] else [];
      c := if |list| > 0 then Some(list[|list| - 1]) else None;
    }

    // ---------- leaves ----------

    method AppendLeaf(logId: Text, leafHex: string) returns (index: nat)
      modifies this`leavesByLog
      ensures old(Valid()) ==> Valid()
      ensures View() == old(View()).(leaves := leavesByLog)
      ensures leavesByLog == old(leavesByLog)[logId := old(StoredLeaves(View(), logId)) + [leafHex]]
      ensures index == |old(StoredLeaves(View(), logId))|
    {
      var list := if logId in leavesByLog then leavesByLog[logId] else [];
      list := list + [leafHex];
      leavesByLog := leavesByLog[logId := list];
      return |list| - 1;
    }

    method GetLeaves(logId: Text) returns (leaves: seq<string>)
      ensures leaves == StoredLeaves(View(), logId)
    {
      leaves := if logId in leavesByLog then leavesByLog[logId] else [];
    }
  }
}
