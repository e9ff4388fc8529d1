/** Over every run of the ledger: what is stored and shown is what was asked for, by whom it was asked, and
    nothing else. */
module LedgerRequests {
  import opened Hashing
  import opened Texts
  import opened LedgerModel
  import opened LedgerInvariant
  import opened LedgerRuns
  import opened ContentKeys
  import opened LedgerAnswers
  import LedgerRecords

  /** What was answered is the same seen from a longer run. */
  lemma RepliesBefore(env: Env, ops: seq<Op>)
    requires ops != []
    ensures var front := ops[..|ops| - 1];
            forall i | 0 <= i < |front| :: front[i] == ops[i] && ReplyAt(env, front, i) == ReplyAt(env, ops, i)
  {
    hide Step, After;
    var front := ops[..|ops| - 1];
    forall i | 0 <= i < |front|
      ensures ReplyAt(env, front, i) == ReplyAt(env, ops, i)
    {
      assert front[..i] == ops[..i];
    }
  }

  /** The step from one moment of a run to the next. */
  lemma OneStep(env: Env, ops: seq<Op>)
    requires PossibleRun(env, ops) && ops != []
    ensures var front, op := ops[..|ops| - 1], ops[|ops| - 1];
            var s := After(env, front);
            && PossibleRun(env, front) && Inv(env, s) && Possible(s, op)
            && After(env, ops) == Step(env, s, op).state && ReplyAt(env, ops, |front|) == Step(env, s, op).reply
  {
    hide Step, Inv, Possible;
    var front := ops[..|ops| - 1];
    PossiblePrefix(env, ops, |front|);
    RunKeepsInv(env, front);
  }

  // ---------- known and new content hashes ----------

  datatype Kind = Attesting | Registering

  predicate Submits(op: Op, kind: Kind) {
    if kind == Attesting then op.DoAnchorAttestation? else op.DoRegisterEvidence?
  }

  function HashOf(op: Op): Text
    requires op.DoAnchorAttestation? || op.DoRegisterEvidence?
  {
    if op.DoAnchorAttestation? then op.req.contentHash else op.evidence.contentHash
  }

  predicate Answered(reply: Reply) {
    reply.AttestationReply? || reply.EvidenceReply?
  }

  function Index(s: State, kind: Kind): map<Text, Text> {
    if kind == Attesting then s.attByContent else s.evByContent
  }

  /** Operation i submitted content under this key and was answered. */
  ghost predicate AnsweredFor(env: Env, ops: seq<Op>, i: int, kind: Kind, key: Text) {
    && 0 <= i < |ops| && Submits(ops[i], kind) && Answered(ReplyAt(env, ops, i))
    && ContentKey(ops[i].tenant, HashOf(ops[i])) == key
  }

  ghost predicate EverAnsweredFor(env: Env, ops: seq<Op>, kind: Kind, key: Text) {
    exists i :: AnsweredFor(env, ops, i, kind, key)
  }

  lemma AnsweredBefore(env: Env, ops: seq<Op>, kind: Kind, key: Text)
    requires ops != []
    ensures EverAnsweredFor(env, ops, kind, key)
       <==> EverAnsweredFor(env, ops[..|ops| - 1], kind, key) || AnsweredFor(env, ops, |ops| - 1, kind, key)
  {
    hide Step, ContentKey, After, ReplyAt, Submits, HashOf, Answered;
    var front := ops[..|ops| - 1];
    RepliesBefore(env, ops);
    if EverAnsweredFor(env, front, kind, key) {
      var i :| AnsweredFor(env, front, i, kind, key);
      assert AnsweredFor(env, ops, i, kind, key);
    }
    if EverAnsweredFor(env, ops, kind, key) {
      var i :| AnsweredFor(env, ops, i, kind, key);
      assert i < |front| ==> AnsweredFor(env, front, i, kind, key);
    }
  }

  lemma IndexStep(env: Env, s: State, op: Op, kind: Kind, key: Text)
    requires Inv(env, s) && Possible(s, op)
    ensures var o := Step(env, s, op);
            (key in Index(o.state, kind)
             <==> || key in Index(s, kind)
                  || (Submits(op, kind) && Answered(o.reply) && ContentKey(op.tenant, HashOf(op)) == key))
  {
    hide Step, Inv, ContentKey, Possible, FromRequest, EntryFromRequest, EvidenceFromRequest, AsRequested;
    if kind == Attesting {
      if op.DoAnchorAttestation? {
        AttestingAnswers(env, s, op);
      } else if op.DoSetStatus? {
        StatusAnswers(env, s, op);
      } else {
        OthersKeepAttestations(env, s, op);
      }
    } else {
      if op.DoRegisterEvidence? {
        RegisteringAnswers(env, s, op);
      } else if op.DoUpdateRetention? {
        RetentionAnswers(env, s, op);
      } else if op.DoDeleteEvidence? {
        DeleteAnswers(env, s, op);
      } else {
        OthersKeepEvidence(env, s, op);
      }
    }
  }

  /** A content key leads to a record exactly if content was submitted under it and answered. */
  lemma {:induction false} IndexIsSubmissions(env: Env, ops: seq<Op>, kind: Kind, key: Text)
    requires PossibleRun(env, ops)
    ensures key in Index(After(env, ops), kind) <==> EverAnsweredFor(env, ops, kind, key)
  {
    hide Step, Inv, ContentKey, Possible, ReplyAt, PossibleRun, EverAnsweredFor, Submits, HashOf, Answered;
    if ops == [] {
      NothingAnswered(env, kind, key);
    } else {
      OneStep(env, ops);
      IndexIsSubmissions(env, ops[..|ops| - 1], kind, key);
      AnsweredBefore(env, ops, kind, key);
      IndexStep(env, After(env, ops[..|ops| - 1]), ops[|ops| - 1], kind, key);
    }
  }

  lemma NothingAnswered(env: Env, kind: Kind, key: Text)
    ensures !EverAnsweredFor(env, [], kind, key)
  {
  }

  /** No submitted hash has a bar, as the routes see to. */
  predicate HashesBarFree(ops: seq<Op>) {
    forall op | op in ops && (op.DoAnchorAttestation? || op.DoRegisterEvidence?) :: BarFree(HashOf(op))
  }

  /** The answered submissions under the key of operation j are those of its tenant and hash. */
  lemma SubmissionsOf(env: Env, ops: seq<Op>, j: nat, kind: Kind)
    requires PossibleRun(env, ops) && HashesBarFree(ops) && j < |ops| && Submits(ops[j], kind)
    ensures ContentKey(ops[j].tenant, HashOf(ops[j])) in Index(After(env, ops[..j]), kind)
       <==> exists i :: 0 <= i < j && Submits(ops[i], kind) && Answered(ReplyAt(env, ops, i))
                        && ops[i].tenant == ops[j].tenant && SameUpToCase(HashOf(ops[i]), HashOf(ops[j]))
  {
    hide Step, ContentKey, BarFree, SameUpToCase, After, Answered, Index, PossibleRun;
    var front, key := ops[..j], ContentKey(ops[j].tenant, HashOf(ops[j]));
    PossiblePrefix(env, ops, j);
    IndexIsSubmissions(env, front, kind, key);
    forall i | 0 <= i < j && Submits(ops[i], kind)
      ensures AnsweredFor(env, front, i, kind, key)
         <==> Answered(ReplyAt(env, ops, i)) && ops[i].tenant == ops[j].tenant
              && SameUpToCase(HashOf(ops[i]), HashOf(ops[j]))
    {
      assert front[..i] == ops[..i];
      ContentKeyExactly(ops[i].tenant, HashOf(ops[i]), ops[j].tenant, HashOf(ops[j]));
    }
  }

  /** A submission is answered once the anchor service answers, and as already anchored exactly if the same tenant
      was answered before for the same hash, up to letter case. In any case the record shown is one of this
      tenant and of this hash. */
  lemma AlreadyAnchoredExactly(env: Env, ops: seq<Op>, j: nat)
    requires PossibleRun(env, ops) && HashesBarFree(ops) && j < |ops| && ops[j].DoAnchorAttestation?
    ensures var r, t := ReplyAt(env, ops, j), After(env, ops[..j + 1]);
            && (r.AttestationReply? <==> ops[j].anchorUp)
            && (r.AttestationReply? ==>
                  && (r.alreadyAnchored <==>
                        exists i :: 0 <= i < j && Submits(ops[i], Attesting) && Answered(ReplyAt(env, ops, i))
                                    && ops[i].tenant == ops[j].tenant
                                    && SameUpToCase(HashOf(ops[i]), ops[j].req.contentHash))
                  && r.attestationId in t.attById && t.attById[r.attestationId].tenant == ops[j].tenant
                  && SameUpToCase(t.attById[r.attestationId].contentHash, ops[j].req.contentHash))
  {
    hide Step, Inv, ContentKey, Possible, BarFree, SameUpToCase, Answered;
    RunEvolvesBetween(env, ops, j, j);
    AttestingAnswers(env, After(env, ops[..j]), ops[j]);
    SubmissionsOf(env, ops, j, Attesting);
    if ops[j].anchorUp {
      AnsweredRecord(env, ops, j);
    }
  }

  /** The same for evidence. */
  lemma AlreadyRegisteredExactly(env: Env, ops: seq<Op>, j: nat)
    requires PossibleRun(env, ops) && HashesBarFree(ops) && j < |ops| && ops[j].DoRegisterEvidence?
    ensures var r, t := ReplyAt(env, ops, j), After(env, ops[..j + 1]);
            && (r.EvidenceReply? <==> ops[j].anchorUp)
            && (r.EvidenceReply? ==>
                  && (r.alreadyRegistered <==>
                        exists i :: 0 <= i < j && Submits(ops[i], Registering) && Answered(ReplyAt(env, ops, i))
                                    && ops[i].tenant == ops[j].tenant
                                    && SameUpToCase(HashOf(ops[i]), ops[j].evidence.contentHash))
                  && r.entry.evidenceId in t.evById && t.evById[r.entry.evidenceId].tenant == ops[j].tenant
                  && SameUpToCase(t.evById[r.entry.evidenceId].contentHash, ops[j].evidence.contentHash))
  {
    hide Step, Inv, ContentKey, Possible, BarFree, SameUpToCase, Answered;
    RunEvolvesBetween(env, ops, j, j);
    RegisteringAnswers(env, After(env, ops[..j]), ops[j]);
    SubmissionsOf(env, ops, j, Registering);
    if ops[j].anchorUp {
      AnsweredEvidence(env, ops, j);
    }
  }

  lemma AnsweredRecord(env: Env, ops: seq<Op>, j: nat)
    requires PossibleRun(env, ops) && HashesBarFree(ops) && j < |ops| && ops[j].DoAnchorAttestation?
    requires ReplyAt(env, ops, j).AttestationReply?
    ensures var r, t := ReplyAt(env, ops, j), After(env, ops[..j + 1]);
            && r.attestationId in t.attById && t.attById[r.attestationId].tenant == ops[j].tenant
            && SameUpToCase(t.attById[r.attestationId].contentHash, ops[j].req.contentHash)
  {
    hide Step, Inv, ContentKey, Possible, BarFree, SameUpToCase, Lower;
    var op, t := ops[j], After(env, ops[..j + 1]);
    var id := ReplyAt(env, ops, j).attestationId;
    assert ops[..j + 1][..j] == ops[..j];
    RunEvolvesBetween(env, ops, j, j + 1);
    PossiblePrefix(env, ops, j + 1);
    LedgerRecords.AnchoredUnderItsKey(env, After(env, ops[..j]), op);
    RecordUnderKey(env, t, op.tenant, op.req.contentHash, id);
    var i := AttestationComesFromRequest(env, ops[..j + 1], id);
    assert ops[i] == ops[..j + 1][i];
    SameKeySameHash(t.attById[id].tenant, t.attById[id].contentHash, ops[i].req.contentHash, op.tenant,
                    op.req.contentHash);
  }

  lemma RecordUnderKey(env: Env, s: State, tenant: Text, hash: Text, id: Text)
    requires Inv(env, s)
    requires var key := ContentKey(tenant, Lower(hash)); key in s.attByContent && s.attByContent[key] == id
    ensures id in s.attById
    ensures ContentKey(s.attById[id].tenant, s.attById[id].contentHash) == ContentKey(tenant, hash)
  {
    hide ContentKey, Lower, AttestationSound, HistorySound, EvidenceSound, CacheAgrees;
    KeyOfLowered(tenant, hash);
  }

  lemma AnsweredEvidence(env: Env, ops: seq<Op>, j: nat)
    requires PossibleRun(env, ops) && HashesBarFree(ops) && j < |ops| && ops[j].DoRegisterEvidence?
    requires ReplyAt(env, ops, j).EvidenceReply?
    ensures var r, t := ReplyAt(env, ops, j), After(env, ops[..j + 1]);
            && r.entry.evidenceId in t.evById && t.evById[r.entry.evidenceId].tenant == ops[j].tenant
            && SameUpToCase(t.evById[r.entry.evidenceId].contentHash, ops[j].evidence.contentHash)
  {
    hide Step, Inv, ContentKey, Possible, BarFree, SameUpToCase, Lower;
    var op, t := ops[j], After(env, ops[..j + 1]);
    var id := ReplyAt(env, ops, j).entry.evidenceId;
    assert ops[..j + 1][..j] == ops[..j];
    RunEvolvesBetween(env, ops, j, j + 1);
    PossiblePrefix(env, ops, j + 1);
    LedgerRecords.RegisteredUnderItsKey(env, After(env, ops[..j]), op);
    EvidenceUnderKey(env, t, op.tenant, op.evidence.contentHash, id);
    var i := EvidenceComesFromRequest(env, ops[..j + 1], id);
    assert ops[i] == ops[..j + 1][i];
    SameKeySameHash(t.evById[id].tenant, t.evById[id].contentHash, ops[i].evidence.contentHash, op.tenant,
                    op.evidence.contentHash);
  }

  lemma EvidenceUnderKey(env: Env, s: State, tenant: Text, hash: Text, id: Text)
    requires Inv(env, s)
    requires var key := ContentKey(tenant, Lower(hash)); key in s.evByContent && s.evByContent[key] == id
    ensures id in s.evById
    ensures ContentKey(s.evById[id].tenant, s.evById[id].contentHash) == ContentKey(tenant, hash)
  {
    hide ContentKey, Lower, AttestationSound, HistorySound, EvidenceSound, CacheAgrees;
    KeyOfLowered(tenant, hash);
  }

  /** `made` is the hash a record was made from. */
  lemma SameKeySameHash(owner: Text, stored: Text, made: Text, tenant: Text, hash: Text)
    requires ContentKey(owner, stored) == ContentKey(tenant, hash)
    requires SameUpToCase(stored, made) && BarFree(made) && BarFree(hash)
    ensures owner == tenant && SameUpToCase(stored, hash)
  {
    hide ContentKey, Lower, SameUpToCase;
    CaseKeepsBars(stored, made);
    ContentKeyExactly(owner, stored, tenant, hash);
  }

  lemma CaseKeepsBars(s: Text, t: Text)
    requires SameUpToCase(s, t) && BarFree(t)
    ensures BarFree(s)
  {
    forall i | 0 <= i < |s|
      ensures s[i] != BAR
    {
      assert SameLetter(s[i], t[i]) && t[i] in t;
    }
  }

  // ---------- attestations come from requests ----------

  /** Operation i stored the record with this id. */
  ghost predicate Stores(env: Env, ops: seq<Op>, i: int, id: Text) {
    && 0 <= i < |ops| && ops[i].DoAnchorAttestation? && ops[i].registryId == id
    && ReplyAt(env, ops, i).AttestationReply? && !ReplyAt(env, ops, i).alreadyAnchored
  }

  /** Every stored attestation says what an answered request said, and but for its status it always will. */
  lemma {:induction false} AttestationComesFromRequest(env: Env, ops: seq<Op>, id: Text) returns (i: nat)
    requires PossibleRun(env, ops) && id in After(env, ops).attById
    ensures Stores(env, ops, i, id) && FromRequest(After(env, ops).attById[id], ops[i])
  {
    hide Step, Inv, ContentKey, Possible, PossibleRun, ReplyAt;
    assert ops != [];
    var front, op := ops[..|ops| - 1], ops[|ops| - 1];
    var s := After(env, front);
    OneStep(env, ops);
    if op.DoAnchorAttestation? {
      AttestingAnswers(env, s, op);
    } else if op.DoSetStatus? {
      StatusAnswers(env, s, op);
    } else {
      OthersKeepAttestations(env, s, op);
    }
    if id in s.attById {
      i := AttestationComesFromRequest(env, front, id);
      RepliesBefore(env, ops);
    } else {
      i := |front|;
    }
  }

  /** The other way round: what an answered request stored is there at every later moment. */
  lemma StoredRequestStays(env: Env, ops: seq<Op>, i: nat, id: Text)
    requires PossibleRun(env, ops) && Stores(env, ops, i, id)
    ensures id in After(env, ops).attById && FromRequest(After(env, ops).attById[id], ops[i])
  {
    hide Step, Inv, ContentKey, Possible, Evolves, SameUpToCase;
    RunEvolvesBetween(env, ops, i, i + 1);
    RunEvolvesBetween(env, ops, i + 1, |ops|);
    assert ops[..|ops|] == ops && ops[..i + 1][..i] == ops[..i];
    AttestingAnswers(env, After(env, ops[..i]), ops[i]);
    AttestationKept(env, After(env, ops[..i + 1]), After(env, ops), id);
  }

  lemma AttestationKept(env: Env, s: State, t: State, id: Text)
    requires Evolves(env, s, t) && id in s.attById
    ensures id in t.attById && t.attById[id] == s.attById[id].(status := t.attById[id].status)
  {
    hide TreesGrow;
  }

  // ---------- histories are the answered changes ----------

  ghost predicate ChangesStatus(env: Env, ops: seq<Op>, i: int, id: Text) {
    0 <= i < |ops| && ops[i].DoSetStatus? && ops[i].registryId == id && ReplyAt(env, ops, i).StatusReply?
  }

  /** The answered changes of a record's status, in order. */
  ghost function Changes(env: Env, ops: seq<Op>, id: Text): seq<nat> {
    if ops == [] then []
    else
      var last := |ops| - 1;
      Changes(env, ops[..last], id) + if ChangesStatus(env, ops, last, id) then [last] else []
  }

  /** The history behind its first entry is the answered changes, one by one. */
  ghost predicate HistoryIsRequests(hist: seq<StatusEntry>, ops: seq<Op>, changes: seq<nat>) {
    && |hist| == |changes| + 1
    && forall k | 0 <= k < |changes| ::
         changes[k] < |ops| && ops[changes[k]].DoSetStatus? && EntryFromRequest(hist[k + 1], ops[changes[k]])
  }

  lemma MoreRequests(hist: seq<StatusEntry>, ops: seq<Op>, op: Op, changes: seq<nat>)
    requires HistoryIsRequests(hist, ops, changes)
    ensures HistoryIsRequests(hist, ops + [op], changes)
    ensures forall e | op.DoSetStatus? && EntryFromRequest(e, op) ::
              HistoryIsRequests(hist + [e], ops + [op], changes + [|ops|])
  {
    hide EntryFromRequest;
  }

  lemma {:induction false} NoChangesBefore(env: Env, ops: seq<Op>, id: Text)
    requires PossibleRun(env, ops) && id !in After(env, ops).attById
    ensures Changes(env, ops, id) == []
  {
    hide Step, Inv, Possible, PossibleRun, ReplyAt, Evolves;
    if ops != [] {
      var front, op := ops[..|ops| - 1], ops[|ops| - 1];
      var s := After(env, front);
      OneStep(env, ops);
      StepKeeps(env, s, op);
      NotYetStored(env, s, After(env, ops), id);
      NoChangesBefore(env, front, id);
      if op.DoSetStatus? {
        StatusAnswers(env, s, op);
      }
    }
  }

  lemma NotYetStored(env: Env, s: State, t: State, id: Text)
    requires Evolves(env, s, t) && id !in t.attById
    ensures id !in s.attById
  {
  }

  /** The history of a record is its first entry and one entry for each answered change of its status, in order:
      a revocation exactly where revoking was asked for, by the tenant that asked, with the successor named. */
  lemma {:induction false} HistoryIsAnsweredRequests(env: Env, ops: seq<Op>, id: Text)
    requires PossibleRun(env, ops) && id in After(env, ops).attById
    ensures HistoryIsRequests(History(After(env, ops), id), ops, Changes(env, ops, id))
  {
    hide Step, Inv, Possible, PossibleRun, ReplyAt, HistoryIsRequests, EntryFromRequest, ContentKey, History;
    assert ops != [];
    var front, op := ops[..|ops| - 1], ops[|ops| - 1];
    var s, t := After(env, front), After(env, ops);
    OneStep(env, ops);
    assert ops == front + [op];
    if id in s.attById {
      HistoryIsAnsweredRequests(env, front, id);
      MoreRequests(History(s, id), front, op, Changes(env, front, id));
      HistoryStep(env, s, op, id);
      if ChangesStatus(env, ops, |front|, id) {
        var e :| EntryFromRequest(e, op) && History(t, id) == History(s, id) + [e];
        assert HistoryIsRequests(History(s, id) + [e], front + [op], Changes(env, front, id) + [|front|]);
      } else {
        assert Changes(env, ops, id) == Changes(env, front, id);
      }
    } else {
      NoChangesBefore(env, front, id);
      FirstOfHistory(env, s, op, id);
      NothingRequested(History(t, id), ops);
      assert Changes(env, ops, id) == [];
    }
  }

  lemma NothingRequested(hist: seq<StatusEntry>, ops: seq<Op>)
    requires |hist| == 1
    ensures HistoryIsRequests(hist, ops, [])
  {
  }

  lemma HistoryStep(env: Env, s: State, op: Op, id: Text)
    requires Inv(env, s) && Possible(s, op) && id in s.attById
    ensures var o := Step(env, s, op);
            if op.DoSetStatus? && op.registryId == id && o.reply.StatusReply? then
              exists e :: EntryFromRequest(e, op) && History(o.state, id) == History(s, id) + [e]
            else History(o.state, id) == History(s, id)
  {
    hide Step, Inv, ContentKey, FromRequest, EntryFromRequest;
    if op.DoAnchorAttestation? {
      AttestingAnswers(env, s, op);
    } else if op.DoSetStatus? {
      StatusAnswers(env, s, op);
      var a, b := History(s, op.registryId), History(Step(env, s, op).state, op.registryId);
      if Step(env, s, op).reply.StatusReply? {
        assert b == a + [b[|a|]];
      }
    } else {
      OthersKeepAttestations(env, s, op);
    }
  }

  lemma FirstOfHistory(env: Env, s: State, op: Op, id: Text)
    requires Inv(env, s) && Possible(s, op) && id !in s.attById && id in Step(env, s, op).state.attById
    ensures op.DoAnchorAttestation? && |History(Step(env, s, op).state, id)| == 1
  {
    hide Step, Inv, ContentKey, FromRequest, EntryFromRequest;
    if op.DoAnchorAttestation? {
      AttestingAnswers(env, s, op);
    } else if op.DoSetStatus? {
      StatusAnswers(env, s, op);
    } else {
      OthersKeepAttestations(env, s, op);
    }
  }

  lemma {:induction false} ChangesAre(env: Env, ops: seq<Op>, id: Text, i: int)
    ensures i in Changes(env, ops, id) <==> ChangesStatus(env, ops, i, id)
  {
    hide Step, ReplyAt, After;
    if ops != [] {
      RepliesBefore(env, ops);
      ChangesAre(env, ops[..|ops| - 1], id, i);
    }
  }

  ghost predicate EverAsked(env: Env, ops: seq<Op>, id: Text, action: Action) {
    exists i :: ChangesStatus(env, ops, i, id) && ops[i].action == action
  }

  /** At every moment a record is revoked exactly if revoking it was ever asked for and answered, superseded
      exactly if only that was, and active if nothing was. */
  lemma StatusIsWhatWasAsked(env: Env, ops: seq<Op>, id: Text)
    requires PossibleRun(env, ops) && id in After(env, ops).attById
    ensures var status := After(env, ops).attById[id].status;
            && (status == Revoked <==> EverAsked(env, ops, id, Revoke))
            && (status == Superseded <==> EverAsked(env, ops, id, Supersede) && !EverAsked(env, ops, id, Revoke))
  {
    hide Step, Possible, PossibleRun, ReplyAt, After, Changes;
    var hist, changes := History(After(env, ops), id), Changes(env, ops, id);
    HistoryIsAnsweredRequests(env, ops, id);
    LedgerRecords.StatusHistoryShape(env, ops, id);
    forall i
      ensures i in changes <==> ChangesStatus(env, ops, i, id)
    {
      ChangesAre(env, ops, id, i);
    }
    forall i | ChangesStatus(env, ops, i, id)
      ensures ops[i].action == Revoke ==> hist[|hist| - 1].status == Revoked
    {
      var k :| 0 <= k < |changes| && changes[k] == i;
      assert EntryFromRequest(hist[k + 1], ops[i]);
    }
    if changes != [] {
      assert EntryFromRequest(hist[|changes|], ops[changes[|changes| - 1]]);
      assert ChangesStatus(env, ops, changes[|changes| - 1], id);
    }
  }

  // ---------- evidence comes from requests ----------

  /** Operation i stored the evidence with this id. */
  ghost predicate Registers(env: Env, ops: seq<Op>, i: int, id: Text) {
    && 0 <= i < |ops| && ops[i].DoRegisterEvidence? && ops[i].evidenceId == id
    && ReplyAt(env, ops, i).EvidenceReply? && !ReplyAt(env, ops, i).alreadyRegistered
  }

  /** The request was granted, even if its head could then not be anchored. */
  predicate Granted(reply: Reply) {
    reply.EvidenceReply? || reply == Failed(ChainUnavailable)
  }

  ghost predicate Updates(env: Env, ops: seq<Op>, i: int, id: Text) {
    0 <= i < |ops| && ops[i].DoUpdateRetention? && ops[i].evidenceId == id && Granted(ReplyAt(env, ops, i))
  }

  ghost predicate SetsDate(env: Env, ops: seq<Op>, i: int, id: Text) {
    Updates(env, ops, i, id) && ops[i].extendUntil.Some?
  }

  ghost predicate SetsHold(env: Env, ops: seq<Op>, i: int, id: Text) {
    Updates(env, ops, i, id) && ops[i].legalHold.Some?
  }

  ghost predicate Deletes(env: Env, ops: seq<Op>, i: int, id: Text) {
    0 <= i < |ops| && ops[i].DoDeleteEvidence? && ops[i].evidenceId == id && ReplyAt(env, ops, i) == Deleted
  }

  /** What one step does to one stored record. */
  lemma EvidenceStep(env: Env, s: State, op: Op, id: Text)
    requires Inv(env, s) && Possible(s, op) && id in s.evById
    ensures var o := Step(env, s, op);
            && id in o.state.evById
            && var e, f := s.evById[id], o.state.evById[id];
               if op.DoUpdateRetention? && op.evidenceId == id && Granted(o.reply) then AsRequested(e, f, op)
               else if op.DoDeleteEvidence? && op.evidenceId == id && o.reply == Deleted then f == e.(deleted := true)
               else f == e
  {
    hide Step, Inv, ContentKey, EvidenceFromRequest, AsRequested, Shortens, Locked;
    if op.DoRegisterEvidence? {
      RegisteringAnswers(env, s, op);
    } else if op.DoUpdateRetention? {
      RetentionAnswers(env, s, op);
    } else if op.DoDeleteEvidence? {
      DeleteAnswers(env, s, op);
    } else {
      OthersKeepEvidence(env, s, op);
    }
  }

  lemma FirstOfEvidence(env: Env, s: State, op: Op, id: Text)
    requires Inv(env, s) && Possible(s, op) && id !in s.evById && id in Step(env, s, op).state.evById
    ensures op.DoRegisterEvidence? && op.evidenceId == id
    ensures var o := Step(env, s, op);
            o.reply.EvidenceReply? && !o.reply.alreadyRegistered && EvidenceFromRequest(o.state.evById[id], op)
  {
    hide Step, Inv, ContentKey, EvidenceFromRequest, AsRequested, Shortens, Locked;
    if op.DoRegisterEvidence? {
      RegisteringAnswers(env, s, op);
    } else if op.DoUpdateRetention? {
      RetentionAnswers(env, s, op);
    } else if op.DoDeleteEvidence? {
      DeleteAnswers(env, s, op);
    } else {
      OthersKeepEvidence(env, s, op);
    }
  }

  /** Every stored evidence record says what an answered request said, but for its date, its hold and whether it is
      deleted. */
  lemma {:induction false} EvidenceComesFromRequest(env: Env, ops: seq<Op>, id: Text) returns (i: nat)
    requires PossibleRun(env, ops) && id in After(env, ops).evById
    ensures Registers(env, ops, i, id)
    ensures var e, op := After(env, ops).evById[id], ops[i];
            EvidenceFromRequest(e.(until := op.evidence.until, legalHold := op.evidence.legalHold == Some(true),
                                   deleted := false), op)
  {
    hide Step, Inv, Possible, PossibleRun, ReplyAt, SameUpToCase;
    assert ops != [];
    var front, op := ops[..|ops| - 1], ops[|ops| - 1];
    var s := After(env, front);
    OneStep(env, ops);
    if id in s.evById {
      EvidenceStep(env, s, op, id);
      i := EvidenceComesFromRequest(env, front, id);
      RepliesBefore(env, ops);
    } else {
      FirstOfEvidence(env, s, op, id);
      i := |front|;
    }
  }

  /** The recorded date is the one of the last request that named one and was granted, or else of the registration. */
  lemma {:induction false} DateIsLastRequested(env: Env, ops: seq<Op>, id: Text) returns (i: nat)
    requires PossibleRun(env, ops) && id in After(env, ops).evById
    ensures Registers(env, ops, i, id) || SetsDate(env, ops, i, id)
    ensures After(env, ops).evById[id].until
         == if ops[i].DoRegisterEvidence? then ops[i].evidence.until else ops[i].extendUntil.value
    ensures forall j | i < j < |ops| :: !Registers(env, ops, j, id) && !SetsDate(env, ops, j, id)
  {
    hide Step, Inv, Possible, PossibleRun, ReplyAt, SameUpToCase;
    assert ops != [];
    var front, op := ops[..|ops| - 1], ops[|ops| - 1];
    var s := After(env, front);
    OneStep(env, ops);
    if id in s.evById {
      EvidenceStep(env, s, op, id);
      RegisteredOnce(s, op, id);
    } else {
      FirstOfEvidence(env, s, op, id);
    }
    if id !in s.evById || SetsDate(env, ops, |front|, id) {
      i := |front|;
    } else {
      i := DateIsLastRequested(env, front, id);
      SameBefore(env, ops, id);
    }
  }

  lemma RegisteredOnce(s: State, op: Op, id: Text)
    requires Possible(s, op) && id in s.evById
    ensures !(op.DoRegisterEvidence? && op.evidenceId == id)
  {
  }

  /** What operations did is the same seen from a longer run. */
  lemma SameBefore(env: Env, ops: seq<Op>, id: Text)
    requires ops != []
    ensures var front := ops[..|ops| - 1];
            forall j | 0 <= j < |front| ::
              && (Registers(env, front, j, id) <==> Registers(env, ops, j, id))
              && (SetsDate(env, front, j, id) <==> SetsDate(env, ops, j, id))
              && (SetsHold(env, front, j, id) <==> SetsHold(env, ops, j, id))
              && (Deletes(env, front, j, id) <==> Deletes(env, ops, j, id))
  {
    hide Step, ReplyAt, After;
    RepliesBefore(env, ops);
  }

  /** The hold is the one of the last request that named one and was granted, or else of the registration. */
  lemma {:induction false} HoldIsLastRequested(env: Env, ops: seq<Op>, id: Text) returns (i: nat)
    requires PossibleRun(env, ops) && id in After(env, ops).evById
    ensures Registers(env, ops, i, id) || SetsHold(env, ops, i, id)
    ensures After(env, ops).evById[id].legalHold
       <==> if ops[i].DoRegisterEvidence? then ops[i].evidence.legalHold == Some(true) else ops[i].legalHold.value
    ensures forall j | i < j < |ops| :: !Registers(env, ops, j, id) && !SetsHold(env, ops, j, id)
  {
    hide Step, Inv, Possible, PossibleRun, ReplyAt, SameUpToCase;
    assert ops != [];
    var front, op := ops[..|ops| - 1], ops[|ops| - 1];
    var s := After(env, front);
    OneStep(env, ops);
    if id in s.evById {
      EvidenceStep(env, s, op, id);
      RegisteredOnce(s, op, id);
    } else {
      FirstOfEvidence(env, s, op, id);
    }
    if id !in s.evById || SetsHold(env, ops, |front|, id) {
      i := |front|;
    } else {
      i := HoldIsLastRequested(env, front, id);
      SameBefore(env, ops, id);
    }
  }

  ghost predicate EverDeletes(env: Env, ops: seq<Op>, id: Text) {
    exists i :: Deletes(env, ops, i, id)
  }

  lemma DeletedBefore(env: Env, ops: seq<Op>, id: Text)
    requires ops != []
    ensures EverDeletes(env, ops, id)
       <==> EverDeletes(env, ops[..|ops| - 1], id) || Deletes(env, ops, |ops| - 1, id)
  {
    hide Step, Inv, Possible, PossibleRun, ReplyAt, After;
    var front := ops[..|ops| - 1];
    SameBefore(env, ops, id);
    if EverDeletes(env, front, id) {
      var i :| Deletes(env, front, i, id);
      assert Deletes(env, ops, i, id);
    }
    if EverDeletes(env, ops, id) {
      var i :| Deletes(env, ops, i, id);
      assert i < |front| ==> Deletes(env, front, i, id);
    }
  }

  /** A record is deleted exactly if deleting it was asked for and answered so. */
  lemma {:induction false} DeletedExactlyIfAsked(env: Env, ops: seq<Op>, id: Text)
    requires PossibleRun(env, ops) && id in After(env, ops).evById
    ensures After(env, ops).evById[id].deleted <==> EverDeletes(env, ops, id)
  {
    hide Step, Inv, Possible, PossibleRun, ReplyAt, SameUpToCase, EverDeletes;
    assert ops != [];
    var front, op := ops[..|ops| - 1], ops[|ops| - 1];
    var s := After(env, front);
    OneStep(env, ops);
    DeletedBefore(env, ops, id);
    if id in s.evById {
      EvidenceStep(env, s, op, id);
      DeletedExactlyIfAsked(env, front, id);
    } else {
      FirstOfEvidence(env, s, op, id);
      NotDeletedBefore(env, front, id);
    }
  }

  lemma {:induction false} NotDeletedBefore(env: Env, ops: seq<Op>, id: Text)
    requires PossibleRun(env, ops) && id !in After(env, ops).evById
    ensures !EverDeletes(env, ops, id)
  {
    hide Step, Inv, Possible, PossibleRun, ReplyAt, SameUpToCase, AsRequested, Locked;
    if ops != [] {
      hide EverDeletes;
      var front, op := ops[..|ops| - 1], ops[|ops| - 1];
      var s := After(env, front);
      OneStep(env, ops);
      DeletedBefore(env, ops, id);
      if id in s.evById {
        EvidenceStep(env, s, op, id);
      }
      NotDeletedBefore(env, front, id);
      if op.DoDeleteEvidence? {
        DeleteAnswers(env, s, op);
      }
    }
  }

  /** After an extension was granted no delete succeeds before the date it named, whatever is asked in between. */
  lemma ExtensionBinds(env: Env, ops: seq<Op>, i: nat, j: nat, id: Text)
    requires PossibleRun(env, ops) && i < j < |ops| && SetsDate(env, ops, i, id) && Deletes(env, ops, j, id)
    ensures env.parseDate(ops[i].extendUntil.value).Some?
    ensures ops[j].now >= env.parseDate(ops[i].extendUntil.value).value
  {
    hide Inv, Step, Possible, Evolves, PossibleRun, ContentKey;
    var s0, s1, s2 := After(env, ops[..i]), After(env, ops[..i + 1]), After(env, ops[..j]);
    assert ops[..i + 1][..i] == ops[..i] && ops[..j + 1][..j] == ops[..j];
    RunEvolvesBetween(env, ops, i, i + 1);
    RunEvolvesBetween(env, ops, i + 1, j);
    RetentionAnswers(env, s0, ops[i]);
    DeleteAnswers(env, s2, ops[j]);
    LedgerRecords.NoDeletionBeforeAnyRecordedDate(env, ops, i + 1, j, id);
  }
}
