/** The ledger as a value: what each operation does to the store, the cached trees and the caller. */
module LedgerModel {
  import opened Hashing
  import opened Encoding
  import opened Texts
  import opened MerkleTree
  import opened TransparencyLog
  import ConsistencyProofs

  // ---------- records ----------

  datatype Status = Active | Superseded | Revoked

  datatype Action = Revoke | Supersede

  datatype Attestation = Attestation(registryId: Text, subject: Text, issuer: Text, recordType: Text,
                                     contentHash: Text, status: Status, tenant: Text, logId: Text,
                                     leafIndex: nat, leafHash: Hash, passport: Option<Text>, anchoredAt: Text)

  datatype StatusEntry = StatusEntry(registryId: Text, status: Status, since: Text, supersededBy: Option<Text>,
                                     actor: Text, logId: Text, leafIndex: nat, leafHash: Hash)

  datatype Evidence = Evidence(evidenceId: Text, contentHash: Text, until: Text, basis: Text, legalHold: bool,
                               tenant: Text, logId: Text, leafIndex: nat, subject: Option<Text>,
                               passport: Option<Text>, deleted: bool)

  // ---------- requests, replies ----------

  datatype AttestationRequest = AttestationRequest(subject: Text, issuer: Text, recordType: Text,
                                                   contentHash: Text, passport: Option<Text>)

  datatype EvidenceRequest = EvidenceRequest(contentHash: Text, until: Text, basis: Text, legalHold: Option<bool>,
                                             subject: Option<Text>, passport: Option<Text>)

  /** The tree head that is handed to the anchor service. */
  datatype Sth = Sth(logId: Text, treeSize: nat, root: Hash)

  datatype Error = NotFound | ForbiddenTenant | StatusConflict | ProofUnavailable | InvalidRequest | RetentionLocked
                 | ChainUnavailable | OutOfRange

  /** A head that a client submitted for a log. */
  datatype Checkpoint = Checkpoint(checkpointId: Text, head: Sth)

  datatype BundleEntry = BundleEntry(registryId: Text, status: Status, inclusion: InclusionProof, sth: Sth)

  datatype EvidenceEntry = EvidenceEntry(evidenceId: Text, contentHash: Text, until: Text, legalHold: bool,
                                         deletable: bool, sth: Sth)

  datatype Reply =
    | Failed(error: Error)
    | AttestationReply(attestationId: Text, status: Status, logId: Text, leafIndex: nat, leafHash: Hash,
                       inclusion: InclusionProof, sth: Sth, alreadyAnchored: bool)
    | InclusionReply(registryId: Text, inclusion: InclusionProof, sth: Sth)
    | StatusReply(statusOf: Text, status: Status, since: Text, supersededBy: Option<Text>, actor: Text,
                  inclusion: InclusionProof, sth: Sth)
    | ConsistencyReply(logId: Text, first: Sth, second: Sth, path: seq<Hash>)
    | EvidenceReply(entry: EvidenceEntry, alreadyRegistered: bool)
    | Deleted
    | Restarted
    | CheckpointReply(checkpointId: Text, sth: Sth)
    | BundleReply(attestations: seq<BundleEntry>, checkpoints: seq<Sth>, evidence: seq<EvidenceEntry>)

  // ---------- state ----------

  /** `logs` are the trees in memory, `leaves` the leaf table, as hexadecimal text. Both content
      indexes lead to the record of the id. */
  datatype State = State(logs: map<Text, seq<Bytes>>, leaves: map<Text, seq<string>>,
                         attById: map<Text, Attestation>, attByContent: map<Text, Text>,
                         statuses: map<Text, seq<StatusEntry>>,
                         evById: map<Text, Evidence>, evByContent: map<Text, Text>,
                         checkpoints: map<Text, seq<Checkpoint>>)

  /** What the service runs with: the hashes, and how a date text is read (None where it is not a date). */
  datatype Env = Env(h: Hasher, parseDate: Text -> Option<int>)

  function Empty(): State {
    State(map[], map[], map[], map[], map[], map[], map[], map[])
  }

  function StoredLeaves(s: State, logId: Text): seq<string> {
    if logId in s.leaves then s.leaves[logId] else []
  }

  /** The source throws on an odd number of digits; StoredLeavesDecode shows it never comes to that. */
  function DecodeLeaf(hex: string): Bytes {
    match FromHex(hex)
    case Some(b) => b
    case None => []
  }

  function DecodeAll(hexes: seq<string>): (leaves: seq<Bytes>)
    ensures |leaves| == |hexes|
  {
    seq(|hexes|, (i: nat) requires i < |hexes| => DecodeLeaf(hexes[i]))
  }

  /** The tree of a log: the cached one, or one built from the leaf table. */
  function Tree(s: State, logId: Text): seq<Bytes> {
    if logId in s.logs then s.logs[logId] else DecodeAll(StoredLeaves(s, logId))
  }

  /** Looking a log up caches its tree. */
  function GetLog(s: State, logId: Text): State {
    s.(logs := s.logs[logId := Tree(s, logId)])
  }

  function SthOf(env: Env, s: State, logId: Text): Sth {
    Sth(logId, |Tree(s, logId)|, Mth(env.h, Tree(s, logId)))
  }

  /** Appends to the cached tree and, separately, to the leaf table. Anchoring comes after. */
  function Append(s: State, logId: Text, leaf: Bytes): State {
    s.(logs := s.logs[logId := Tree(s, logId) + [leaf]],
       leaves := s.leaves[logId := StoredLeaves(s, logId) + [ToHex(leaf)]])
  }

  // ---------- texts ----------

  function LowerUnit(u: Unit): Unit {
    if 65 <= u <= 90 then u + 32 else u
  }

  /** toLowerCase on the ASCII letters of a hexadecimal hash. */
  function Lower(s: Text): (t: Text)
    ensures |t| == |s|
  {
    seq(|s|, (i: nat) requires i < |s| => LowerUnit(s[i]))
  }

  function ContentKey(tenant: Text, hash: Text): Text {
    tenant + Ascii("|") + Lower(hash)
  }

  const TENANT_PREFIX: Text := Ascii("did:hara:tenant:")

  function TenantLogId(tenantDid: Text): Text {
    Ascii("tenant:") + (if TENANT_PREFIX <= tenantDid then tenantDid[|TENANT_PREFIX|..] else tenantDid)
  }

  function StatusText(s: Status): Text {
    match s
    case Active => Ascii("active")
    case Superseded => Ascii("superseded")
    case Revoked => Ascii("revoked")
  }

  function BoolText(b: bool): Text {
    if b then Ascii("true") else Ascii("false")
  }

  function OrEmpty(s: Option<Text>): Text {
    match s
    case Some(t) => t
    case None => []
  }

  // ---------- leaf encodings ----------

  function AttestationFields(registryId: Text, contentHash: Text, subject: Text, issuer: Text,
                             recordType: Text): seq<Text> {
    [Ascii("att"), registryId, Lower(contentHash), subject, issuer, recordType]
  }

  function StatusFields(registryId: Text, status: Status, since: Text, actor: Text,
                        supersededBy: Option<Text>): seq<Text> {
    [Ascii("status"), registryId, StatusText(status), since, actor, OrEmpty(supersededBy)]
  }

  function EvidenceFields(evidenceId: Text, contentHash: Text, until: Text, basis: Text,
                          legalHold: bool): seq<Text> {
    [Ascii("evidence"), evidenceId, Lower(contentHash), until, basis, BoolText(legalHold)]
  }

  function DeleteAttemptFields(evidenceId: Text, at: Text, actor: Text): seq<Text> {
    [Ascii("evidence-delete-refused"), evidenceId, at, actor]
  }

  function LeafOf(fields: seq<Text>): Bytes
    requires fields != []
  {
    Utf8(JoinLines(fields))
  }

  function AttestationLeaf(a: Attestation): Bytes {
    LeafOf(AttestationFields(a.registryId, a.contentHash, a.subject, a.issuer, a.recordType))
  }

  function StatusLeaf(e: StatusEntry): Bytes {
    LeafOf(StatusFields(e.registryId, e.status, e.since, e.actor, e.supersededBy))
  }

  function EvidenceLeaf(e: Evidence): Bytes {
    LeafOf(EvidenceFields(e.evidenceId, e.contentHash, e.until, e.basis, e.legalHold))
  }

  // ---------- retention ----------

  /** `until` lies after `now`. A text that is no date compares false. */
  predicate InFuture(env: Env, until: Text, now: int) {
    match env.parseDate(until)
    case Some(t) => t > now
    case None => false
  }

  predicate Deletable(env: Env, e: Evidence, now: int) {
    !InFuture(env, e.until, now) && !e.legalHold
  }

  // ---------- operations ----------

  /** The new state, the reply, and the heads handed to the anchor service, in order, whether it answered or
      not: each of them may be signed and on the chain. */
  datatype Outcome = Outcome(state: State, reply: Reply, handed: seq<Sth>)

  /** The proof of one leaf in the current tree with the current head. */
  function InclusionFor(env: Env, s: State, logId: Text, leafIndex: nat, size: nat): Option<InclusionProof> {
    var tree := Tree(s, logId);
    if leafIndex < size <= |tree| then Some(InclusionProof(leafIndex, size, Path(env.h, leafIndex, tree[..size])))
    else None
  }

  /** buildAttestationDto */
  function AttestationDto(env: Env, s: State, a: Attestation, already: bool, anchorUp: bool): Outcome {
    var t := GetLog(s, a.logId);
    match InclusionFor(env, t, a.logId, a.leafIndex, |Tree(t, a.logId)|)
    case None => Outcome(t, Failed(OutOfRange), [])
    case Some(p) =>
      var sth := SthOf(env, t, a.logId);
      if !anchorUp then Outcome(t, Failed(ChainUnavailable), [sth])
      else Outcome(t, AttestationReply(a.registryId, a.status, a.logId, a.leafIndex, a.leafHash, p, sth, already),
                   [sth])
  }

  function AnchorAttestation(env: Env, s: State, req: AttestationRequest, tenant: Text, registryId: Text,
                             at: Text, anchorUp: bool): Outcome {
    var contentHash := Lower(req.contentHash);
    var key := ContentKey(tenant, contentHash);
    if key in s.attByContent && s.attByContent[key] in s.attById then
      AttestationDto(env, s, s.attById[s.attByContent[key]], true, anchorUp)
    else
      var logId := TenantLogId(tenant);
      var leaf := LeafOf(AttestationFields(registryId, contentHash, req.subject, req.issuer, req.recordType));
      var t := Append(s, logId, leaf);
      var sth := SthOf(env, t, logId);
      if !anchorUp then Outcome(t, Failed(ChainUnavailable), [sth])
      else
        var index, leafHash := |Tree(t, logId)| - 1, env.h.leaf(leaf);
        var a := Attestation(registryId, req.subject, req.issuer, req.recordType, contentHash, Active, tenant, logId,
                             index, leafHash, req.passport, at);
        var entry := StatusEntry(registryId, Active, at, None, req.issuer, logId, index, leafHash);
        var u := AppendStatus(PutAttestation(t, a), entry);
        Outcome(u, AttestationReply(registryId, Active, logId, index, leafHash,
                                    InclusionProof(index, |Tree(u, logId)|, Path(env.h, index, Tree(u, logId))),
                                    sth, false),
                [sth])
  }

  function PutAttestation(s: State, a: Attestation): State {
    s.(attById := s.attById[a.registryId := a],
       attByContent := s.attByContent[ContentKey(a.tenant, a.contentHash) := a.registryId])
  }

  function History(s: State, registryId: Text): seq<StatusEntry> {
    if registryId in s.statuses then s.statuses[registryId] else []
  }

  function AppendStatus(s: State, e: StatusEntry): State {
    s.(statuses := s.statuses[e.registryId := History(s, e.registryId) + [e]])
  }

  function GetAttestation(env: Env, s: State, registryId: Text, anchorUp: bool): Outcome {
    if registryId !in s.attById then Outcome(s, Failed(NotFound), [])
    else AttestationDto(env, s, s.attById[registryId], false, anchorUp)
  }

  function GetInclusion(env: Env, s: State, registryId: Text, treeSize: Option<int>, anchorUp: bool): Outcome {
    if registryId !in s.attById then Outcome(s, Failed(NotFound), [])
    else
      var a := s.attById[registryId];
      var t := GetLog(s, a.logId);
      var tree := Tree(t, a.logId);
      var size := match treeSize { case Some(n) => n case None => |tree| };
      if size < 1 || size > |tree| || a.leafIndex >= size then Outcome(t, Failed(ProofUnavailable), [])
      else
        var sth := Sth(a.logId, size, Mth(env.h, tree[..size]));
        if !anchorUp then Outcome(t, Failed(ChainUnavailable), [sth])
        else Outcome(t, InclusionReply(registryId,
                                       InclusionProof(a.leafIndex, size, Path(env.h, a.leafIndex, tree[..size])), sth),
                     [sth])
  }

  function GetStatusRecord(env: Env, s: State, registryId: Text, anchorUp: bool): Outcome {
    if registryId !in s.attById then Outcome(s, Failed(NotFound), [])
    else
      var a, history := s.attById[registryId], History(s, registryId);
      var t := GetLog(s, a.logId);
      var latest := if history == [] then None else Some(history[|history| - 1]);
      var index := match latest { case Some(e) => e.leafIndex case None => a.leafIndex };
      var since := match latest { case Some(e) => e.since case None => a.anchoredAt };
      var next := match latest { case Some(e) => e.supersededBy case None => None };
      var actor := match latest { case Some(e) => e.actor case None => a.issuer };
      match InclusionFor(env, t, a.logId, index, |Tree(t, a.logId)|)
      case None => Outcome(t, Failed(OutOfRange), [])
      case Some(p) =>
        var sth := SthOf(env, t, a.logId);
        if !anchorUp then Outcome(t, Failed(ChainUnavailable), [sth])
        else Outcome(t, StatusReply(registryId, a.status, since, next, actor, p, sth), [sth])
  }

  /** What setStatus does after its checks. */
  function ChangedStatus(env: Env, s: State, registryId: Text, status: Status, supersededBy: Option<Text>,
                         actorTenant: Text, since: Text, anchorUp: bool): Outcome
    requires registryId in s.attById
  {
    var a := s.attById[registryId];
    var leaf := LeafOf(StatusFields(registryId, status, since, actorTenant, supersededBy));
    var t := Append(s, a.logId, leaf);
    var sth := SthOf(env, t, a.logId);
    if !anchorUp then Outcome(t, Failed(ChainUnavailable), [sth])
    else
      var index := |Tree(t, a.logId)| - 1;
      var entry := StatusEntry(registryId, status, since, supersededBy, actorTenant, a.logId, index, env.h.leaf(leaf));
      var u := AppendStatus(t, entry).(attById := t.attById[registryId := a.(status := status)]);
      Outcome(u, StatusReply(registryId, status, since, supersededBy, actorTenant,
                             InclusionProof(index, |Tree(u, a.logId)|, Path(env.h, index, Tree(u, a.logId))), sth),
              [sth])
  }

  function SetStatus(env: Env, s: State, registryId: Text, action: Action, supersededBy: Option<Text>,
                     actorTenant: Text, since: Text, anchorUp: bool): Outcome {
    if registryId !in s.attById then Outcome(s, Failed(NotFound), [])
    else
      var a := s.attById[registryId];
      if a.tenant != actorTenant then Outcome(s, Failed(ForbiddenTenant), [])
      else if a.status == Revoked then Outcome(s, Failed(StatusConflict), [])
      else
        ChangedStatus(env, s, registryId, if action == Revoke then Revoked else Superseded, supersededBy, actorTenant,
                      since, anchorUp)
  }

  // ---------- checkpoints and consistency ----------

  /** submitCheckpoint: the head is the client's, and nothing is asked of its log or its root. */
  function SubmitCheckpoint(s: State, head: Sth, checkpointId: Text, anchorUp: bool): Outcome {
    if !anchorUp then Outcome(s, Failed(ChainUnavailable), [head])
    else Outcome(PutCheckpoint(s, Checkpoint(checkpointId, head)), CheckpointReply(checkpointId, head), [head])
  }

  function CheckpointsOf(s: State, logId: Text): seq<Checkpoint> {
    if logId in s.checkpoints then s.checkpoints[logId] else []
  }

  function PutCheckpoint(s: State, c: Checkpoint): State {
    s.(checkpoints := s.checkpoints[c.head.logId := CheckpointsOf(s, c.head.logId) + [c]])
  }

  /** `answers` is the number of calls the anchor service answers before one that it does not. */
  function GetConsistency(env: Env, s: State, logId: Text, first: int, second: int, answers: nat): Outcome {
    if StoredLeaves(s, logId) == [] then Outcome(s, Failed(ProofUnavailable), [])
    else
      var t := GetLog(s, logId);
      var tree := Tree(t, logId);
      if first < 1 || second > |tree| || first > second then Outcome(t, Failed(ProofUnavailable), [])
      else
        var a := Sth(logId, first, Mth(env.h, tree[..first]));
        var b := Sth(logId, second, Mth(env.h, tree[..second]));
        if answers == 0 then Outcome(t, Failed(ChainUnavailable), [a])
        else if answers == 1 then Outcome(t, Failed(ChainUnavailable), [a, b])
        else Outcome(t, ConsistencyReply(logId, a, b, ConsistencyProofs.Proof(env.h, first, tree[..second])), [a, b])
  }

  // ---------- evidence ----------

  function EntryOf(env: Env, s: State, e: Evidence, now: int): EvidenceEntry {
    EvidenceEntry(e.evidenceId, e.contentHash, e.until, e.legalHold, Deletable(env, e, now), SthOf(env, s, e.logId))
  }

  /** buildEvidenceDto */
  function EvidenceDto(env: Env, s: State, e: Evidence, already: bool, now: int, anchorUp: bool): Outcome {
    var t := GetLog(s, e.logId);
    var entry := EntryOf(env, t, e, now);
    if !anchorUp then Outcome(t, Failed(ChainUnavailable), [entry.sth])
    else Outcome(t, EvidenceReply(entry, already), [entry.sth])
  }

  function PutEvidence(s: State, e: Evidence): State {
    s.(evById := s.evById[e.evidenceId := e],
       evByContent := s.evByContent[ContentKey(e.tenant, e.contentHash) := e.evidenceId])
  }

  function RegisterEvidence(env: Env, s: State, req: EvidenceRequest, tenant: Text, evidenceId: Text, now: int,
                            anchorUp: bool): Outcome {
    var contentHash := Lower(req.contentHash);
    var key := ContentKey(tenant, contentHash);
    if key in s.evByContent && s.evByContent[key] in s.evById then
      EvidenceDto(env, s, s.evById[s.evByContent[key]], true, now, anchorUp)
    else
      var logId := TenantLogId(tenant);
      var legalHold := match req.legalHold { case Some(b) => b case None => false };
      var leaf := LeafOf(EvidenceFields(evidenceId, contentHash, req.until, req.basis, legalHold));
      var t := Append(s, logId, leaf);
      if !anchorUp then Outcome(t, Failed(ChainUnavailable), [SthOf(env, t, logId)])
      else
        var e := Evidence(evidenceId, contentHash, req.until, req.basis, legalHold, tenant, logId,
                          |Tree(t, logId)| - 1, req.subject, req.passport, false);
        Outcome(PutEvidence(t, e), EvidenceReply(EntryOf(env, t, e, now), false), [SthOf(env, t, logId)])
  }

  function GetEvidence(env: Env, s: State, evidenceId: Text, now: int, anchorUp: bool): Outcome {
    if evidenceId !in s.evById || s.evById[evidenceId].deleted then Outcome(s, Failed(NotFound), [])
    else EvidenceDto(env, s, s.evById[evidenceId], false, now, anchorUp)
  }

  /** Extending comes first; a hold is set or lifted only when the extension was not refused. */
  function UpdateRetention(env: Env, s: State, evidenceId: Text, legalHold: Option<bool>, extendUntil: Option<Text>,
                           tenant: Text, now: int, anchorUp: bool): Outcome {
    if evidenceId !in s.evById || s.evById[evidenceId].deleted then Outcome(s, Failed(NotFound), [])
    else if s.evById[evidenceId].tenant != tenant then Outcome(s, Failed(ForbiddenTenant), [])
    else
      var e := s.evById[evidenceId];
      match ExtendedUntil(env, e.until, extendUntil)
      case Refused(error) => Outcome(s, Failed(error), [])
      case NewUntil(until) =>
        var hold := match legalHold { case Some(b) => b case None => e.legalHold };
        var e' := e.(until := until, legalHold := hold);
        EvidenceDto(env, PutEvidence(s, e'), e', false, now, anchorUp)
  }

  datatype Extension = Refused(error: Error) | NewUntil(until: Text)

  function ExtendedUntil(env: Env, until: Text, extendUntil: Option<Text>): Extension {
    match extendUntil
    case None => NewUntil(until)
    case Some(text) =>
      match env.parseDate(text)
      case None => Refused(InvalidRequest)
      case Some(next) =>
        match env.parseDate(until)
        case Some(current) => if next < current then Refused(StatusConflict) else NewUntil(text)
        case None => NewUntil(text)
  }

  function DeleteEvidence(env: Env, s: State, evidenceId: Text, tenant: Text, now: int, at: Text,
                          anchorUp: bool): Outcome {
    if evidenceId !in s.evById || s.evById[evidenceId].deleted then Outcome(s, Failed(NotFound), [])
    else if s.evById[evidenceId].tenant != tenant then Outcome(s, Failed(ForbiddenTenant), [])
    else
      var e := s.evById[evidenceId];
      if InFuture(env, e.until, now) || e.legalHold then
        var t := Append(s, e.logId, LeafOf(DeleteAttemptFields(evidenceId, at, tenant)));
        Outcome(t, Failed(if anchorUp then RetentionLocked else ChainUnavailable), [SthOf(env, t, e.logId)])
      else
        Outcome(PutEvidence(s, e.(deleted := true)), Deleted, [])
  }

  // ---------- the public bundle ----------

  predicate AttestationMatches(a: Attestation, subject: Text) {
    a.subject == subject || a.passport == Some(subject)
  }

  predicate EvidenceMatches(e: Evidence, subject: Text) {
    !e.deleted && (e.subject == Some(subject) || e.passport == Some(subject))
  }

  /** A part of the bundle, the heads handed out for it, and the error that stopped it, if one did. */
  datatype Gathered<+E> = Gathered(state: State, entries: seq<E>, handed: seq<Sth>, error: Option<Error>)

  function BundleHeads(entries: seq<BundleEntry>): seq<Sth> {
    seq(|entries|, (i: nat) requires i < |entries| => entries[i].sth)
  }

  function EvidenceHeads(entries: seq<EvidenceEntry>): seq<Sth> {
    seq(|entries|, (i: nat) requires i < |entries| => entries[i].sth)
  }

  function GatherAttestations(env: Env, s: State, ids: seq<Text>, answers: nat, sofar: seq<BundleEntry>)
    : Gathered<BundleEntry>
    decreases |ids|
  {
    if ids == [] || ids[0] !in s.attById then Gathered(s, sofar, BundleHeads(sofar), None)
    else
      var a := s.attById[ids[0]];
      var t := GetLog(s, a.logId);
      match InclusionFor(env, t, a.logId, a.leafIndex, |Tree(t, a.logId)|)
      case None => Gathered(t, sofar, BundleHeads(sofar), Some(OutOfRange))
      case Some(p) =>
        var sth := SthOf(env, t, a.logId);
        if answers == 0 then Gathered(t, sofar, BundleHeads(sofar) + [sth], Some(ChainUnavailable))
        else GatherAttestations(env, t, ids[1..], answers - 1,
                                sofar + [BundleEntry(a.registryId, a.status, p, sth)])
  }

  function GatherEvidence(env: Env, s: State, ids: seq<Text>, now: int, answers: nat, sofar: seq<EvidenceEntry>)
    : Gathered<EvidenceEntry>
    decreases |ids|
  {
    if ids == [] || ids[0] !in s.evById then Gathered(s, sofar, EvidenceHeads(sofar), None)
    else
      var e := s.evById[ids[0]];
      var t := GetLog(s, e.logId);
      var entry := EntryOf(env, t, e, now);
      if answers == 0 then Gathered(t, sofar, EvidenceHeads(sofar) + [entry.sth], Some(ChainUnavailable))
      else GatherEvidence(env, t, ids[1..], now, answers - 1, sofar + [entry])
  }

  /** The logs of the attestations in the bundle, each once. */
  function BundleLogs(entries: seq<BundleEntry>): seq<Text> {
    if entries == [] then []
    else
      var logs, l := BundleLogs(entries[..|entries| - 1]), entries[|entries| - 1].sth.logId;
      if l in logs then logs else logs + [l]
  }

  /** The latest checkpoint of each log that has one. */
  function LatestCheckpoints(s: State, logs: seq<Text>): seq<Sth> {
    if logs == [] then []
    else
      var front, list := LatestCheckpoints(s, logs[..|logs| - 1]), CheckpointsOf(s, logs[|logs| - 1]);
      if list == [] then front else front + [list[|list| - 1].head]
  }

  function Minus(a: nat, b: nat): nat {
    if a < b then 0 else a - b
  }

  /** `atts` and `evs` are the ids of the matching records, in the order of the store's maps. */
  function VerifyBundle(env: Env, s: State, atts: seq<Text>, evs: seq<Text>, now: int, answers: nat): Outcome {
    var g := GatherAttestations(env, s, atts, answers, []);
    if g.error.Some? then Outcome(g.state, Failed(g.error.value), g.handed)
    else
      var f := GatherEvidence(env, g.state, evs, now, Minus(answers, |g.entries|), []);
      var handed := g.handed + f.handed;
      if f.error.Some? then Outcome(f.state, Failed(f.error.value), handed)
      else Outcome(f.state, BundleReply(g.entries, LatestCheckpoints(s, BundleLogs(g.entries)), f.entries), handed)
  }

  predicate NoRepeats<T(==)>(ids: seq<T>) {
    forall i, j | 0 <= i < j < |ids| :: ids[i] != ids[j]
  }

  /** The lists name exactly the records that match, each once. */
  ghost predicate Lists(s: State, subject: Text, atts: seq<Text>, evs: seq<Text>) {
    && NoRepeats(atts) && (forall id :: id in atts <==> id in s.attById && AttestationMatches(s.attById[id], subject))
    && NoRepeats(evs) && (forall id :: id in evs <==> id in s.evById && EvidenceMatches(s.evById[id], subject))
  }

  // ---------- all operations as one step ----------

  /** `anchorUp` tells whether the anchor service answers, `answers` how often it does; `now`, `at` and `since`
      are the clock, and the ids are the random ones the service draws. `Restart` is a new service over the
      same store. */
  datatype Op =
    | DoAnchorAttestation(req: AttestationRequest, tenant: Text, registryId: Text, at: Text, anchorUp: bool)
    | DoGetAttestation(registryId: Text, anchorUp: bool)
    | DoGetInclusion(registryId: Text, treeSize: Option<int>, anchorUp: bool)
    | DoGetStatusRecord(registryId: Text, anchorUp: bool)
    | DoSetStatus(registryId: Text, action: Action, supersededBy: Option<Text>, tenant: Text, since: Text,
                  anchorUp: bool)
    | DoSubmitCheckpoint(head: Sth, checkpointId: Text, anchorUp: bool)
    | DoGetConsistency(logId: Text, first: int, second: int, answers: nat)
    | DoRegisterEvidence(evidence: EvidenceRequest, tenant: Text, evidenceId: Text, now: int, anchorUp: bool)
    | DoGetEvidence(evidenceId: Text, now: int, anchorUp: bool)
    | DoUpdateRetention(evidenceId: Text, legalHold: Option<bool>, extendUntil: Option<Text>, tenant: Text,
                        now: int, anchorUp: bool)
    | DoDeleteEvidence(evidenceId: Text, tenant: Text, now: int, at: Text, anchorUp: bool)
    | DoVerifyBundle(subject: Text, atts: seq<Text>, evs: seq<Text>, now: int, answers: nat)
    | Restart

  function Step(env: Env, s: State, op: Op): Outcome {
    match op
    case DoAnchorAttestation(req, tenant, id, at, up) => AnchorAttestation(env, s, req, tenant, id, at, up)
    case DoGetAttestation(id, up) => GetAttestation(env, s, id, up)
    case DoGetInclusion(id, size, up) => GetInclusion(env, s, id, size, up)
    case DoGetStatusRecord(id, up) => GetStatusRecord(env, s, id, up)
    case DoSetStatus(id, action, next, tenant, since, up) => SetStatus(env, s, id, action, next, tenant, since, up)
    case DoSubmitCheckpoint(head, id, up) => SubmitCheckpoint(s, head, id, up)
    case DoGetConsistency(logId, first, second, answers) => GetConsistency(env, s, logId, first, second, answers)
    case DoRegisterEvidence(req, tenant, id, now, up) => RegisterEvidence(env, s, req, tenant, id, now, up)
    case DoGetEvidence(id, now, up) => GetEvidence(env, s, id, now, up)
    case DoUpdateRetention(id, hold, extend, tenant, now, up) =>
      UpdateRetention(env, s, id, hold, extend, tenant, now, up)
    case DoDeleteEvidence(id, tenant, now, at, up) => DeleteEvidence(env, s, id, tenant, now, at, up)
    case DoVerifyBundle(_, atts, evs, now, answers) => VerifyBundle(env, s, atts, evs, now, answers)
    case Restart => Outcome(s.(logs := map[]), Restarted, [])
  }

  /** The random ids of new records are new, and a bundle is made of the records that match. */
  ghost predicate Possible(s: State, op: Op) {
    match op
    case DoAnchorAttestation(_, _, id, _, _) => id !in s.attById && id !in s.statuses
    case DoRegisterEvidence(_, _, id, _, _) => id !in s.evById
    case DoVerifyBundle(subject, atts, evs, _, _) => Lists(s, subject, atts, evs)
    case _ => true
  }
}
