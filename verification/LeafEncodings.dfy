/** The four kinds of ledger leaves can be told apart and read back, on fields without newlines and up to
    lone surrogates. */
module LeafEncodings {
  import opened Hashing
  import opened Texts
  import opened LedgerModel

  /** The texts differ in nothing but lone surrogates, which UTF-8 cannot express. */
  predicate SameText(s: Text, t: Text) {
    Repaired(s) == Repaired(t)
  }

  lemma SameTextOfWellFormed(s: Text, t: Text)
    requires WellFormed(s) && WellFormed(t)
    ensures SameText(s, t) <==> s == t
  {
    RepairedIsSame(s);
    RepairedIsSame(t);
  }

  lemma AsciiIsWellFormed(s: string)
    ensures WellFormed(Ascii(s)) && Repaired(Ascii(s)) == Ascii(s)
  {
    RepairedIsSame(Ascii(s));
  }

  ghost predicate SameFields(f: seq<Text>, g: seq<Text>) {
    |f| == |g| && forall i | 0 <= i < |f| :: SameText(f[i], g[i])
  }

  /** A leaf determines its fields, their number and with the first of them its kind, up to lone
      surrogates and no further. */
  lemma LeafDeterminesFields(f: seq<Text>, g: seq<Text>)
    requires f != [] && g != [] && NewlineFree(f) && NewlineFree(g)
    ensures LeafOf(f) == LeafOf(g) <==> SameFields(f, g)
  {
    hide Utf8, JoinLines, Repaired;
    JoinedBytesExact(f, g);
    if SameFields(f, g) {
      assert RepairedAll(f) == RepairedAll(g);
    } else if |f| == |g| {
      var i :| 0 <= i < |f| && !SameText(f[i], g[i]);
      assert RepairedAll(f)[i] != RepairedAll(g)[i];
    }
  }

  lemma AttestationLeafInjective(a: Attestation, b: Attestation)
    requires NewlineFree(AttestationFields(a.registryId, a.contentHash, a.subject, a.issuer, a.recordType))
    requires NewlineFree(AttestationFields(b.registryId, b.contentHash, b.subject, b.issuer, b.recordType))
    ensures AttestationLeaf(a) == AttestationLeaf(b)
       <==> && SameText(a.registryId, b.registryId) && SameText(Lower(a.contentHash), Lower(b.contentHash))
            && SameText(a.subject, b.subject) && SameText(a.issuer, b.issuer)
            && SameText(a.recordType, b.recordType)
  {
    hide LeafOf, Lower, NewlineFree, SameText;
    var f := AttestationFields(a.registryId, a.contentHash, a.subject, a.issuer, a.recordType);
    var g := AttestationFields(b.registryId, b.contentHash, b.subject, b.issuer, b.recordType);
    LeafDeterminesFields(f, g);
    SixFields(f, g);
    SameTag(f[0]);
  }

  lemma SixFields(f: seq<Text>, g: seq<Text>)
    requires |f| == 6 == |g|
    ensures SameFields(f, g)
       <==> && SameText(f[0], g[0]) && SameText(f[1], g[1]) && SameText(f[2], g[2]) && SameText(f[3], g[3])
            && SameText(f[4], g[4]) && SameText(f[5], g[5])
  {
    hide SameText;
  }

  lemma SameTag(t: Text)
    ensures SameText(t, t)
  {
  }

  lemma StatusTextInjective(a: Status, b: Status)
    ensures SameText(StatusText(a), StatusText(b)) <==> a == b
  {
    AsciiIsWellFormed("active");
    AsciiIsWellFormed("superseded");
    AsciiIsWellFormed("revoked");
    hide Repaired;
  }

  lemma BoolTextInjective(a: bool, b: bool)
    ensures SameText(BoolText(a), BoolText(b)) <==> a == b
  {
    AsciiIsWellFormed("true");
    AsciiIsWellFormed("false");
    hide Repaired;
  }

  /** A missing successor and an empty one are written alike; all else is determined. */
  lemma StatusLeafInjective(d: StatusEntry, e: StatusEntry)
    requires NewlineFree(StatusFields(d.registryId, d.status, d.since, d.actor, d.supersededBy))
    requires NewlineFree(StatusFields(e.registryId, e.status, e.since, e.actor, e.supersededBy))
    ensures StatusLeaf(d) == StatusLeaf(e)
       <==> && SameText(d.registryId, e.registryId) && d.status == e.status && SameText(d.since, e.since)
            && SameText(d.actor, e.actor) && SameText(OrEmpty(d.supersededBy), OrEmpty(e.supersededBy))
  {
    hide LeafOf, NewlineFree, StatusText, OrEmpty, SameText;
    var f := StatusFields(d.registryId, d.status, d.since, d.actor, d.supersededBy);
    var g := StatusFields(e.registryId, e.status, e.since, e.actor, e.supersededBy);
    LeafDeterminesFields(f, g);
    SixFields(f, g);
    SameTag(f[0]);
    StatusTextInjective(d.status, e.status);
  }

  lemma EmptySuccessorIsAmbiguous(e: StatusEntry)
    ensures StatusLeaf(e.(supersededBy := None)) == StatusLeaf(e.(supersededBy := Some([])))
  {
  }

  lemma EvidenceLeafInjective(d: Evidence, e: Evidence)
    requires NewlineFree(EvidenceFields(d.evidenceId, d.contentHash, d.until, d.basis, d.legalHold))
    requires NewlineFree(EvidenceFields(e.evidenceId, e.contentHash, e.until, e.basis, e.legalHold))
    ensures EvidenceLeaf(d) == EvidenceLeaf(e)
       <==> && SameText(d.evidenceId, e.evidenceId) && SameText(Lower(d.contentHash), Lower(e.contentHash))
            && SameText(d.until, e.until) && SameText(d.basis, e.basis) && d.legalHold == e.legalHold
  {
    hide LeafOf, Lower, NewlineFree, SameText, BoolText;
    var f := EvidenceFields(d.evidenceId, d.contentHash, d.until, d.basis, d.legalHold);
    var g := EvidenceFields(e.evidenceId, e.contentHash, e.until, e.basis, e.legalHold);
    LeafDeterminesFields(f, g);
    SixFields(f, g);
    SameTag(f[0]);
    BoolTextInjective(d.legalHold, e.legalHold);
  }

  lemma DeleteAttemptLeafInjective(id: Text, at: Text, actor: Text, id': Text, at': Text, actor': Text)
    requires NewlineFree(DeleteAttemptFields(id, at, actor)) && NewlineFree(DeleteAttemptFields(id', at', actor'))
    ensures LeafOf(DeleteAttemptFields(id, at, actor)) == LeafOf(DeleteAttemptFields(id', at', actor'))
       <==> SameText(id, id') && SameText(at, at') && SameText(actor, actor')
  {
    hide LeafOf, NewlineFree, SameText;
    var f, g := DeleteAttemptFields(id, at, actor), DeleteAttemptFields(id', at', actor');
    LeafDeterminesFields(f, g);
    SameTag(f[0]);
    assert f[1] == id && f[2] == at && f[3] == actor && g[1] == id' && g[2] == at' && g[3] == actor';
  }

  /** Leaves of different kinds differ. */
  lemma KindsAreDisjoint(a: Attestation, s: StatusEntry, e: Evidence, id: Text, at: Text, actor: Text)
    requires NewlineFree(AttestationFields(a.registryId, a.contentHash, a.subject, a.issuer, a.recordType))
    requires NewlineFree(StatusFields(s.registryId, s.status, s.since, s.actor, s.supersededBy))
    requires NewlineFree(EvidenceFields(e.evidenceId, e.contentHash, e.until, e.basis, e.legalHold))
    requires NewlineFree(DeleteAttemptFields(id, at, actor))
    ensures AttestationLeaf(a) != StatusLeaf(s) && AttestationLeaf(a) != EvidenceLeaf(e)
    ensures StatusLeaf(s) != EvidenceLeaf(e)
    ensures var d := LeafOf(DeleteAttemptFields(id, at, actor));
            AttestationLeaf(a) != d && StatusLeaf(s) != d && EvidenceLeaf(e) != d
  {
    hide LeafOf, NewlineFree, Lower, StatusText, BoolText, OrEmpty;
    var f := AttestationFields(a.registryId, a.contentHash, a.subject, a.issuer, a.recordType);
    var g := StatusFields(s.registryId, s.status, s.since, s.actor, s.supersededBy);
    var k := EvidenceFields(e.evidenceId, e.contentHash, e.until, e.basis, e.legalHold);
    var d := DeleteAttemptFields(id, at, actor);
    Different(f, "att", g, "status");
    Different(f, "att", k, "evidence");
    Different(g, "status", k, "evidence");
    Different(f, "att", d, "evidence-delete-refused");
    Different(g, "status", d, "evidence-delete-refused");
    Different(k, "evidence", d, "evidence-delete-refused");
  }

  lemma Different(f: seq<Text>, x: string, g: seq<Text>, y: string)
    requires f != [] && g != [] && NewlineFree(f) && NewlineFree(g)
    requires f[0] == Ascii(x) && g[0] == Ascii(y) && |x| != |y|
    ensures LeafOf(f) != LeafOf(g)
  {
    hide LeafOf, Repaired;
    LeafDeterminesFields(f, g);
    AsciiIsWellFormed(x);
    AsciiIsWellFormed(y);
  }

  /** Two subjects that differ in a lone surrogate have one leaf. */
  lemma LoneSurrogatesCollide(a: Attestation)
    ensures AttestationLeaf(a.(subject := [0xD800])) == AttestationLeaf(a.(subject := [REPLACEMENT]))
  {
    hide Lower, Utf8, Repaired;
    var f := AttestationFields(a.registryId, a.contentHash, [0xD800], a.issuer, a.recordType);
    var g := AttestationFields(a.registryId, a.contentHash, [REPLACEMENT], a.issuer, a.recordType);
    LoneSurrogateCollides();
    RepairedJoin(f);
    RepairedJoin(g);
    RepairedReplacement();
    assert RepairedAll(f) == RepairedAll(g);
    Utf8Exact(JoinLines(f), JoinLines(g));
  }

  lemma RepairedReplacement()
    ensures Repaired([REPLACEMENT]) == [REPLACEMENT]
  {
  }

  // ---------- the texts under the leaves ----------

  function Line(t: Text): Text {
    t + [10]
  }

  lemma JoinCons(a: Text, rest: seq<Text>)
    requires rest != []
    ensures JoinLines([a] + rest) == Line(a) + JoinLines(rest)
  {
    assert ([a] + rest)[1..] == rest;
    JoinUnfolds([a] + rest);
  }

  lemma JoinOfFour(a: Text, b: Text, c: Text, d: Text)
    ensures JoinLines([a, b, c, d]) == Line(a) + (Line(b) + (Line(c) + d))
  {
    hide Line;
    JoinCons(c, [d]);
    JoinCons(b, [c, d]);
    JoinCons(a, [b, c, d]);
    assert [c] + [d] == [c, d] && [b] + [c, d] == [b, c, d] && [a] + [b, c, d] == [a, b, c, d];
  }

  lemma JoinOfSix(a: Text, b: Text, c: Text, d: Text, e: Text, f: Text)
    ensures JoinLines([a, b, c, d, e, f]) == Line(a) + (Line(b) + (Line(c) + (Line(d) + (Line(e) + f))))
  {
    hide Line, JoinLines;
    JoinOfFour(c, d, e, f);
    JoinCons(b, [c, d, e, f]);
    JoinCons(a, [b, c, d, e, f]);
    assert [b] + [c, d, e, f] == [b, c, d, e, f] && [a] + [b, c, d, e, f] == [a, b, c, d, e, f];
  }

  /** What is hashed for an attestation: six lines, as an auditor writes them down. */
  lemma AttestationLeafText(a: Attestation)
    ensures AttestationLeaf(a) == Utf8(Line(Ascii("att")) + (Line(a.registryId) + (Line(Lower(a.contentHash))
                                       + (Line(a.subject) + (Line(a.issuer) + a.recordType)))))
  {
    hide Utf8, JoinLines, Lower, Line;
    JoinOfSix(Ascii("att"), a.registryId, Lower(a.contentHash), a.subject, a.issuer, a.recordType);
  }

  lemma StatusLeafText(e: StatusEntry)
    ensures StatusLeaf(e)
         == Utf8(Line(Ascii("status")) + (Line(e.registryId)
                 + (Line(Ascii(if e.status == Revoked then "revoked" else if e.status == Active then "active"
                               else "superseded"))
                 + (Line(e.since) + (Line(e.actor) + if e.supersededBy == None then [] else e.supersededBy.value)))))
  {
    hide Utf8, JoinLines, Line;
    JoinOfSix(Ascii("status"), e.registryId, StatusText(e.status), e.since, e.actor, OrEmpty(e.supersededBy));
  }

  lemma EvidenceLeafText(e: Evidence)
    ensures EvidenceLeaf(e)
         == Utf8(Line(Ascii("evidence")) + (Line(e.evidenceId) + (Line(Lower(e.contentHash)) + (Line(e.until)
                 + (Line(e.basis) + Ascii(if e.legalHold then "true" else "false"))))))
  {
    hide Utf8, JoinLines, Lower, Line;
    JoinOfSix(Ascii("evidence"), e.evidenceId, Lower(e.contentHash), e.until, e.basis, BoolText(e.legalHold));
  }

  lemma DeleteAttemptLeafText(id: Text, at: Text, actor: Text)
    ensures LeafOf(DeleteAttemptFields(id, at, actor))
         == Utf8(Line(Ascii("evidence-delete-refused")) + (Line(id) + (Line(at) + actor)))
  {
    hide Utf8, JoinLines, Line;
    JoinOfFour(Ascii("evidence-delete-refused"), id, at, actor);
  }
}
