/** The append-only log: one tree over a growing list of leaves. */
module TransparencyLog {
  import opened Hashing
  import opened Texts
  import opened PowersOfTwo
  import opened MerkleTree
  import InclusionProofs
  import ConsistencyProofs
  import LedgerVerifier
  import VerifierAgreement

  datatype Result<+T> = Ok(value: T) | RangeError

  datatype InclusionProof = InclusionProof(leafIndex: nat, treeSize: nat, auditPath: seq<Hash>)

  datatype ConsistencyProof = ConsistencyProof(firstSize: nat, secondSize: nat, path: seq<Hash>)

  /** Beyond this size the search for the split point does not end. */
  const MAX_SIZE: nat := 0x4000_0000

  class Log {
    const logId: Text
    const h: Hasher
    var leaves: seq<Bytes>

    constructor (logId: Text, h: Hasher, initialLeaves: seq<Bytes>)
      ensures this.logId == logId && this.h == h && leaves == initialLeaves
    {
      this.logId, this.h := logId, h;
      leaves := initialLeaves;
    }

    /** The new leaf gets the next index, and every earlier leaf keeps its own. */
    method Append(leaf: Bytes) returns (leafIndex: nat)
      modifies this
      ensures leaves == old(leaves) + [leaf]
      ensures leafIndex == |old(leaves)| && leaves[leafIndex] == leaf
    {
      leaves := leaves + [leaf];
      return |leaves| - 1;
    }

    function TreeSize(): nat
      reads this
    {
      |leaves|
    }

    function LeafHashAt(index: int): (r: Result<Hash>)
      reads this
      ensures r == if 0 <= index < |leaves| then Ok(h.leaf(leaves[index])) else RangeError
    {
      if index < 0 || index >= |leaves| then RangeError else Ok(h.leaf(leaves[index]))
    }

    /** MTH over the half-open range [start, end) of leaves. */
    function MthRange(start: nat, end: nat): Hash
      requires start <= end <= |leaves| <= MAX_SIZE
      reads this
      decreases end - start
    {
      var n := end - start;
      if n == 0 then h.empty
      else if n == 1 then h.leaf(leaves[start])
      else
        var k := Split(n);
        h.node(MthRange(start, start + k), MthRange(start + k, end))
    }

    lemma {:induction false} MthRangeIsMth(start: nat, end: nat)
      requires start <= end <= |leaves| <= MAX_SIZE
      ensures MthRange(start, end) == Mth(h, leaves[start..end])
      decreases end - start
    {
      hide Mth, SplitExp, Pow2;
      var n, d := end - start, leaves[start..end];
      MthSmall(h, d);
      if n > 1 {
        var k := Split(n);
        SplitRange(leaves, start, start + k, end);
        MthSplit(h, d);
        MthRangeIsMth(start, start + k);
        MthRangeIsMth(start + k, end);
      }
    }

    function CurrentRoot(): (r: Hash)
      requires |leaves| <= MAX_SIZE
      reads this
      ensures r == Mth(h, leaves)
    {
      assert leaves[0..|leaves|] == leaves;
      MthRangeIsMth(0, |leaves|);
      MthRange(0, |leaves|)
    }

    function RootAt(treeSize: int): (r: Result<Hash>)
      requires |leaves| <= MAX_SIZE
      reads this
      ensures r == if 0 <= treeSize <= |leaves| then Ok(Mth(h, leaves[..treeSize])) else RangeError
    {
      if treeSize < 0 || treeSize > |leaves| then RangeError
      else
        MthRangeIsMth(0, treeSize);
        Ok(MthRange(0, treeSize))
    }

    /** `m` is the absolute index of the leaf. */
    function PathRange(m: nat, start: nat, end: nat): seq<Hash>
      requires start <= m < end <= |leaves| <= MAX_SIZE
      reads this
      decreases end - start
    {
      var n := end - start;
      if n == 1 then []
      else
        var k := Split(n);
        if m - start < k then PathRange(m, start, start + k) + [MthRange(start + k, end)]
        else PathRange(m, start + k, end) + [MthRange(start, start + k)]
    }

    lemma {:induction false} PathRangeIsPath(m: nat, start: nat, end: nat)
      requires start <= m < end <= |leaves| <= MAX_SIZE
      ensures PathRange(m, start, end) == Path(h, m - start, leaves[start..end])
      decreases end - start
    {
      hide Mth, Path, MthRange, SplitExp, Pow2;
      var n, d := end - start, leaves[start..end];
      PathSplit(h, m - start, d);
      if n > 1 {
        var k := Split(n);
        SplitRange(leaves, start, start + k, end);
        MthRangeIsMth(start, start + k);
        MthRangeIsMth(start + k, end);
        if m - start < k {
          PathRangeIsPath(m, start, start + k);
        } else {
          PathRangeIsPath(m, start + k, end);
        }
      }
    }

    function InclusionProofFor(leafIndex: int, treeSize: int): (r: Result<InclusionProof>)
      requires |leaves| <= MAX_SIZE
      reads this
      ensures r == if 0 <= leafIndex < treeSize <= |leaves|
                   then Ok(InclusionProof(leafIndex, treeSize, Path(h, leafIndex, leaves[..treeSize])))
                   else RangeError
    {
      if treeSize < 0 || treeSize > |leaves| then RangeError
      else if leafIndex < 0 || leafIndex >= treeSize then RangeError
      else
        PathRangeIsPath(leafIndex, 0, treeSize);
        Ok(InclusionProof(leafIndex, treeSize, PathRange(leafIndex, 0, treeSize)))
    }

    /** `m` counts leaves from `start` on. */
    function SubproofRange(m: nat, start: nat, end: nat, b: bool): seq<Hash>
      requires start + m <= end <= |leaves| <= MAX_SIZE && m > 0
      reads this
      decreases end - start
    {
      var n := end - start;
      if m == n then
        if b then [] else [MthRange(start, end)]
      else
        var k := Split(n);
        if m <= k then SubproofRange(m, start, start + k, b) + [MthRange(start + k, end)]
        else SubproofRange(m - k, start + k, end, false) + [MthRange(start, start + k)]
    }

    lemma {:induction false} SubproofRangeIsSubproof(m: nat, start: nat, end: nat, b: bool)
      requires start + m <= end <= |leaves| <= MAX_SIZE && m > 0
      ensures SubproofRange(m, start, end, b) == Subproof(h, m, leaves[start..end], b)
      decreases end - start
    {
      hide Mth, Subproof, MthRange, SplitExp, Pow2;
      var n, d := end - start, leaves[start..end];
      SubproofSplit(h, m, d, b);
      MthRangeIsMth(start, end);
      if m < n {
        var k := Split(n);
        SplitRange(leaves, start, start + k, end);
        MthRangeIsMth(start, start + k);
        MthRangeIsMth(start + k, end);
        if m <= k {
          SubproofRangeIsSubproof(m, start, start + k, b);
        } else {
          SubproofRangeIsSubproof(m - k, start + k, end, false);
        }
      }
    }

    function ConsistencyProofFor(firstSize: int, secondSize: int): (r: Result<ConsistencyProof>)
      requires |leaves| <= MAX_SIZE
      reads this
      ensures r == if 0 <= firstSize <= secondSize <= |leaves|
                   then Ok(ConsistencyProof(firstSize, secondSize,
                                            ConsistencyProofs.Proof(h, firstSize, leaves[..secondSize])))
                   else RangeError
    {
      if firstSize < 0 || secondSize > |leaves| || firstSize > secondSize then RangeError
      else if firstSize == 0 || firstSize == secondSize then Ok(ConsistencyProof(firstSize, secondSize, []))
      else
        SubproofRangeIsSubproof(firstSize, 0, secondSize, true);
        Ok(ConsistencyProof(firstSize, secondSize, SubproofRange(firstSize, 0, secondSize, true)))
    }
  }

  lemma SplitRange(d: seq<Bytes>, start: nat, middle: nat, end: nat)
    requires start <= middle <= end <= |d|
    ensures d[start..end][..middle - start] == d[start..middle]
    ensures d[start..end][middle - start..] == d[middle..end]
  {
  }

  // ---------- what the log promises ----------

  /** Every inclusion proof the log emits, for any leaf and any past size, is accepted by both
      verifiers against the root the log gives for that size. */
  lemma InclusionProofsVerify(log: Log, leafIndex: nat, treeSize: nat)
    requires leafIndex < treeSize <= |log.leaves| <= MAX_SIZE
    ensures log.InclusionProofFor(leafIndex, treeSize).Ok?
    ensures var p := log.InclusionProofFor(leafIndex, treeSize).value;
            var leafHash, root := log.LeafHashAt(leafIndex).value, log.RootAt(treeSize).value;
            && InclusionProofs.Accepted(log.h, leafHash, p.leafIndex, p.treeSize, p.auditPath, root)
            && LedgerVerifier.InclusionAccepted(log.h, leafHash, p.leafIndex, p.treeSize, p.auditPath, root)
  {
    InclusionProofs.Complete(log.h, leafIndex, log.leaves[..treeSize]);
  }

  /** Every consistency proof the log emits between two past sizes is accepted by both verifiers. */
  lemma ConsistencyProofsVerify(log: Log, first: nat, second: nat)
    requires 0 < first <= second <= |log.leaves| <= MAX_SIZE
    ensures log.ConsistencyProofFor(first, second).Ok?
    ensures var p := log.ConsistencyProofFor(first, second).value;
            var r1, r2 := log.RootAt(first).value, log.RootAt(second).value;
            && ConsistencyProofs.Accepted(log.h, p.firstSize, r1, p.secondSize, r2, p.path)
            && LedgerVerifier.ConsistencyAccepted(log.h, p.firstSize, r1, p.secondSize, r2, p.path)
  {
    var d := log.leaves[..second];
    assert d[..first] == log.leaves[..first];
    BothAcceptProof(log.h, first, d);
  }

  lemma BothAcceptProof(h: Hasher, m: nat, d: seq<Bytes>)
    requires 0 < m <= |d|
    ensures ConsistencyProofs.Accepted(h, m, Mth(h, d[..m]), |d|, Mth(h, d), ConsistencyProofs.Proof(h, m, d))
    ensures LedgerVerifier.ConsistencyAccepted(h, m, Mth(h, d[..m]), |d|, Mth(h, d), ConsistencyProofs.Proof(h, m, d))
  {
    ConsistencyProofs.Complete(h, m, d);
    if m < |d| {
      SdkAcceptanceIsEnough(h, m, Mth(h, d[..m]), |d|, Mth(h, d), ConsistencyProofs.Proof(h, m, d));
    }
  }

  /** From size 1 on, whatever the SDK accepts the ledger's verifier accepts. */
  lemma SdkAcceptanceIsEnough(h: Hasher, m: nat, first: Hash, n: nat, second: Hash, path: seq<Hash>)
    requires m > 0 && ConsistencyProofs.Accepted(h, m, first, n, second, path)
    ensures LedgerVerifier.ConsistencyAccepted(h, m, first, n, second, path)
  {
    if m < n {
      VerifierAgreement.LedgerAcceptsTruncatedSizes(h, m, first, n, second, path);
    }
  }
}
