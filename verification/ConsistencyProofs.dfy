/** Consistency proofs: what the tree emits is accepted, and acceptance means the first root is the
    root of a prefix of the second tree's leaves. */
module ConsistencyProofs {
  import opened Hashing
  import opened PowersOfTwo
  import opened MerkleTree
  import opened BitWalk
  import opened ProofFold

  /** The hashes the walk runs over: the first root is put in front for a power of two. */
  function Nodes(m: nat, first: Hash, path: seq<Hash>): seq<Hash> {
    if IsPow2(m) then [first] + path else path
  }

  /** The verdict of section 2.1.4.2 of RFC 9162, as the SDK gives it. */
  predicate Accepted(h: Hasher, m: int, first: Hash, n: int, second: Hash, path: seq<Hash>) {
    if m < 0 || m > n then false
    else if m == n then path == [] && first == second
    else if m == 0 then false
    else
      FoldsTo(h, StrippedSides(m - 1, n - 1), Nodes(m, first, path), first, second)
  }

  /** PROOF(m, D[n]), with the empty proof for m = 0 and m = n. */
  function Proof(h: Hasher, m: nat, d: seq<Bytes>): seq<Hash>
    requires m <= |d|
  {
    if m == 0 || m == |d| then [] else Subproof(h, m, d, true)
  }

  /** The pairs the verifier hashes for the second root. */
  function VerifierPairs(h: Hasher, m: int, first: Hash, n: int, path: seq<Hash>): set<Pair> {
    if 0 < m < n && |Nodes(m, first, path)| == |StrippedSides(m - 1, n - 1)| + 1 then
      var nodes := Nodes(m, first, path);
      FoldPairs(h, StrippedSides(m - 1, n - 1), nodes[0], nodes[1..])
    else {}
  }

  // ---------- the emitted proof ----------

  lemma FirstTreeSplit(h: Hasher, m: nat, d: seq<Bytes>)
    requires 1 < |d| && Split(|d|) < m < |d|
    ensures Split(m) == Split(|d|)
    ensures var k := Split(|d|);
            Mth(h, d[..m]) == h.node(Mth(h, d[..k]), Mth(h, d[k..][..m - k]))
  {
    var k := Split(|d|);
    SplitUnique(m, SplitExp(|d|));
    assert d[..m][..k] == d[..k];
    assert d[..m][k..] == d[k..][..m - k];
  }

  lemma {:induction false} SubproofFolds(h: Hasher, m: nat, d: seq<Bytes>)
    requires 0 < m <= |d|
    ensures FoldsTo(h, SplitConsistencySides(m, |d|), Subproof(h, m, d, false), Mth(h, d[..m]), Mth(h, d))
    decreases |d|
  {
    hide SplitExp, Pow2, FoldsTo, Mth;
    if m == |d| {
      SingleNodeFolds(h, m, d);
      return;
    }
    var k := Split(|d|);
    if m <= k {
      SubproofFolds(h, m, d[..k]);
      assert d[..k][..m] == d[..m];
      FoldsToSnoc(h, SplitConsistencySides(m, k), Subproof(h, m, d[..k], false), Mth(h, d[..m]), Mth(h, d[..k]),
                  Right, Mth(h, d[k..]));
      MthSplit(h, d);
    } else {
      SubproofFolds(h, m - k, d[k..]);
      FoldsToSnoc(h, SplitConsistencySides(m - k, |d| - k), Subproof(h, m - k, d[k..], false),
                  Mth(h, d[k..][..m - k]), Mth(h, d[k..]), Left, Mth(h, d[..k]));
      FirstTreeSplit(h, m, d);
      MthSplit(h, d);
    }
  }

  lemma SingleNodeFolds(h: Hasher, m: nat, d: seq<Bytes>)
    requires 0 < m == |d|
    ensures FoldsTo(h, SplitConsistencySides(m, m), Subproof(h, m, d, false), Mth(h, d[..m]), Mth(h, d))
  {
    assert d[..m] == d;
  }

  /** The flag b only drops the leading first root, and drops it exactly for a power of two. */
  lemma {:induction false} SubproofFlag(h: Hasher, m: nat, d: seq<Bytes>)
    requires 0 < m <= |d|
    requires m == |d| ==> IsPow2(m)
    ensures Nodes(m, Mth(h, d[..m]), Subproof(h, m, d, true)) == Subproof(h, m, d, false)
    decreases |d|
  {
    if m == |d| {
      assert d[..m] == d;
    } else {
      var k := Split(|d|);
      if m <= k {
        SubproofFlag(h, m, d[..k]) by { Pow2IsPow2(SplitExp(|d|)); }
        assert d[..k][..m] == d[..m];
      } else if IsPow2(m) {
        SplitIsLargest(|d|, m);
        assert false;
      }
    }
  }

  /** Completeness: the consistency proof is accepted between the roots of both sizes. */
  lemma Complete(h: Hasher, m: nat, d: seq<Bytes>)
    requires 0 < m <= |d|
    ensures Accepted(h, m, Mth(h, d[..m]), |d|, Mth(h, d), Proof(h, m, d))
  {
    hide SplitExp, Pow2, FoldsTo, Subproof, Mth, StrippedSides, SplitConsistencySides;
    if m == |d| {
      assert d[..m] == d;
    } else {
      StrippedSidesFollowSplit(m, |d|);
      SubproofFlag(h, m, d);
      SubproofFolds(h, m, d);
    }
  }

  // ---------- soundness ----------

  lemma {:induction false} FoldDetermined(h: Hasher, m: nat, d: seq<Bytes>, r: Hash, path: seq<Hash>)
    requires 0 < m <= |d|
    requires |path| == |SplitConsistencySides(m, |d|)|
    requires Fold(h, SplitConsistencySides(m, |d|), r, path) == Mth(h, d)
    requires CollisionFree(h.node, FoldPairs(h, SplitConsistencySides(m, |d|), r, path), TreePairs(h, d))
    ensures [r] + path == Subproof(h, m, d, false)
    decreases |d|
  {
    hide SplitExp, Pow2, Fold, FoldPairs;
    FoldNil(h, r);
    if m < |d| {
      var k, front := Split(|d|), path[..|path| - 1];
      var l, q := Mth(h, d[..k]), Mth(h, d[k..]);
      if m <= k {
        LastStepDetermined(h, SplitConsistencySides(m, k), Right, r, path, l, q, TreePairs(h, d));
        FoldDetermined(h, m, d[..k], r, front);
        assert [r] + path == ([r] + front) + [q];
      } else {
        LastStepDetermined(h, SplitConsistencySides(m - k, |d| - k), Left, r, path, l, q, TreePairs(h, d));
        FoldDetermined(h, m - k, d[k..], r, front);
        assert [r] + path == ([r] + front) + [l];
      }
    }
  }

  /** Soundness: if a proof from size m is accepted and the second root is the root of d, then the
      first root is the root of the first m leaves of d and the path is the one the tree emits,
      unless the verifier hashed a pair that collides with a pair of the tree. */
  lemma Sound(h: Hasher, m: int, first: Hash, path: seq<Hash>, d: seq<Bytes>)
    requires Accepted(h, m, first, |d|, Mth(h, d), path)
    requires CollisionFree(h.node, VerifierPairs(h, m, first, |d|, path), TreePairs(h, d))
    ensures 0 <= m <= |d| && first == Mth(h, d[..m]) && path == Proof(h, m, d)
  {
    hide SplitExp, Pow2, Fold, FoldLeft, FoldPairs, Subproof, Mth, StrippedSides, SplitConsistencySides;
    if m == |d| {
      assert d[..m] == d;
    } else {
      var nodes := Nodes(m, first, path);
      StrippedSidesFollowSplit(m, |d|);
      FoldDetermined(h, m, d, nodes[0], nodes[1..]);
      assert nodes == [nodes[0]] + nodes[1..];
      SubproofFolds(h, m, d);
      SubproofFlag(h, m, d);
      if IsPow2(m) {
        assert path == nodes[1..];
        assert Subproof(h, m, d, true) == Nodes(m, first, Subproof(h, m, d, true))[1..];
      }
    }
  }

  /** A consistency proof has at most ceil(log2 n) + 1 entries. */
  lemma ProofBounded(h: Hasher, m: nat, d: seq<Bytes>, t: nat)
    requires m <= |d| <= Pow2(t)
    ensures |Proof(h, m, d)| <= t + 1
  {
    hide SplitExp, Pow2, Fold, FoldLeft, Subproof, Mth, StrippedSides, SplitConsistencySides;
    if 0 < m < |d| {
      StrippedSidesFollowSplit(m, |d|);
      SubproofFolds(h, m, d);
      SubproofFlag(h, m, d);
      StrippedSidesBounded(m - 1, |d| - 1, t);
    }
  }
}
