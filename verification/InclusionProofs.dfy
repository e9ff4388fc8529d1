/** Inclusion proofs: what the tree emits is accepted, and nothing else is. */
module InclusionProofs {
  import opened Hashing
  import opened PowersOfTwo
  import opened MerkleTree
  import opened BitWalk
  import opened ProofFold

  /** The path has one entry for each side of the walk and folds to the root. */
  predicate FoldsToRoot(h: Hasher, leafHash: Hash, m: int, n: nat, path: seq<Hash>, root: Hash)
    requires n > 0
  {
    && |path| == |Sides(m, n - 1)|
    && Fold(h, Sides(m, n - 1), leafHash, path) == root
  }

  /** The verdict of section 2.1.3.2 of RFC 9162, without a tree. */
  predicate Accepted(h: Hasher, leafHash: Hash, m: int, n: int, path: seq<Hash>, root: Hash) {
    0 <= m < n && FoldsToRoot(h, leafHash, m, n, path, root)
  }

  lemma {:induction false} PathFolds(h: Hasher, m: nat, d: seq<Bytes>)
    requires m < |d|
    ensures |Path(h, m, d)| == |SplitSides(m, |d|)|
    ensures Fold(h, SplitSides(m, |d|), h.leaf(d[m]), Path(h, m, d)) == Mth(h, d)
    decreases |d|
  {
    hide SplitExp, Pow2, Fold;
    FoldNil(h, h.leaf(d[m]));
    if |d| > 1 {
      var k := Split(|d|);
      if m < k {
        PathFolds(h, m, d[..k]);
        FoldSnoc(h, SplitSides(m, k), Right, h.leaf(d[m]), Path(h, m, d[..k]), Mth(h, d[k..]));
      } else {
        PathFolds(h, m - k, d[k..]);
        FoldSnoc(h, SplitSides(m - k, |d| - k), Left, h.leaf(d[m]), Path(h, m - k, d[k..]), Mth(h, d[..k]));
      }
    }
  }

  /** Completeness: the audit path of leaf m is accepted against the root of its tree. */
  lemma Complete(h: Hasher, m: nat, d: seq<Bytes>)
    requires m < |d|
    ensures Accepted(h, h.leaf(d[m]), m, |d|, Path(h, m, d), Mth(h, d))
  {
    hide SplitExp, Pow2, Fold, FoldPairs, Sides, SplitSides, Path, Mth;
    SidesFollowSplit(m, |d|);
    PathFolds(h, m, d);
  }

  lemma {:induction false} FoldDetermined(h: Hasher, m: nat, d: seq<Bytes>, r: Hash, path: seq<Hash>)
    requires m < |d|
    requires |path| == |SplitSides(m, |d|)|
    requires Fold(h, SplitSides(m, |d|), r, path) == Mth(h, d)
    requires CollisionFree(h.node, FoldPairs(h, SplitSides(m, |d|), r, path), TreePairs(h, d))
    ensures r == h.leaf(d[m]) && path == Path(h, m, d)
    decreases |d|
  {
    hide SplitExp, Pow2, Fold, FoldPairs;
    FoldNil(h, r);
    if |d| > 1 {
      var k, front := Split(|d|), path[..|path| - 1];
      var l, q := Mth(h, d[..k]), Mth(h, d[k..]);
      if m < k {
        LastStepDetermined(h, SplitSides(m, k), Right, r, path, l, q, TreePairs(h, d));
        FoldDetermined(h, m, d[..k], r, front);
      } else {
        LastStepDetermined(h, SplitSides(m - k, |d| - k), Left, r, path, l, q, TreePairs(h, d));
        FoldDetermined(h, m - k, d[k..], r, front);
      }
    }
  }

  /** Soundness: a proof accepted against the root of d, at the size of d, is for the leaf hash of
      leaf m and is entry by entry the path the tree emits, unless the verifier hashed a pair that
      collides with a pair of the tree. */
  lemma Sound(h: Hasher, leafHash: Hash, m: int, path: seq<Hash>, d: seq<Bytes>)
    requires Accepted(h, leafHash, m, |d|, path, Mth(h, d))
    requires CollisionFree(h.node, FoldPairs(h, Sides(m, |d| - 1), leafHash, path), TreePairs(h, d))
    ensures 0 <= m < |d| && leafHash == h.leaf(d[m]) && path == Path(h, m, d)
  {
    hide SplitExp, Pow2, Fold, FoldPairs, Sides, SplitSides, Path, Mth;
    SidesFollowSplit(m, |d|);
    FoldDetermined(h, m, d, leafHash, path);
  }

  /** An audit path of a tree of n leaves has at most ceil(log2 n) entries. */
  lemma PathBounded(h: Hasher, m: nat, d: seq<Bytes>, t: nat)
    requires m < |d| <= Pow2(t)
    ensures |Path(h, m, d)| <= t
  {
    hide SplitExp, Pow2, Fold, Sides, SplitSides, Path;
    SidesFollowSplit(m, |d|);
    PathFolds(h, m, d);
    SidesBounded(m, |d| - 1, t);
  }
}
