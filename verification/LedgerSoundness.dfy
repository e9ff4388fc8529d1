/** Which first roots the ledger's consistency verifier accepts for a real tree: a walk that stops
    short goes down the tree along the sides of a smaller one, and the root it accepts is the root
    of all leaves up to the node it arrives at. */
module LedgerSoundness {
  import opened Hashing
  import opened PowersOfTwo
  import opened MerkleTree
  import opened BitWalk
  import opened ProofFold
  import opened LedgerVerifier
  import opened VerifierAgreement
  import InclusionProofs
  import ConsistencyProofs

  // ---------- going down a tree along given sides ----------

  /** A tree of n leaves is deep enough for these sides, read from the last to the first. */
  predicate Descends(n: nat, s: seq<Side>)
    requires n > 0
    decreases |s|
  {
    var i := |s| - 1;
    i < 0 || (n > 1 && Descends(if s[i] == Right then Split(n) else n - Split(n), s[..i]))
  }

  /** The number of leaves up to the end of the node they lead to. */
  function Covered(n: nat, s: seq<Side>): (q: nat)
    requires n > 0 && Descends(n, s)
    ensures 0 < q <= n
    decreases |s|
  {
    var i := |s| - 1;
    if i < 0 then n
    else if s[i] == Right then Covered(Split(n), s[..i])
    else Split(n) + Covered(n - Split(n), s[..i])
  }

  /** The root of that node and the siblings on the way back up. */
  function Siblings(h: Hasher, d: seq<Bytes>, s: seq<Side>): (nodes: seq<Hash>)
    requires |d| > 0 && Descends(|d|, s)
    ensures |nodes| == |s| + 1
    decreases |s|
  {
    var i := |s| - 1;
    if i < 0 then [Mth(h, d)]
    else
      var k := Split(|d|);
      if s[i] == Right then Siblings(h, d[..k], s[..i]) + [Mth(h, d[k..])]
      else Siblings(h, d[k..], s[..i]) + [Mth(h, d[..k])]
  }

  /** No leaf hash of the tree is the node hash of one of these pairs. */
  ghost predicate LeavesApart(h: Hasher, pairs: set<Pair>, d: seq<Bytes>) {
    forall x, i | x in pairs && 0 <= i < |d| :: h.node(x.0, x.1) != h.leaf(d[i])
  }

  /** The prefixes keep leaves and nodes apart as long as SHA-256 has no collision among them. */
  lemma LeafIsNodeIsShaCollision(sha: Bytes -> Hash, pairs: set<Pair>, d: seq<Bytes>)
    requires forall x, i | x in pairs && 0 <= i < |d| ::
               sha(NodeInput(x)) == sha([0] + d[i]) ==> NodeInput(x) == [0] + d[i]
    ensures LeavesApart(Sha256Hasher(sha), pairs, d)
  {
    var h := Sha256Hasher(sha);
    forall x, i | x in pairs && 0 <= i < |d|
      ensures h.node(x.0, x.1) != h.leaf(d[i])
    {
      assert NodeInput(x)[0] == 1 && ([0] + d[i])[0] == 0;
    }
  }

  lemma OneMoreSide(n: nat, s: seq<Side>, side: Side)
    requires n > 1
    ensures var below := if side == Right then Split(n) else n - Split(n);
            && Descends(n, s + [side]) == Descends(below, s)
            && (Descends(below, s) ==>
                  Covered(n, s + [side]) == Covered(below, s) + (if side == Right then 0 else Split(n)))
  {
    assert (s + [side])[..|s|] == s;
  }

  lemma {:induction false} SiblingsFold(h: Hasher, d: seq<Bytes>, s: seq<Side>)
    requires |d| > 0 && Descends(|d|, s)
    ensures FoldsTo(h, s, Siblings(h, d, s), Mth(h, d[..Covered(|d|, s)]), Mth(h, d))
    decreases |s|
  {
    hide SplitExp, Pow2, FoldsTo, Mth;
    var i := |s| - 1;
    if i < 0 {
      NoSidesFold(h, d, s);
      return;
    }
    var k := Split(|d|);
    assert s == s[..i] + [s[i]];
    MthSplit(h, d);
    if s[i] == Right {
      var q := Covered(k, s[..i]);
      SiblingsFold(h, d[..k], s[..i]);
      assert d[..k][..q] == d[..q];
      FoldsToSnoc(h, s[..i], Siblings(h, d[..k], s[..i]), Mth(h, d[..q]), Mth(h, d[..k]), Right, Mth(h, d[k..]));
    } else {
      var q := Covered(|d| - k, s[..i]);
      SiblingsFold(h, d[k..], s[..i]);
      FoldsToSnoc(h, s[..i], Siblings(h, d[k..], s[..i]), Mth(h, d[k..][..q]), Mth(h, d[k..]), Left, Mth(h, d[..k]));
      PrefixSplit(h, d, k + q);
    }
  }

  lemma NoSidesFold(h: Hasher, d: seq<Bytes>, s: seq<Side>)
    requires |d| > 0 && s == []
    ensures FoldsTo(h, s, Siblings(h, d, s), Mth(h, d[..Covered(|d|, s)]), Mth(h, d))
  {
    assert d[..|d|] == d;
  }

  lemma PrefixSplit(h: Hasher, d: seq<Bytes>, q: nat)
    requires 1 < |d| && Split(|d|) < q <= |d|
    ensures var k := Split(|d|); Mth(h, d[..q]) == h.node(Mth(h, d[..k]), Mth(h, d[k..][..q - k]))
  {
    hide SplitExp, Pow2, Mth;
    if q == |d| {
      assert d[..q] == d && d[Split(|d|)..][..q - Split(|d|)] == d[Split(|d|)..];
      MthSplit(h, d);
    } else {
      ConsistencyProofs.FirstTreeSplit(h, q, d);
    }
  }

  /** Hashes that fold to the root of d along given sides are those on the way down: no other ones
      do, and a tree that is not deep enough has none. */
  lemma {:induction false} FoldGoesDown(h: Hasher, d: seq<Bytes>, s: seq<Side>, r: Hash, path: seq<Hash>)
    requires |d| > 0 && |path| == |s|
    requires Fold(h, s, r, path) == Mth(h, d)
    requires CollisionFree(h.node, FoldPairs(h, s, r, path), TreePairs(h, d))
    requires LeavesApart(h, FoldPairs(h, s, r, path), d)
    ensures Descends(|d|, s) && [r] + path == Siblings(h, d, s)
    decreases |s|
  {
    hide SplitExp, Pow2, Fold, FoldPairs, Mth;
    var i := |s| - 1;
    FoldNil(h, r);
    if i < 0 {
      return;
    }
    var k, front, c := if |d| > 1 then Split(|d|) else 0, path[..i], path[i];
    assert s == s[..i] + [s[i]] && path == front + [c];
    FoldSnoc(h, s[..i], s[i], r, front, c);
    LeafIsNotReached(h, d, s, r, path);
    var l, q := Mth(h, d[..k]), Mth(h, d[k..]);
    MthSplit(h, d);
    LastStepDetermined(h, s[..i], s[i], r, path, l, q, TreePairs(h, d));
    if s[i] == Right {
      FoldGoesDown(h, d[..k], s[..i], r, front);
    } else {
      FoldGoesDown(h, d[k..], s[..i], r, front);
    }
    assert [r] + path == ([r] + front) + [c];
  }

  lemma LeafIsNotReached(h: Hasher, d: seq<Bytes>, s: seq<Side>, r: Hash, path: seq<Hash>)
    requires |d| > 0 && |path| == |s| > 0
    requires Fold(h, s, r, path) == Mth(h, d) && LeavesApart(h, FoldPairs(h, s, r, path), d)
    ensures |d| > 1
  {
    var i := |s| - 1;
    var f := Fold(h, s[..i], r, path[..i]);
    var x := if s[i] == Left then (path[i], f) else (f, path[i]);
    assert x in FoldPairs(h, s, r, path);
    assert Fold(h, s, r, path) == h.node(x.0, x.1);
  }

  // ---------- the walk of a smaller tree in a larger one ----------

  /** The sides of the consistency proof from m to 2^t leaves. */
  function StopSides(m: nat, t: nat): seq<Side>
    requires 0 < m <= Pow2(t)
  {
    StrippedSides(m - 1, Pow2(t) - 1)
  }

  lemma StopSidesSplit(m: nat, t: nat)
    requires 0 < m <= Pow2(t)
    ensures m == Pow2(t) ==> StopSides(m, t) == []
    ensures m < Pow2(t) ==> t > 0
    ensures m < Pow2(t) && m <= Pow2(t - 1) ==> StopSides(m, t) == StopSides(m, t - 1) + [Right]
    ensures m < Pow2(t) && m > Pow2(t - 1) ==> StopSides(m, t) == StopSides(m - Pow2(t - 1), t - 1) + [Left]
  {
    hide Sides, StrippedSides, Shr;
    StrippedSidesOfFullTree(t);
    if m < Pow2(t) {
      var half := Pow2(t - 1);
      if m <= half {
        StrippedSidesInLeftSubtree(t - 1, m - 1, Pow2(t) - 1);
        TopLeft(t - 1, Pow2(t) - 1);
      } else {
        StrippedSidesInRightSubtree(t - 1, m - 1 - half, half - 1);
      }
    }
  }

  /** In a larger tree the same sides lead beyond leaf m. */
  lemma {:induction false} CoversMore(m: nat, n: nat, t: nat)
    requires 0 < m && StopsAt(m, n, t) && Descends(n, StopSides(m, t))
    ensures m < Covered(n, StopSides(m, t))
    decreases t
  {
    hide StrippedSides, Sides;
    StopSidesSplit(m, t);
    if m < Pow2(t) {
      Pow2IsPow2(t);
      SplitIsLargest(n, Pow2(t));
      if m <= Pow2(t - 1) {
        assert StopSides(m, t)[..|StopSides(m, t)| - 1] == StopSides(m, t - 1);
        CoversMore(m, Split(n), t - 1);
      }
    }
  }

  // ---------- the exact answer ----------

  /** No pair hashed for a second size n collides with the tree, neither with a node nor with a leaf. */
  ghost predicate NoCollisions(h: Hasher, m: nat, first: Hash, n: nat, path: seq<Hash>, d: seq<Bytes>) {
    var pairs := ConsistencyProofs.VerifierPairs(h, m, first, n, path);
    CollisionFree(h.node, pairs, TreePairs(h, d)) && LeavesApart(h, pairs, d)
  }

  /** The first root and path are those the ledger accepts when the walk stops at 2^t. */
  predicate PassesAtStop(h: Hasher, m: nat, first: Hash, path: seq<Hash>, d: seq<Bytes>, t: nat)
    requires 0 < m && StopsAt(m, |d|, t)
  {
    && Descends(|d|, StopSides(m, t))
    && first == Mth(h, d[..Covered(|d|, StopSides(m, t))])
    && ConsistencyProofs.Nodes(m, first, path) == Siblings(h, d, StopSides(m, t))
  }

  /** For the root of a tree d and a path that stops at 2^t, the ledger's verifier accepts exactly
      one first root and one path, if d is deep enough, and none if it is not. The root is the one of
      more than m leaves. */
  lemma AcceptedAtStop(h: Hasher, m: nat, first: Hash, path: seq<Hash>, d: seq<Bytes>, t: nat)
    requires 0 < m && StopsAt(m, |d|, t) && |path| == ProofLength(m, Pow2(t))
    requires NoCollisions(h, m, first, Pow2(t), path, d)
    ensures ConsistencyAccepted(h, m, first, |d|, Mth(h, d), path) <==> PassesAtStop(h, m, first, path, d, t)
    ensures Descends(|d|, StopSides(m, t)) ==> m < Covered(|d|, StopSides(m, t))
  {
    hide Fold, FoldLeft, FoldPairs, StrippedSides, Sides, Mth, TreePairs, Descends, Covered, Siblings, IsPow2;
    var s, nodes := StopSides(m, t), ConsistencyProofs.Nodes(m, first, path);
    NodesAtStop(m, first, path, t);
    AcceptedMeansFolds(h, m, first, path, d, t);
    if Descends(|d|, s) {
      CoversMore(m, |d|, t);
      SiblingsFold(h, d, s);
    }
    if FoldsTo(h, s, nodes, first, Mth(h, d)) {
      PairsAtStop(h, m, first, path, t);
      FoldGoesDown(h, d, s, nodes[0], nodes[1..]);
      assert nodes == [nodes[0]] + nodes[1..];
    }
  }

  lemma NodesAtStop(m: nat, first: Hash, path: seq<Hash>, t: nat)
    requires 0 < m <= Pow2(t) && |path| == ProofLength(m, Pow2(t))
    ensures |ConsistencyProofs.Nodes(m, first, path)| == |StopSides(m, t)| + 1
  {
    hide StrippedSides, Sides;
    StrippedSidesOfFullTree(t);
    Pow2IsPow2(t);
  }

  lemma PairsAtStop(h: Hasher, m: nat, first: Hash, path: seq<Hash>, t: nat)
    requires 0 < m <= Pow2(t) && |path| == ProofLength(m, Pow2(t))
    requires |ConsistencyProofs.Nodes(m, first, path)| == |StopSides(m, t)| + 1
    ensures var nodes := ConsistencyProofs.Nodes(m, first, path);
            FoldPairs(h, StopSides(m, t), nodes[0], nodes[1..])
            == ConsistencyProofs.VerifierPairs(h, m, first, Pow2(t), path)
  {
    hide StrippedSides, Sides, IsPow2;
    StrippedSidesOfFullTree(t);
  }

  lemma AcceptedMeansFolds(h: Hasher, m: nat, first: Hash, path: seq<Hash>, d: seq<Bytes>, t: nat)
    requires 0 < m && StopsAt(m, |d|, t)
    requires |ConsistencyProofs.Nodes(m, first, path)| == |StopSides(m, t)| + 1
    ensures ConsistencyAccepted(h, m, first, |d|, Mth(h, d), path)
       <==> FoldsTo(h, StopSides(m, t), ConsistencyProofs.Nodes(m, first, path), first, Mth(h, d))
  {
    hide Fold, FoldLeft, StrippedSides, Sides, Mth, IsPow2;
    RemainingSidesAreRight(m, |d|, t);
  }

  /** What the ledger's verifier accepts for the root of a tree d, all of it: the proof the tree emits
      for its first m leaves, and one path for every size 2^t at which the walk down d can stop. */
  lemma AcceptedForTree(h: Hasher, m: nat, first: Hash, path: seq<Hash>, d: seq<Bytes>)
    requires 0 < m < |d| && NoCollisions(h, m, first, |d|, path, d)
    requires forall t | StopsAt(m, |d|, t) :: NoCollisions(h, m, first, Pow2(t), path, d)
    ensures ConsistencyAccepted(h, m, first, |d|, Mth(h, d), path)
       <==> || (first == Mth(h, d[..m]) && path == ConsistencyProofs.Proof(h, m, d))
            || exists t :: StopsAt(m, |d|, t) && PassesAtStop(h, m, first, path, d, t)
  {
    hide Fold, FoldLeft, StrippedSides, Sides, Mth, TreePairs, Descends, Covered, Siblings, IsPow2, Pow2;
    hide CollisionFree, LeavesApart, ConsistencyProofs.VerifierPairs, ConsistencyAccepted;
    hide ConsistencyProofs.Accepted, ConsistencyProofs.Proof, ConsistencyProofs.Nodes, ProofLength;
    LedgerAcceptsTruncatedSizes(h, m, first, |d|, Mth(h, d), path);
    ConsistencyProofs.Complete(h, m, d);
    if ConsistencyProofs.Accepted(h, m, first, |d|, Mth(h, d), path) {
      ConsistencyProofs.Sound(h, m, first, path, d);
    }
    forall t | StopsAt(m, |d|, t)
      ensures ConsistencyProofs.Accepted(h, m, first, Pow2(t), Mth(h, d), path)
         <==> PassesAtStop(h, m, first, path, d, t)
    {
      if ConsistencyProofs.Accepted(h, m, first, Pow2(t), Mth(h, d), path) || PassesAtStop(h, m, first, path, d, t) {
        LengthAtStop(h, m, first, path, d, t);
      }
      if |path| == ProofLength(m, Pow2(t)) {
        AcceptedAtStop(h, m, first, path, d, t);
        NodesAtStop(m, first, path, t);
        TruncatedAcceptance(h, m, first, |d|, Mth(h, d), path, t);
      }
    }
  }

  lemma LengthAtStop(h: Hasher, m: nat, first: Hash, path: seq<Hash>, d: seq<Bytes>, t: nat)
    requires 0 < m && StopsAt(m, |d|, t)
    requires || ConsistencyProofs.Accepted(h, m, first, Pow2(t), Mth(h, d), path)
             || PassesAtStop(h, m, first, path, d, t)
    ensures |path| == ProofLength(m, Pow2(t))
  {
    hide Fold, FoldLeft, StrippedSides, Sides, Mth, Descends, Covered, Siblings;
    StrippedSidesOfFullTree(t);
    Pow2IsPow2(t);
  }

  /** Every tree that is deep enough has a path by which the root of more than m of its leaves passes
      for the root of the first m. */
  lemma LargerRootPasses(h: Hasher, m: nat, d: seq<Bytes>, t: nat) returns (path: seq<Hash>)
    requires 0 < m && StopsAt(m, |d|, t) && Descends(|d|, StopSides(m, t))
    ensures |path| == ProofLength(m, Pow2(t))
    ensures var q := Covered(|d|, StopSides(m, t));
            m < q && ConsistencyAccepted(h, m, Mth(h, d[..q]), |d|, Mth(h, d), path)
  {
    hide Fold, FoldLeft, StrippedSides, Sides, Mth, Descends, Covered, Siblings, IsPow2;
    var s := StopSides(m, t);
    var first, nodes := Mth(h, d[..Covered(|d|, s)]), Siblings(h, d, s);
    SiblingsFold(h, d, s);
    CoversMore(m, |d|, t);
    StrippedSidesOfFullTree(t);
    Pow2IsPow2(t);
    if IsPow2(m) {
      RightsOfPowerOfTwo(m, t);
      FoldLeftOverRights(h, s, nodes[0], nodes[1..]);
      path := nodes[1..];
      assert nodes == [first] + path;
    } else {
      path := nodes;
    }
    AcceptedMeansFolds(h, m, first, path, d, t);
  }

  // ---------- inclusion ----------

  /** What the ledger's inclusion verifier accepts for the root of a tree d, at any leaf index: one hash
      and one path, those of the node its walk arrives at, if d is deep enough for the walk. */
  lemma InclusionForTree(h: Hasher, leafHash: Hash, m: int, path: seq<Hash>, d: seq<Bytes>)
    requires |d| > 0
    requires |path| == |Sides(m, |d| - 1)| ==>
               && CollisionFree(h.node, FoldPairs(h, Sides(m, |d| - 1), leafHash, path), TreePairs(h, d))
               && LeavesApart(h, FoldPairs(h, Sides(m, |d| - 1), leafHash, path), d)
    ensures InclusionAccepted(h, leafHash, m, |d|, path, Mth(h, d))
       <==> && m < |d| && Descends(|d|, Sides(m, |d| - 1))
            && [leafHash] + path == Siblings(h, d, Sides(m, |d| - 1))
  {
    hide Fold, FoldLeft, FoldPairs, Sides, Mth, TreePairs, Descends, Siblings;
    var s := Sides(m, |d| - 1);
    if Descends(|d|, s) {
      SiblingsFold(h, d, s);
    }
    if InclusionAccepted(h, leafHash, m, |d|, path, Mth(h, d)) {
      FoldGoesDown(h, d, s, leafHash, path);
    }
    assert ([leafHash] + path)[1..] == path;
  }

  /** At an index that is not negative that is leaf m with the path the tree emits. */
  lemma InclusionSoundFromZero(h: Hasher, leafHash: Hash, m: int, path: seq<Hash>, d: seq<Bytes>)
    requires m >= 0 && InclusionAccepted(h, leafHash, m, |d|, path, Mth(h, d))
    requires CollisionFree(h.node, FoldPairs(h, Sides(m, |d| - 1), leafHash, path), TreePairs(h, d))
    ensures m < |d| && leafHash == h.leaf(d[m]) && path == Path(h, m, d)
  {
    hide Fold, FoldPairs, Sides, Mth, TreePairs;
    InclusionProofs.Sound(h, leafHash, m, path, d);
  }

  /** In a full tree the walk reads the lowest bits of the index only. */
  lemma {:induction false} SidesWrap(m: int, t: nat)
    ensures Sides(m, Pow2(t) - 1) == Sides(m % Pow2(t), Pow2(t) - 1)
    decreases t
  {
    hide Sides;
    if t == 0 {
      NoSides(m);
      NoSides(m % Pow2(t));
    } else {
      SidesWrap(m / 2, t - 1);
      HalfOfRemainder(m, Pow2(t - 1));
      OddLevel(m, Pow2(t - 1));
      OddLevel(m % Pow2(t), Pow2(t - 1));
    }
  }

  /** Below an odd last node every node has a sibling. */
  lemma OddLevel(fn: int, half: nat)
    requires half > 0
    ensures Sides(fn, 2 * half - 1) == [if fn % 2 == 1 then Left else Right] + Sides(fn / 2, half - 1)
  {
    assert (2 * half - 1) / 2 == half - 1;
  }

  lemma HalfOfRemainder(m: int, half: nat)
    requires half > 0
    ensures m % (2 * half) / 2 == m / 2 % half && m % (2 * half) % 2 == m % 2
  {
    var q, r := m / (2 * half), m % (2 * half);
    assert m == 2 * (half * q) + r;
    assert m / 2 == half * q + r / 2;
    RemainderUnique(m / 2, half, q, r / 2);
  }

  lemma RemainderUnique(x: int, k: nat, q: int, r: int)
    requires k > 0 && 0 <= r < k && x == k * q + r
    ensures x % k == r
  {
    var d := x / k - q;
    assert x == k * (x / k) + x % k;
    assert k * d == k * (x / k) - k * q;
    SmallMultiple(k, d);
  }

  lemma SmallMultiple(k: int, d: int)
    requires -k < k * d < k
    ensures d == 0
  {
    assert d >= 1 ==> k * d >= k * 1;
    assert d <= -1 ==> k * d <= k * -1;
  }

  /** So in a tree of 2^t leaves a negative index passes for the leaf it is congruent to, with that leaf's
      path, and for nothing else. */
  lemma NegativeIndexWraps(h: Hasher, leafHash: Hash, m: int, path: seq<Hash>, d: seq<Bytes>, t: nat)
    requires m < 0 && |d| == Pow2(t)
    requires |path| == |Sides(m, |d| - 1)| ==>
               CollisionFree(h.node, FoldPairs(h, Sides(m, |d| - 1), leafHash, path), TreePairs(h, d))
    ensures InclusionAccepted(h, leafHash, m, |d|, path, Mth(h, d))
       <==> leafHash == h.leaf(d[m % |d|]) && path == Path(h, m % |d|, d)
  {
    hide Fold, FoldPairs, Sides, Mth, TreePairs, Path, Pow2;
    SidesWrap(m, t);
    InclusionProofs.Complete(h, m % |d|, d);
    if InclusionAccepted(h, leafHash, m, |d|, path, Mth(h, d)) {
      InclusionProofs.Sound(h, leafHash, m % |d|, path, d);
    }
  }

  /** Index -1 of two leaves: the second one passes. */
  lemma MinusOneOfTwo(h: Hasher, d: seq<Bytes>)
    requires |d| == 2
    ensures InclusionAccepted(h, h.leaf(d[1]), -1, 2, [h.leaf(d[0])], Mth(h, d))
    ensures !InclusionProofs.Accepted(h, h.leaf(d[1]), -1, 2, [h.leaf(d[0])], Mth(h, d))
  {
    hide Fold, Mth, Path;
    SidesWrap(-1, 1);
    assert -1 % 2 == 1;
    InclusionProofs.Complete(h, 1, d);
    SecondOfTwo(h, d);
  }

  lemma SecondOfTwo(h: Hasher, d: seq<Bytes>)
    requires |d| == 2
    ensures Path(h, 1, d) == [h.leaf(d[0])]
  {
    assert Split(2) == 1 && d[..1] == [d[0]] && d[1..] == [d[1]];
  }

  // ---------- closed forms ----------

  lemma {:induction false} Pow2Sum(a: nat, b: nat)
    ensures Pow2(a) * Pow2(b) == Pow2(a + b)
  {
    if a > 0 {
      Pow2Sum(a - 1, b);
      assert Pow2(a) * Pow2(b) == 2 * (Pow2(a - 1) * Pow2(b));
    }
  }

  lemma SplitOfPow2(u: nat)
    requires u > 0
    ensures Pow2(u) > 1 && Split(Pow2(u)) == Pow2(u) - Split(Pow2(u)) == Pow2(u - 1)
  {
    Pow2Monotone(1, u);
    SplitUnique(Pow2(u), u - 1);
  }

  /** In a tree of 2^u leaves every stopping walk goes down, to m times as many leaves as the tree is
      larger. */
  lemma {:induction false} ScaledWalk(m: nat, t: nat, u: nat)
    requires 0 < m <= Pow2(t) && t <= u
    ensures Descends(Pow2(u), StopSides(m, t))
    ensures Covered(Pow2(u), StopSides(m, t)) == m * Pow2(u - t)
    decreases t
  {
    hide StrippedSides, Sides, Pow2, Split, SplitExp, Descends, Covered, StopSides;
    StopSidesSplit(m, t);
    var factor := Pow2(u - t);
    if m == Pow2(t) {
      NoMoreSides(Pow2(u));
      Pow2Sum(t, u - t);
    } else {
      SplitOfPow2(u);
      var half := Pow2(t - 1);
      if m <= half {
        ScaledWalk(m, t - 1, u - 1);
        OneMoreSide(Pow2(u), StopSides(m, t - 1), Right);
      } else {
        RightHalf(m, t);
        ScaledWalk(m - half, t - 1, u - 1);
        OneMoreSide(Pow2(u), StopSides(m - half, t - 1), Left);
        Pow2Sum(t - 1, u - t);
        assert half * factor + (m - half) * factor == m * factor;
      }
    }
  }

  lemma NoMoreSides(n: nat)
    requires n > 0
    ensures Descends(n, []) && Covered(n, []) == n
  {
  }

  lemma RightHalf(m: nat, t: nat)
    requires t > 0 && Pow2(t - 1) < m <= Pow2(t)
    ensures 0 < m - Pow2(t - 1) <= Pow2(t - 1)
  {
  }

  /** From three leaves to n > 4: it is so exactly if the right subtree has more than one leaf. */
  lemma WalkOfThree(n: nat)
    requires n > 4
    ensures StopsAt(3, n, 2)
    ensures Descends(n, StopSides(3, 2)) <==> n - Split(n) > 1
    ensures n - Split(n) > 1 ==> Covered(n, StopSides(3, 2)) == Split(n) + Split(n - Split(n))
  {
    hide SplitExp;
    var s := StopSides(3, 2);
    assert s == [Right, Left] && s[..1] == [Right] && [Right][..0] == [];
    if n - Split(n) > 1 {
      assert Covered(n - Split(n), [Right]) == Split(n - Split(n));
    }
  }

  lemma SixOfEight()
    ensures StopSides(3, 2) == [Right, Left]
    ensures Split(8) == 4 && Split(4) == 2 && StopsAt(3, 8, 2)
  {
  }

  lemma SiblingsOfThree(h: Hasher, d: seq<Bytes>) returns (path: seq<Hash>)
    requires |d| == 8
    ensures path == [Mth(h, d[4..6]), Mth(h, d[6..]), Mth(h, d[..4])]
    ensures Descends(|d|, [Right, Left]) && Siblings(h, d, [Right, Left]) == path
  {
    hide Mth, Split;
    SixOfEight();
    var a := d[4..];
    assert [Right, Left][..1] == [Right] && [Right][..0] == [];
    assert a[..2] == d[4..6] && a[2..] == d[6..];
    path := [Mth(h, d[4..6]), Mth(h, d[6..]), Mth(h, d[..4])];
    assert Siblings(h, a, [Right]) == [Mth(h, d[4..6])] + [Mth(h, d[6..])];
    assert Siblings(h, d, [Right, Left]) == Siblings(h, a, [Right]) + [Mth(h, d[..4])];
  }

  /** So between 3 and 8 leaves the root of six passes for the root of three. */
  lemma ThreeOfEight(h: Hasher, d: seq<Bytes>)
    requires |d| == 8
    ensures ConsistencyAccepted(h, 3, Mth(h, d[..6]), 8, Mth(h, d), [Mth(h, d[4..6]), Mth(h, d[6..]), Mth(h, d[..4])])
  {
    hide Fold, FoldLeft, Mth, ConsistencyAccepted, FoldsTo, Split;
    WalkOfThree(8);
    SixOfEight();
    var s := [Right, Left];
    var path := SiblingsOfThree(h, d);
    assert ConsistencyProofs.Nodes(3, Mth(h, d[..6]), path) == path;
    SiblingsFold(h, d, s);
    AcceptedMeansFolds(h, 3, Mth(h, d[..6]), path, d, 2);
  }
}
