/** Where the two pairs of verifiers agree, and exactly where they do not. */
module VerifierAgreement {
  import opened Hashing
  import opened PowersOfTwo
  import opened MerkleTree
  import opened BitWalk
  import opened ProofFold
  import opened LedgerVerifier
  import InclusionProofs
  import ConsistencyProofs

  // ---------- inclusion ----------

  /** The inclusion verifiers give one answer on every leaf index that is not negative, and differ on
      some input for every negative one (and a size above zero). */
  lemma InclusionVerifiersAgree(h: Hasher, leafHash: Hash, m: int, n: int)
    ensures (forall path, root ::
               InclusionAccepted(h, leafHash, m, n, path, root)
               == InclusionProofs.Accepted(h, leafHash, m, n, path, root))
            <==> m >= 0 || n <= 0
  {
    hide Fold, Sides;
    if m < 0 < n {
      var path := seq(|Sides(m, n - 1)|, (i: nat) => leafHash);
      var root := Fold(h, Sides(m, n - 1), leafHash, path);
      assert InclusionAccepted(h, leafHash, m, n, path, root);
      assert !InclusionProofs.Accepted(h, leafHash, m, n, path, root);
    }
  }

  // ---------- consistency ----------

  /** The number of entries a full consistency proof from m to n has. */
  function ProofLength(m: nat, n: nat): nat
    requires 0 < m <= n
  {
    if m == n then 0 else |StrippedSides(m - 1, n - 1)| + (if IsPow2(m) then 0 else 1)
  }

  /** The sizes 2^t at which a walk from m to n can stop short. */
  predicate StopsAt(m: nat, n: nat, t: nat) {
    m <= Pow2(t) < n
  }

  lemma RemainingSidesAreRight(m: nat, n: nat, t: nat)
    requires 0 < m && StopsAt(m, n, t)
    ensures var s, p := StrippedSides(m - 1, n - 1), StrippedSides(m - 1, Pow2(t) - 1);
            |p| < |s| && s[..|p|] == p && Left !in s[|p|..]
  {
    hide Sides, StrippedSides, Shr;
    StrippedSidesInLeftSubtree(t, m - 1, n - 1);
    ShrSmall(n - 1, t);
    NoLeftMeansZero(0, Shr(n - 1, t));
  }

  lemma FullTreeSides(m: nat, t: nat)
    requires 0 < m <= Pow2(t)
    ensures |StrippedSides(m - 1, 2 * Pow2(t) - 1)| == |StrippedSides(m - 1, Pow2(t) - 1)| + 1
  {
    hide Sides, StrippedSides, Shr;
    StrippedSidesInLeftSubtree(t, m - 1, 2 * Pow2(t) - 1);
    TopLeft(t, 2 * Pow2(t) - 1);
  }

  /** The smallest power of two that is not below m. */
  lemma {:induction false} Cover(m: nat) returns (t: nat)
    requires m > 0
    ensures m <= Pow2(t) && (t > 0 ==> Pow2(t - 1) < m)
  {
    if m == 1 {
      t := 0;
    } else {
      t := SplitExp(m) + 1;
    }
  }

  /** Walking short of n by at least one side means stopping at the root of some 2^t leaves. */
  lemma {:induction false} StoppingSize(m: nat, n: nat, c: nat, from: nat) returns (t: nat)
    requires 0 < m && StopsAt(m, n, from)
    requires |StrippedSides(m - 1, Pow2(from) - 1)| <= c < |StrippedSides(m - 1, n - 1)|
    ensures StopsAt(m, n, t) && c == |StrippedSides(m - 1, Pow2(t) - 1)|
    decreases n - Pow2(from)
  {
    hide Sides, StrippedSides, Shr;
    if c == |StrippedSides(m - 1, Pow2(from) - 1)| {
      t := from;
    } else {
      if n <= 2 * Pow2(from) {
        StrippedSidesInLeftSubtree(from, m - 1, n - 1);
        TopLeft(from, n - 1);
        assert false;
      }
      FullTreeSides(m, from);
      if 2 * Pow2(from) == n {
        assert false;
      }
      assert Pow2(from + 1) == 2 * Pow2(from);
      t := StoppingSize(m, n, c, from + 1);
    }
  }

  lemma LeftAhead(s: seq<Side>, p: seq<Side>, c: nat)
    requires c < |p| && p <= s && p[|p| - 1] == Left
    ensures Left in s[c..]
  {
    assert s[c..][|p| - 1 - c] == Left;
  }

  lemma ShortWalkStops(m: nat, n: nat, c: nat) returns (t: nat)
    requires 0 < m < n
    requires c < |StrippedSides(m - 1, n - 1)| && Left !in StrippedSides(m - 1, n - 1)[c..]
    ensures StopsAt(m, n, t) && c == |StrippedSides(m - 1, Pow2(t) - 1)|
  {
    hide Sides, StrippedSides, Shr;
    var s := StrippedSides(m - 1, n - 1);
    var t0 := Cover(m);
    if n <= Pow2(t0) {
      var half := Pow2(t0 - 1);
      StrippedSidesInRightSubtree(t0 - 1, m - 1 - half, n - 1 - half);
      LeftAhead(s, s, c);
      assert false;
    } else {
      RemainingSidesAreRight(m, n, t0);
      var p := StrippedSides(m - 1, Pow2(t0) - 1);
      if c < |p| {
        if m == Pow2(t0) {
          StrippedSidesOfFullTree(t0);
        } else {
          var half := Pow2(t0 - 1);
          StrippedSidesInRightSubtree(t0 - 1, m - 1 - half, half - 1);
          LeftAhead(s, p, c);
        }
        assert false;
      }
      t := StoppingSize(m, n, c, t0);
    }
  }

  /** What the ledger's verifier accepts: what the SDK accepts at the claimed second size, or at a
      smaller second size that is a power of two. */
  lemma LedgerAcceptsTruncatedSizes(h: Hasher, m: nat, first: Hash, n: nat, second: Hash, path: seq<Hash>)
    requires 0 < m < n
    ensures ConsistencyAccepted(h, m, first, n, second, path)
       <==> || ConsistencyProofs.Accepted(h, m, first, n, second, path)
            || exists t :: StopsAt(m, n, t) && ConsistencyProofs.Accepted(h, m, first, Pow2(t), second, path)
  {
    hide Sides, StrippedSides, Fold, FoldLeft, IsPow2;
    var nodes, s := ConsistencyProofs.Nodes(m, first, path), StrippedSides(m - 1, n - 1);
    var c := |nodes| - 1;
    if ConsistencyAccepted(h, m, first, n, second, path) {
      if c == |s| {
        assert s[..c] == s;
      } else {
        var t := ShortWalkStops(m, n, c);
        TruncatedAcceptance(h, m, first, n, second, path, t);
      }
    }
    if ConsistencyProofs.Accepted(h, m, first, n, second, path) {
      assert s[..c] == s && s[c..] == [];
    }
    forall t | StopsAt(m, n, t) && ConsistencyProofs.Accepted(h, m, first, Pow2(t), second, path)
      ensures ConsistencyAccepted(h, m, first, n, second, path)
    {
      FullProofAtStop(h, m, first, second, path, t);
      TruncatedAcceptance(h, m, first, n, second, path, t);
    }
  }

  /** Acceptance at size 2^t fixes the number of entries, also when m itself is 2^t. */
  lemma FullProofAtStop(h: Hasher, m: nat, first: Hash, second: Hash, path: seq<Hash>, t: nat)
    requires 0 < m <= Pow2(t)
    requires ConsistencyProofs.Accepted(h, m, first, Pow2(t), second, path)
    ensures |ConsistencyProofs.Nodes(m, first, path)| == |StrippedSides(m - 1, Pow2(t) - 1)| + 1
  {
    hide Sides, StrippedSides, Fold, FoldLeft;
    if m == Pow2(t) {
      StrippedSidesOfFullTree(t);
      Pow2IsPow2(t);
    }
  }

  lemma TruncatedAcceptance(h: Hasher, m: nat, first: Hash, n: nat, second: Hash, path: seq<Hash>, t: nat)
    requires 0 < m && StopsAt(m, n, t)
    requires |ConsistencyProofs.Nodes(m, first, path)| == |StrippedSides(m - 1, Pow2(t) - 1)| + 1
    ensures ConsistencyAccepted(h, m, first, n, second, path)
       <==> ConsistencyProofs.Accepted(h, m, first, Pow2(t), second, path)
  {
    hide Sides, StrippedSides, Fold, FoldLeft;
    RemainingSidesAreRight(m, n, t);
    if m == Pow2(t) {
      StrippedSidesOfFullTree(t);
      Pow2IsPow2(t);
      FoldNil(h, first);
      assert ConsistencyProofs.Nodes(m, first, path) == [first] + path;
    }
  }

  /** For sizes 0 < m < n and a number of entries, the two consistency verifiers agree on all inputs,
      unless that number is the length of a full proof from m to a power of two below n. */
  lemma ConsistencyVerifiersAgree(h: Hasher, m: nat, n: nat, length: nat)
    requires 0 < m < n
    ensures (forall first, second, path | |path| == length ::
               ConsistencyAccepted(h, m, first, n, second, path)
               == ConsistencyProofs.Accepted(h, m, first, n, second, path))
       <==> !exists t :: StopsAt(m, n, t) && length == ProofLength(m, Pow2(t))
  {
    hide Sides, StrippedSides, Fold, FoldLeft, IsPow2;
    forall first, second, path | |path| == length
      ensures ConsistencyAccepted(h, m, first, n, second, path)
         <==> || ConsistencyProofs.Accepted(h, m, first, n, second, path)
              || exists t :: StopsAt(m, n, t) && ConsistencyProofs.Accepted(h, m, first, Pow2(t), second, path)
    {
      LedgerAcceptsTruncatedSizes(h, m, first, n, second, path);
    }
    forall first, second, path, t | |path| == length && StopsAt(m, n, t)
                                    && ConsistencyProofs.Accepted(h, m, first, Pow2(t), second, path)
      ensures length == ProofLength(m, Pow2(t))
    {
    }
    forall t | StopsAt(m, n, t) && length == ProofLength(m, Pow2(t))
      ensures exists first, second, path :: |path| == length
                && ConsistencyAccepted(h, m, first, n, second, path)
                && !ConsistencyProofs.Accepted(h, m, first, n, second, path)
    {
      var first, second, path := ShortProof(h, m, n, t);
    }
  }

  /** A proof the ledger's verifier accepts and the SDK's refuses, for every size a walk can stop at. */
  lemma ShortProof(h: Hasher, m: nat, n: nat, t: nat) returns (first: Hash, second: Hash, path: seq<Hash>)
    requires 0 < m < n && StopsAt(m, n, t)
    ensures |path| == ProofLength(m, Pow2(t))
    ensures ConsistencyAccepted(h, m, first, n, second, path)
    ensures !ConsistencyProofs.Accepted(h, m, first, n, second, path)
  {
    hide Sides, StrippedSides, Fold, FoldLeft, Pow2, IsPow2;
    RemainingSidesAreRight(m, n, t);
    StrippedSidesOfFullTree(t);
    Pow2IsPow2(t);
    var p := StrippedSides(m - 1, Pow2(t) - 1);
    path := seq(ProofLength(m, Pow2(t)), (i: nat) => h.empty);
    if IsPow2(m) {
      RightsOfPowerOfTwo(m, t);
      FoldLeftOverRights(h, p, h.empty, path);
      first := h.empty;
      second := Fold(h, p, h.empty, path);
      assert ([first] + path)[1..] == path;
    } else {
      first := FoldLeft(h, p, path[0], path[1..]);
      second := Fold(h, p, path[0], path[1..]);
    }
    assert |ConsistencyProofs.Nodes(m, first, path)| == |p| + 1;
  }

  /** From a power of two the walk never meets a left side. */
  lemma RightsOfPowerOfTwo(m: nat, t: nat)
    requires 0 < m <= Pow2(t) && IsPow2(m)
    ensures Left !in StrippedSides(m - 1, Pow2(t) - 1)
  {
    hide Sides, StrippedSides;
    var e := IsPow2Exponent(m);
    StrippedSidesOfFullTree(e);
    if m < Pow2(t) {
      RemainingSidesAreRight(m, Pow2(t), e);
    }
  }

  // ---------- soundness of the ledger's consistency verifier ----------

  /** With as many entries as a full proof has, the ledger's answer is sound. */
  lemma LedgerSoundAtFullLength(h: Hasher, m: nat, first: Hash, path: seq<Hash>, d: seq<Bytes>)
    requires 0 < m <= |d| && |path| == ProofLength(m, |d|)
    requires ConsistencyAccepted(h, m, first, |d|, Mth(h, d), path)
    requires CollisionFree(h.node, ConsistencyProofs.VerifierPairs(h, m, first, |d|, path), TreePairs(h, d))
    ensures first == Mth(h, d[..m]) && path == ConsistencyProofs.Proof(h, m, d)
  {
    hide Sides, StrippedSides, Fold, FoldLeft, Mth, TreePairs, IsPow2;
    if m < |d| {
      var s := StrippedSides(m - 1, |d| - 1);
      assert s[..|s|] == s;
    }
    ConsistencyProofs.Sound(h, m, first, path, d);
  }

  /** In general the second root may be the root of a power of two of leaves only: the first root is
      then right for those, whatever size was claimed. */
  lemma LedgerSoundForSomeSize(h: Hasher, m: nat, first: Hash, n: nat, path: seq<Hash>, d: seq<Bytes>, t: nat)
    requires StopsAt(m, n, t) && 0 < m && |d| == Pow2(t) && |path| == ProofLength(m, Pow2(t))
    requires ConsistencyAccepted(h, m, first, n, Mth(h, d), path)
    requires CollisionFree(h.node, ConsistencyProofs.VerifierPairs(h, m, first, |d|, path), TreePairs(h, d))
    ensures first == Mth(h, d[..m])
  {
    hide Sides, StrippedSides, Fold, FoldLeft, Mth, TreePairs;
    StrippedSidesOfFullTree(t);
    Pow2IsPow2(t);
    TruncatedAcceptance(h, m, first, n, Mth(h, d), path, t);
    ConsistencyProofs.Sound(h, m, first, path, d);
  }

  /** The ledger's verifier is not sound: from size 0 it accepts any two roots, and from any power of
      two m it accepts an empty path between equal roots at every larger size, so the root of d passes
      for the root of its first m leaves. The SDK refuses both. */
  lemma LedgerUnsound(h: Hasher, m: nat, d: seq<Bytes>, any: Hash)
    requires IsPow2(m) && m < |d|
    ensures ConsistencyAccepted(h, 0, any, |d|, Mth(h, d), [])
    ensures !ConsistencyProofs.Accepted(h, 0, any, |d|, Mth(h, d), [])
    ensures ConsistencyAccepted(h, m, Mth(h, d), |d|, Mth(h, d), [])
    ensures !ConsistencyProofs.Accepted(h, m, Mth(h, d), |d|, Mth(h, d), [])
  {
    hide Sides, StrippedSides, Fold, FoldLeft, Mth;
    var t := IsPow2Exponent(m);
    StrippedSidesOfFullTree(t);
    RemainingSidesAreRight(m, |d|, t);
    FoldNil(h, Mth(h, d));
  }

  /** Of the negative first sizes below the second one the ledger's verifier accepts only -2^31, there
      for instance an empty path between equal roots; the SDK's accepts none. */
  lemma NegativeFirstSizes(h: Hasher, m: int, n: int)
    requires m < 0 && m < n
    ensures (exists first, second, path :: ConsistencyAccepted(h, m, first, n, second, path)) <==> m == -TWO_31
    ensures forall first, second, path :: !ConsistencyProofs.Accepted(h, m, first, n, second, path)
  {
    if m == -TWO_31 {
      FoldNil(h, h.empty);
      assert ConsistencyAccepted(h, m, h.empty, n, h.empty, []);
    }
  }

  /** Sizes 1 and 4: unless the root of four leaves is the hash of the first, it is accepted wrongly. */
  lemma LedgerUnsoundAtOneAndFour(h: Hasher, d: seq<Bytes>)
    requires |d| == 4 && Mth(h, d) != h.leaf(d[0])
    ensures ConsistencyAccepted(h, 1, Mth(h, d), 4, Mth(h, d), []) && Mth(h, d) != Mth(h, d[..1])
  {
    LedgerUnsound(h, 1, d, h.empty);
  }
}
