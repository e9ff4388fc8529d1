/** The verifiers of the SDK, as an offline auditor runs them. */
module SdkVerifier {
  import opened Hashing
  import opened PowersOfTwo
  import opened BitWalk
  import opened ProofFold
  import InclusionProofs
  import ConsistencyProofs

  /** `n > 0 && (n & (n - 1)) === 0` */
  predicate IsPowerOfTwo(n: int) {
    n > 0 && BitAnd(n, n - 1) == 0
  }

  method VerifyInclusion(h: Hasher, leafHash: Hash, leafIndex: int, treeSize: int, auditPath: seq<Hash>, root: Hash)
    returns (ok: bool)
    requires treeSize <= TWO_32
    ensures ok <==> InclusionProofs.Accepted(h, leafHash, leafIndex, treeSize, auditPath, root)
  {
    hide Fold, Sides, UnsignedShiftRight1, LowBit;
    if treeSize <= 0 || leafIndex < 0 || leafIndex >= treeSize {
      return false;
    }
    var fn, sn, r := leafIndex, treeSize - 1, leafHash;
    ghost var s := Sides(fn, sn);
    FoldNil(h, leafHash);
    for i := 0 to |auditPath|
      invariant 0 <= fn <= sn < TWO_32
      invariant i <= |s| && Sides(fn, sn) == s[i..]
      invariant r == Fold(h, s[..i], leafHash, auditPath[..i])
    {
      SidesStep(fn, sn, s, i);
      if sn == 0 {
        return false;
      }
      FoldNext(h, s, leafHash, auditPath, i);
      var p := auditPath[i];
      if LowBit(fn) == 1 || fn == sn {
        r := h.node(p, r);
        if LowBit(fn) == 0 {
          fn, sn := UnsignedShiftRight1(fn), UnsignedShiftRight1(sn);
          while LowBit(fn) == 0 && fn != 0
            invariant 0 < fn == sn < TWO_32
            invariant Sides(fn, sn) == s[i..]
            decreases fn
          {
            SidesStep(fn, sn, s, i);
            fn, sn := UnsignedShiftRight1(fn), UnsignedShiftRight1(sn);
          }
          SidesStep(fn, sn, s, i);
        }
      } else {
        r := h.node(r, p);
      }
      fn, sn := UnsignedShiftRight1(fn), UnsignedShiftRight1(sn);
    }
    assert auditPath[..|auditPath|] == auditPath;
    SidesStep(fn, sn, s, |auditPath|);
    assert s[..|s|] == s;
    return sn == 0 && r == root;
  }

  method VerifyConsistency(h: Hasher, firstSize: int, firstHash: Hash, secondSize: int, secondHash: Hash,
                           path: seq<Hash>)
    returns (ok: bool)
    requires secondSize <= TWO_32
    ensures ok <==> ConsistencyProofs.Accepted(h, firstSize, firstHash, secondSize, secondHash, path)
  {
    hide Fold, FoldLeft, Sides, UnsignedShiftRight1, LowBit, And, IsPow2;
    if firstSize < 0 || firstSize > secondSize {
      return false;
    }
    if firstSize == secondSize {
      return |path| == 0 && firstHash == secondHash;
    }
    if firstSize == 0 {
      return false;
    }
    PowerOfTwoTest(firstSize);
    var nodes := path;
    if IsPowerOfTwo(firstSize) {
      nodes := [firstHash] + nodes;
    }
    if |nodes| == 0 {
      return false;
    }
    var fn, sn := firstSize - 1, secondSize - 1;
    ghost var s := StrippedSides(fn, sn);
    while LowBit(fn) == 1
      invariant 0 <= fn < sn < TWO_32
      invariant StrippedSides(fn, sn) == s
      decreases fn
    {
      fn, sn := UnsignedShiftRight1(fn), UnsignedShiftRight1(sn);
    }
    FoldNil(h, nodes[0]);
    var fr, sr := nodes[0], nodes[0];
    for i := 1 to |nodes|
      invariant 0 <= fn <= sn < TWO_32
      invariant i - 1 <= |s| && Sides(fn, sn) == s[i - 1..]
      invariant fr == FoldLeft(h, s[..i - 1], nodes[0], nodes[1..][..i - 1])
      invariant sr == Fold(h, s[..i - 1], nodes[0], nodes[1..][..i - 1])
    {
      var c := nodes[i];
      SidesStep(fn, sn, s, i - 1);
      if sn == 0 {
        return false;
      }
      FoldNext(h, s, nodes[0], nodes[1..], i - 1);
      if LowBit(fn) == 1 || fn == sn {
        fr, sr := h.node(c, fr), h.node(c, sr);
        if LowBit(fn) == 0 {
          fn, sn := UnsignedShiftRight1(fn), UnsignedShiftRight1(sn);
          while LowBit(fn) == 0 && fn != 0
            invariant 0 < fn == sn < TWO_32
            invariant Sides(fn, sn) == s[i - 1..]
            decreases fn
          {
            SidesStep(fn, sn, s, i - 1);
            fn, sn := UnsignedShiftRight1(fn), UnsignedShiftRight1(sn);
          }
          SidesStep(fn, sn, s, i - 1);
        }
      } else {
        sr := h.node(sr, c);
      }
      fn, sn := UnsignedShiftRight1(fn), UnsignedShiftRight1(sn);
    }
    assert nodes[1..][..|nodes| - 1] == nodes[1..];
    SidesStep(fn, sn, s, |nodes| - 1);
    assert s[..|s|] == s;
    return sn == 0 && fr == firstHash && sr == secondHash;
  }
}
