/** The verifiers that stand beside the log. They shift with `>>`, which keeps the sign, check fewer
    of their arguments, and end the consistency walk on `fn` where the SDK ends it on `sn`. */
module LedgerVerifier {
  import opened Hashing
  import opened PowersOfTwo
  import opened BitWalk
  import opened ProofFold
  import InclusionProofs
  import ConsistencyProofs

  /** A negative leaf index is not refused. */
  predicate InclusionAccepted(h: Hasher, leafHash: Hash, m: int, n: int, path: seq<Hash>, root: Hash) {
    m < n && 0 < n && InclusionProofs.FoldsToRoot(h, leafHash, m, n, path, root)
  }

  /** The walk may stop as soon as no left side is left. Negative sizes are not refused: -2^31 passes
      the test for a power of two, and its walk starts at node 0 of the top level. */
  predicate ConsistencyAccepted(h: Hasher, m: int, first: Hash, n: int, second: Hash, path: seq<Hash>) {
    if m == 0 then true
    else if m == n then path == [] && first == second
    else if m > n then false
    else if m < 0 then m == -TWO_31 && FoldsTo(h, TopSides(n, path), [first] + path, first, second)
    else
      var nodes, s := ConsistencyProofs.Nodes(m, first, path), StrippedSides(m - 1, n - 1);
      var c := |nodes| - 1;
      && 0 <= c <= |s|
      && Left !in s[c..]
      && FoldsTo(h, s[..c], nodes, first, second)
  }

  /** The sides met from node 0 of the top level: none below a positive size, and no end of right ones
      below any other. */
  function TopSides(n: int, path: seq<Hash>): seq<Side> {
    if n > 0 then [] else seq(|path|, _ => Right)
  }

  method VerifyInclusion(h: Hasher, leafHash: Hash, m: int, n: int, auditPath: seq<Hash>, root: Hash)
    returns (ok: bool)
    requires -TWO_31 <= m && n <= TWO_31
    ensures ok <==> InclusionAccepted(h, leafHash, m, n, auditPath, root)
  {
    hide Fold, Sides, ShiftRight1, LowBit;
    if m >= n {
      return false;
    }
    var fn, sn, r := m, n - 1, leafHash;
    ghost var s := if n > 0 then Sides(fn, sn) else [];
    FoldNil(h, leafHash);
    for i := 0 to |auditPath|
      invariant -TWO_31 <= fn <= sn < TWO_31
      invariant n > 0 ==> sn >= 0 && i <= |s| && Sides(fn, sn) == s[i..]
      invariant n > 0 ==> r == Fold(h, s[..i], leafHash, auditPath[..i])
      invariant n <= 0 ==> sn < 0
    {
      if n > 0 {
        SidesStep(fn, sn, s, i);
      }
      if sn == 0 {
        return false;
      }
      if n > 0 {
        FoldNext(h, s, leafHash, auditPath, i);
      }
      var p := auditPath[i];
      if LowBit(fn) == 1 || fn == sn {
        r := h.node(p, r);
        if LowBit(fn) == 0 {
          while fn != 0 && LowBit(fn) == 0
            invariant fn == sn && -TWO_31 <= fn < TWO_31
            invariant n > 0 ==> sn > 0 && Sides(fn, sn) == s[i..]
            invariant n <= 0 ==> sn < 0
            decreases if fn < 0 then -fn else fn
          {
            if n > 0 {
              SidesStep(fn, sn, s, i);
            }
            fn, sn := ShiftRight1(fn), ShiftRight1(sn);
          }
          if n > 0 {
            SidesStep(fn, sn, s, i);
          }
        }
      } else {
        r := h.node(r, p);
      }
      fn, sn := ShiftRight1(fn), ShiftRight1(sn);
    }
    assert auditPath[..|auditPath|] == auditPath;
    if n > 0 {
      SidesStep(fn, sn, s, |auditPath|);
      assert s[..|s|] == s;
    }
    return sn == 0 && r == root;
  }

  // ---------- the counters of the consistency walk, for positive and negative first sizes ----------

  /** Before the walk, while trailing ones are shifted out; `top` bits are left of 2^31 - 1. */
  ghost predicate Stripping(m: int, n: int, fn: int, sn: int, s: seq<Side>, top: nat) {
    if m > 0 then
      0 <= fn < sn < TWO_31 && StrippedSides(fn, sn) == s
    else if m == -TWO_31 then
      && top <= 31
      && fn == (if top == 31 then -TWO_31 - 1 else Pow2(top) - 1)
      && (if n > 0 then 0 <= sn < Pow2(top) else sn < 0 <= sn + Pow2(top))
    else
      -TWO_31 <= fn < -1 && -TWO_31 <= sn < TWO_31
  }

  /** During the walk, with `i` sides behind. */
  ghost predicate Walking(m: int, n: int, fn: int, sn: int, s: seq<Side>, i: nat) {
    if m > 0 then
      0 <= fn <= sn < TWO_31 && i <= |s| && Sides(fn, sn) == s[i..]
    else if m == -TWO_31 then
      fn == 0 && sn == (if n > 0 then 0 else -1) && i <= |s| && Left !in s
    else
      -TWO_31 <= fn < 0 && -TWO_31 <= sn < TWO_31
  }

  /** The walks whose sides matter: of the others fn stays negative, and the verdict is false. */
  predicate Followed(m: int) {
    m > 0 || m == -TWO_31
  }

  lemma StartsStripping(m: int, n: int, path: seq<Hash>, s: seq<Side>)
    requires -TWO_31 <= m < n <= TWO_31 && m != 0
    requires s == if m > 0 then StrippedSides(m - 1, n - 1) else TopSides(n, path)
    ensures Stripping(m, n, m - 1, n - 1, s, 31)
  {
    Pow2ThirtyOne();
  }

  lemma StripsOn(m: int, n: int, fn: int, sn: int, s: seq<Side>, top: nat)
    requires Stripping(m, n, fn, sn, s, top) && LowBit(fn) == 1
    ensures m == -TWO_31 ==> top > 0
    ensures Stripping(m, n, ShiftRight1(fn), ShiftRight1(sn), s, if m == -TWO_31 then top - 1 else top)
    ensures m > 0 ==> ShiftRight1(fn) < fn
    ensures m < 0 && m != -TWO_31 ==> fn < ShiftRight1(fn) < 0
  {
    hide Sides;
    Pow2ThirtyOne();
    if m == -TWO_31 && top < 31 {
      Pow2Monotone(top, 31);
    }
  }

  lemma StopsStripping(m: int, n: int, fn: int, sn: int, s: seq<Side>, top: nat)
    requires Stripping(m, n, fn, sn, s, top) && LowBit(fn) == 0 && (m <= 0 ==> Left !in s)
    ensures Walking(m, n, fn, sn, s, 0)
  {
    hide Sides;
  }

  lemma WalksOn(m: int, n: int, fn: int, sn: int, s: seq<Side>, i: nat)
    requires Walking(m, n, fn, sn, s, i) && sn != 0
    requires m == -TWO_31 && n <= 0 ==> i < |s|
    ensures Followed(m) ==> i < |s|
    ensures LowBit(fn) == 1 || fn != sn ==>
              Walking(m, n, ShiftRight1(fn), ShiftRight1(sn), s, i + 1)
    ensures Followed(m) && (LowBit(fn) == 1 || fn != sn) ==> s[i] == if LowBit(fn) == 1 then Left else Right
    ensures LowBit(fn) == 0 && fn == sn ==>
              Walking(m, n, ShiftRight1(fn), ShiftRight1(sn), s, i)
    ensures LowBit(fn) == 0 && fn == sn ==> m != -TWO_31
    ensures LowBit(fn) == 0 ==> ShiftRight1(fn) == fn / 2
    ensures ShiftRight1(sn) == sn / 2
  {
    hide Sides;
    if m > 0 {
      SidesStep(fn, sn, s, i);
    }
  }

  lemma WalkEnds(m: int, n: int, fn: int, sn: int, s: seq<Side>, i: nat)
    requires Walking(m, n, fn, sn, s, i)
    ensures Followed(m) ==> i <= |s| && (fn == 0 <==> Left !in s[i..])
    ensures !Followed(m) ==> fn != 0
  {
    hide Sides;
    if m > 0 {
      NoLeftMeansZero(fn, sn);
    }
  }

  /** The last level is reached with entries left: the path is too long, or the walk leads nowhere. */
  lemma EndsEarly(m: int, n: int, fn: int, sn: int, s: seq<Side>, i: nat)
    requires Walking(m, n, fn, sn, s, i) && sn == 0
    ensures m > 0 ==> i == |s|
    ensures m == -TWO_31 ==> n > 0
  {
    hide Sides;
    if m > 0 {
      SidesStep(fn, sn, s, i);
    }
  }

  /** What the walk has found out when all entries are read is the verdict. */
  lemma Verdict(h: Hasher, m: int, first: Hash, n: int, second: Hash, path: seq<Hash>, nodes: seq<Hash>,
                s: seq<Side>, fn: int, fr: Hash, sr: Hash)
    requires m < n && m != 0 && |nodes| > 0
    requires nodes == if m > 0 then ConsistencyProofs.Nodes(m, first, path)
                      else if m == -TWO_31 then [first] + path else path
    requires s == if m > 0 then StrippedSides(m - 1, n - 1) else TopSides(n, path)
    requires var c := |nodes| - 1;
             Followed(m) ==>
               && c <= |s|
               && fr == FoldLeft(h, s[..c], nodes[0], nodes[1..])
               && sr == Fold(h, s[..c], nodes[0], nodes[1..])
               && (fn == 0 <==> Left !in s[c..])
    requires !Followed(m) ==> fn != 0
    ensures fn == 0 && fr == first && sr == second <==> ConsistencyAccepted(h, m, first, n, second, path)
  {
    hide Fold, FoldLeft, StrippedSides, IsPow2;
    var c := |nodes| - 1;
    if m == -TWO_31 {
      assert s[..c] == s;
    }
  }

  lemma TestOfFirstSize(m: int)
    requires -TWO_31 <= m <= TWO_31 && m != 0
    ensures BitAnd(m, m - 1) == 0 <==> if m > 0 then IsPow2(m) else m == -TWO_31
  {
    hide And, IsPow2;
    if m > 0 {
      PowerOfTwoTest(m);
    } else {
      PowerOfTwoTestBelowZero(m);
    }
  }

  method VerifyConsistency(h: Hasher, firstSize: int, firstRoot: Hash, secondSize: int, secondRoot: Hash,
                           path: seq<Hash>)
    returns (ok: bool)
    requires -TWO_31 <= firstSize && secondSize <= TWO_31
    ensures ok <==> ConsistencyAccepted(h, firstSize, firstRoot, secondSize, secondRoot, path)
  {
    hide Fold, FoldLeft, Sides, StrippedSides, ShiftRight1, LowBit, BitAnd, IsPow2, Walking, Stripping;
    if firstSize == 0 {
      return true;
    }
    if firstSize == secondSize {
      return |path| == 0 && firstRoot == secondRoot;
    }
    if firstSize > secondSize {
      return false;
    }
    TestOfFirstSize(firstSize);
    var nodes := path;
    if BitAnd(firstSize, firstSize - 1) == 0 {
      nodes := [firstRoot] + nodes;
    }
    if |nodes| == 0 {
      return false;
    }
    var fn, sn := firstSize - 1, secondSize - 1;
    ghost var s := if firstSize > 0 then StrippedSides(fn, sn) else TopSides(secondSize, path);
    ghost var top: nat := 31;
    StartsStripping(firstSize, secondSize, path, s);
    while LowBit(fn) == 1
      invariant Stripping(firstSize, secondSize, fn, sn, s, top)
      decreases if firstSize == -TWO_31 then top else if fn < 0 then -fn else fn
    {
      StripsOn(firstSize, secondSize, fn, sn, s, top);
      fn, sn := ShiftRight1(fn), ShiftRight1(sn);
      top := if firstSize == -TWO_31 then top - 1 else top;
    }
    StopsStripping(firstSize, secondSize, fn, sn, s, top);
    FoldNil(h, nodes[0]);
    var fr, sr := nodes[0], nodes[0];
    for i := 1 to |nodes|
      invariant Walking(firstSize, secondSize, fn, sn, s, i - 1)
      invariant Followed(firstSize) ==>
                  && i - 1 <= |s|
                  && fr == FoldLeft(h, s[..i - 1], nodes[0], nodes[1..][..i - 1])
                  && sr == Fold(h, s[..i - 1], nodes[0], nodes[1..][..i - 1])
    {
      var c := nodes[i];
      if sn == 0 {
        EndsEarly(firstSize, secondSize, fn, sn, s, i - 1);
        return false;
      }
      WalksOn(firstSize, secondSize, fn, sn, s, i - 1);
      if Followed(firstSize) {
        FoldNext(h, s, nodes[0], nodes[1..], i - 1);
      }
      if LowBit(fn) == 1 || fn == sn {
        fr, sr := h.node(c, fr), h.node(c, sr);
        if LowBit(fn) == 0 {
          while fn != 0 && LowBit(fn) == 0
            invariant Walking(firstSize, secondSize, fn, sn, s, i - 1)
            invariant firstSize != -TWO_31 && fn == sn != 0
            decreases if fn < 0 then -fn else fn
          {
            WalksOn(firstSize, secondSize, fn, sn, s, i - 1);
            fn, sn := ShiftRight1(fn), ShiftRight1(sn);
          }
          WalksOn(firstSize, secondSize, fn, sn, s, i - 1);
        }
      } else {
        sr := h.node(sr, c);
      }
      fn, sn := ShiftRight1(fn), ShiftRight1(sn);
    }
    assert nodes[1..][..|nodes| - 1] == nodes[1..];
    WalkEnds(firstSize, secondSize, fn, sn, s, |nodes| - 1);
    Verdict(h, firstSize, firstRoot, secondSize, secondRoot, path, nodes, s, fn, fr, sr);
    return fn == 0 && fr == firstRoot && sr == secondRoot;
  }
}
