/** The keccak tree of the anchor worker: level by level, the last node of an odd level doubled. */
module AnchorTree {
  import opened Hashing
  import opened Encoding
  import opened PowersOfTwo

  /** keccak256, unknown. */
  type Keccak = Bytes -> Hash

  function Node(keccak: Keccak, a: Hash, b: Hash): Hash {
    keccak(a + b)
  }

  /** Leaves that are not 32 bytes long are hashed first. */
  function LeafNode(keccak: Keccak, leaf: Bytes): Hash {
    if |leaf| == 32 then leaf else keccak(leaf)
  }

  function LeafNodes(keccak: Keccak, leaves: seq<Bytes>): (level: seq<Hash>)
    ensures |level| == |leaves|
  {
    seq(|leaves|, (i: nat) requires i < |leaves| => LeafNode(keccak, leaves[i]))
  }

  // ---------- the tree from the top ----------

  /** Node `i` at height `e` over the nodes `level`. */
  function Subtree(keccak: Keccak, level: seq<Hash>, e: nat, i: nat): Hash
    requires level != [] && i <= Shr(|level| - 1, e)
    decreases e, 0
  {
    if e == 0 then level[i] else
      var p := Children(keccak, level, e, i);
      Node(keccak, p.0, p.1)
  }

  /** Its two children: a right child beyond the last node of its level is a copy of the left one. */
  function Children(keccak: Keccak, level: seq<Hash>, e: nat, i: nat): Pair
    requires level != [] && e > 0 && i <= Shr(|level| - 1, e)
    decreases e - 1, 1
  {
    ShrStep(|level| - 1, e - 1);
    var l := Subtree(keccak, level, e - 1, 2 * i);
    (l, if 2 * i + 1 <= Shr(|level| - 1, e - 1) then Subtree(keccak, level, e - 1, 2 * i + 1) else l)
  }

  /** The least e with n <= 2^e. */
  function Height(n: nat): (e: nat)
    requires n > 0
    ensures n <= Pow2(e) && (e > 0 ==> Pow2(e - 1) < n)
  {
    if n == 1 then 0 else SplitExp(n) + 1
  }

  function Root(keccak: Keccak, level: seq<Hash>): Hash
    requires level != []
  {
    Subtree(keccak, level, Height(|level|), 0)
  }

  // ---------- the level loop ----------

  datatype RootResult = EmptyLeafSet | Merkle(root: Hash, leafCount: nat)

  /** All nodes at height e. */
  ghost predicate IsLevel(keccak: Keccak, base: seq<Hash>, e: nat, level: seq<Hash>)
    requires base != []
  {
    && |level| == Shr(|base| - 1, e) + 1
    && forall i | 0 <= i < |level| :: level[i] == Subtree(keccak, base, e, i)
  }

  method MerkleRoot(keccak: Keccak, leaves: seq<Bytes>) returns (r: RootResult)
    ensures leaves == [] ==> r == EmptyLeafSet
    ensures leaves != [] ==> r == Merkle(Root(keccak, LeafNodes(keccak, leaves)), |leaves|)
  {
    hide Shr, Pow2, SplitExp, Node;
    if |leaves| == 0 {
      return EmptyLeafSet;
    }
    var level := LeafNodes(keccak, leaves);
    ghost var base, e := level, 0;
    ShrZero(|base| - 1);
    while |level| > 1
      invariant IsLevel(keccak, base, e, level)
      invariant e > 0 ==> Shr(|base| - 1, e - 1) > 0
      decreases |level|
    {
      ghost var n := |level|;
      if |level| % 2 == 1 {
        level := level + [level[|level| - 1]];
      }
      var next: seq<Hash> := [];
      ShrStep(|base| - 1, e);
      for i := 0 to |level| / 2
        invariant |next| == i
        invariant forall j | 0 <= j < i :: next[j] == Node(keccak, level[2 * j], level[2 * j + 1])
      {
        next := next + [Node(keccak, level[2 * i], level[2 * i + 1])];
      }
      forall j | 0 <= j < |next|
        ensures next[j] == Subtree(keccak, base, e + 1, j)
      {
        assert level[2 * j] == Subtree(keccak, base, e, 2 * j);
      }
      level := next;
      e := e + 1;
    }
    HeightIsTop(|base|, e);
    return Merkle(level[0], |leaves|);
  }

  lemma ShrZero(x: nat)
    ensures Shr(x, 0) == x
  {
  }

  lemma HeightIsTop(n: nat, e: nat)
    requires n > 0 && Shr(n - 1, e) == 0 && (e > 0 ==> Shr(n - 1, e - 1) > 0)
    ensures Height(n) == e
  {
    ShrSmall(n - 1, e);
    var t := Height(n);
    if e > 0 {
      ShrSmall(n - 1, e - 1);
      if t < e {
        Pow2Monotone(t, e - 1);
      }
    }
    if e < t {
      Pow2Monotone(e, t - 1);
    }
  }

  // ---------- what the root binds ----------

  /** Every pair hashed below node i at height e. */
  function SubtreePairs(keccak: Keccak, level: seq<Hash>, e: nat, i: nat): (p: set<Pair>)
    requires level != [] && i <= Shr(|level| - 1, e)
    decreases e
  {
    if e == 0 then {}
    else
      ShrStep(|level| - 1, e - 1);
      var own, left := Children(keccak, level, e, i), SubtreePairs(keccak, level, e - 1, 2 * i);
      if 2 * i + 1 <= Shr(|level| - 1, e - 1) then
        {own} + left + SubtreePairs(keccak, level, e - 1, 2 * i + 1)
      else
        {own} + left
  }

  function RootPairs(keccak: Keccak, level: seq<Hash>): set<Pair>
    requires level != []
  {
    SubtreePairs(keccak, level, Height(|level|), 0)
  }

  function NodeHash(keccak: Keccak): (Hash, Hash) -> Hash {
    (l: Hash, r: Hash) => Node(keccak, l, r)
  }

  /** Two lists of one length: below equal nodes at one place all leaves are equal. */
  lemma {:induction false} EqualSubtrees(keccak: Keccak, a: seq<Hash>, b: seq<Hash>, e: nat, i: nat, k: nat)
    requires |a| == |b| > 0 && i <= Shr(|a| - 1, e)
    requires Subtree(keccak, a, e, i) == Subtree(keccak, b, e, i)
    requires CollisionFree(NodeHash(keccak), SubtreePairs(keccak, a, e, i), SubtreePairs(keccak, b, e, i))
    requires k < |a| && Shr(k, e) == i
    ensures a[k] == b[k]
    decreases e
  {
    hide SubtreePairs, Shr, Node;
    ShrZero(k);
    if e > 0 {
      ShrStep(|a| - 1, e - 1);
      ShrStep(k, e - 1);
      ShrMonotone(k, |a| - 1, e - 1);
      EqualChildren(keccak, a, b, e, i, Shr(k, e - 1));
      EqualSubtrees(keccak, a, b, e - 1, Shr(k, e - 1), k);
    }
  }

  lemma EqualChildren(keccak: Keccak, a: seq<Hash>, b: seq<Hash>, e: nat, i: nat, j: nat)
    requires |a| == |b| > 0 && e > 0 && i <= Shr(|a| - 1, e)
    requires 2 * i <= j <= 2 * i + 1 && j <= Shr(|a| - 1, e - 1)
    requires Subtree(keccak, a, e, i) == Subtree(keccak, b, e, i)
    requires CollisionFree(NodeHash(keccak), SubtreePairs(keccak, a, e, i), SubtreePairs(keccak, b, e, i))
    ensures Children(keccak, a, e, i) == Children(keccak, b, e, i)
    ensures CollisionFree(NodeHash(keccak), SubtreePairs(keccak, a, e - 1, j), SubtreePairs(keccak, b, e - 1, j))
  {
    ShrStep(|a| - 1, e - 1);
    var x, y := Children(keccak, a, e, i), Children(keccak, b, e, i);
    assert x in SubtreePairs(keccak, a, e, i) && y in SubtreePairs(keccak, b, e, i);
    assert NodeHash(keccak)(x.0, x.1) == NodeHash(keccak)(y.0, y.1);
    hide Children, Subtree;
    assert SubtreePairs(keccak, a, e - 1, j) <= SubtreePairs(keccak, a, e, i);
    assert SubtreePairs(keccak, b, e - 1, j) <= SubtreePairs(keccak, b, e, i);
  }

  lemma {:induction false} ShrMonotone(x: nat, y: nat, e: nat)
    requires x <= y
    ensures Shr(x, e) <= Shr(y, e)
  {
    if e > 0 {
      ShrMonotone(x / 2, y / 2, e - 1);
    }
  }

  /** Lists of one length with one root are equal, unless two different pairs hashed for them collide. */
  lemma RootBindsListsOfOneLength(keccak: Keccak, a: seq<Hash>, b: seq<Hash>)
    requires |a| == |b| > 0 && Root(keccak, a) == Root(keccak, b)
    requires CollisionFree(NodeHash(keccak), RootPairs(keccak, a), RootPairs(keccak, b))
    ensures a == b
  {
    var e := Height(|a|);
    ShrSmall(|a| - 1, e);
    forall k | 0 <= k < |a|
      ensures a[k] == b[k]
    {
      ShrSmall(k, e);
      EqualSubtrees(keccak, a, b, e, 0, k);
    }
  }

  /** The top of e levels of nodes with two equal children, over x. */
  function Tower(keccak: Keccak, x: Hash, e: nat): Hash {
    if e == 0 then x
    else
      var below := Tower(keccak, x, e - 1);
      keccak(below + below)
  }

  lemma {:induction false} TowerOfTower(keccak: Keccak, x: Hash, d: nat, e: nat)
    ensures Tower(keccak, Tower(keccak, x, d), e) == Tower(keccak, x, d + e)
  {
    if e > 0 {
      TowerOfTower(keccak, x, d, e - 1);
    }
  }

  lemma {:induction false} ConstantSubtree(keccak: Keccak, level: seq<Hash>, x: Hash, e: nat, i: nat)
    requires level != [] && i <= Shr(|level| - 1, e)
    requires forall j | 0 <= j < |level| :: level[j] == x
    ensures Subtree(keccak, level, e, i) == Tower(keccak, x, e)
    decreases e
  {
    if e > 0 {
      ShrStep(|level| - 1, e - 1);
      ConstantSubtree(keccak, level, x, e - 1, 2 * i);
      if 2 * i + 1 <= Shr(|level| - 1, e - 1) {
        ConstantSubtree(keccak, level, x, e - 1, 2 * i + 1);
      }
    }
  }

  function Copies(x: Hash, n: nat): (s: seq<Hash>)
    ensures |s| == n && forall j | 0 <= j < n :: s[j] == x
  {
    seq(n, (i: nat) => x)
  }

  lemma RootOfCopies(keccak: Keccak, x: Hash, n: nat)
    requires n > 0
    ensures Root(keccak, Copies(x, n)) == Tower(keccak, x, Height(n))
  {
    ShrSmall(n - 1, Height(n));
    ConstantSubtree(keccak, Copies(x, n), x, Height(n), 0);
  }

  /** The root alone never tells the length: for every hash and every two lengths there is a list of
      each with the same root. */
  lemma RootDoesNotBindLength(keccak: Keccak, x: Hash, p: nat, q: nat) returns (a: seq<Hash>, b: seq<Hash>)
    requires p > 0 && q > 0
    ensures |a| == p && |b| == q && Root(keccak, a) == Root(keccak, b)
  {
    var d, e := Height(p), Height(q);
    if d <= e {
      a, b := Copies(Tower(keccak, x, e - d), p), Copies(x, q);
      RootOfCopies(keccak, Tower(keccak, x, e - d), p);
      RootOfCopies(keccak, x, q);
      TowerOfTower(keccak, x, e - d, d);
    } else {
      a, b := Copies(x, p), Copies(Tower(keccak, x, d - e), q);
      RootOfCopies(keccak, x, p);
      RootOfCopies(keccak, Tower(keccak, x, d - e), q);
      TowerOfTower(keccak, x, d - e, e);
    }
  }

  /** Three leaves and the same three with the last one doubled. */
  lemma DoubledLastLeaf(keccak: Keccak, a: Hash, b: Hash, c: Hash)
    ensures Root(keccak, [a, b, c]) == Root(keccak, [a, b, c, c])
  {
    assert Height(3) == 2 && Height(4) == 2;
    var s, t := [a, b, c], [a, b, c, c];
    assert Shr(2, 2) == 0 && Shr(2, 1) == 1 && Shr(3, 2) == 0 && Shr(3, 1) == 1;
    assert Subtree(keccak, s, 1, 0) == Subtree(keccak, t, 1, 0);
    assert Subtree(keccak, s, 1, 1) == Subtree(keccak, t, 1, 1);
  }

  // ---------- the root as concatenations ----------

  lemma {:induction false} ShrOfSum(e: nat, x: nat, f: nat)
    requires f <= e
    ensures Shr(Pow2(e) + x, f) == Pow2(e - f) + Shr(x, f)
  {
    if f > 0 {
      ShrStep(Pow2(e) + x, f - 1);
      ShrStep(x, f - 1);
      ShrOfSum(e, x, f - 1);
      Pow2Step(e - f + 1);
    }
  }

  /** Below node i of a full left half the other half plays no part. */
  lemma {:induction false} LeftHalf(keccak: Keccak, a: seq<Hash>, b: seq<Hash>, e: nat, f: nat, i: nat)
    requires |a| == Pow2(e) && f <= e && i < Pow2(e - f)
    ensures i <= Shr(|a| - 1, f) && i <= Shr(|a + b| - 1, f)
    ensures Subtree(keccak, a + b, f, i) == Subtree(keccak, a, f, i)
    decreases f
  {
    FullLevel(e, f);
    ShrMonotone(|a| - 1, |a + b| - 1, f);
    if f > 0 {
      Pow2Step(e - f + 1);
      FullLevel(e, f - 1);
      ShrMonotone(|a| - 1, |a + b| - 1, f - 1);
      LeftHalf(keccak, a, b, e, f - 1, 2 * i);
      LeftHalf(keccak, a, b, e, f - 1, 2 * i + 1);
    }
  }

  /** The last node at height f over 2^e leaves. */
  lemma {:induction false} FullLevel(e: nat, f: nat)
    requires f <= e
    ensures Shr(Pow2(e) - 1, f) == Pow2(e - f) - 1
  {
    if f > 0 {
      FullLevel(e, f - 1);
      ShrStep(Pow2(e) - 1, f - 1);
      Pow2Step(e - f + 1);
    }
  }

  lemma {:induction false} RightHalf(keccak: Keccak, a: seq<Hash>, b: seq<Hash>, e: nat, f: nat, i: nat)
    requires |a| == Pow2(e) && b != [] && f <= e && i <= Shr(|b| - 1, f)
    ensures Pow2(e - f) + i <= Shr(|a + b| - 1, f)
    ensures Subtree(keccak, a + b, f, Pow2(e - f) + i) == Subtree(keccak, b, f, i)
    decreases f
  {
    ShrOfSum(e, |b| - 1, f);
    if f > 0 {
      Pow2Step(e - f + 1);
      ShrOfSum(e, |b| - 1, f - 1);
      ShrStep(|b| - 1, f - 1);
      RightHalf(keccak, a, b, e, f - 1, 2 * i);
      if 2 * i + 1 <= Shr(|b| - 1, f - 1) {
        RightHalf(keccak, a, b, e, f - 1, 2 * i + 1);
      }
    }
  }

  /** Above its own height a list is doubled up. */
  lemma {:induction false} AboveTheRoot(keccak: Keccak, b: seq<Hash>, e: nat)
    requires b != [] && Height(|b|) <= e
    ensures Shr(|b| - 1, e) == 0
    ensures Subtree(keccak, b, e, 0) == Tower(keccak, Root(keccak, b), e - Height(|b|))
  {
    ShrSmall(|b| - 1, Height(|b|));
    if e > Height(|b|) {
      AboveTheRoot(keccak, b, e - 1);
      ShrStep(|b| - 1, e - 1);
    }
  }

  lemma HeightAtMost(n: nat, e: nat)
    requires 0 < n <= Pow2(e)
    ensures Height(n) <= e
  {
    if Height(n) > e {
      Pow2Monotone(e, Height(n) - 1);
    }
  }

  lemma HeightOfSum(e: nat, n: nat)
    requires Pow2(e) < n <= 2 * Pow2(e)
    ensures Height(n) == e + 1
  {
    Pow2Step(e + 1);
    hide Shr, Pow2, Height;
    ShrSmall(n - 1, e + 1);
    ShrSmall(n - 1, e);
    HeightIsTop(n, e + 1);
  }

  /** The root of 2^e nodes followed by at most as many others is the hash of both roots, left before right; the
      root of the others is first hashed with itself up to the same height. With the root of a single node this
      fixes every root. */
  lemma RootOfConcatenation(keccak: Keccak, a: seq<Hash>, b: seq<Hash>, e: nat)
    requires |a| == Pow2(e) && 0 < |b| <= Pow2(e)
    ensures Height(|b|) <= e
    ensures Root(keccak, a + b)
         == keccak(Root(keccak, a) + Tower(keccak, Root(keccak, b), e - Height(|b|)))
  {
    hide Tower, Shr, Pow2, Height, SplitExp;
    HeightAtMost(|b|, e);
    HeightOfSum(e, |a + b|);
    OwnHeight(e);
    PowZero();
    LeftHalf(keccak, a, b, e, e, 0);
    RightHalf(keccak, a, b, e, e, 0);
    AboveTheRoot(keccak, b, e);
    assert Root(keccak, a + b) == Subtree(keccak, a + b, e + 1, 0);
    assert Children(keccak, a + b, e + 1, 0) == (Subtree(keccak, a + b, e, 0), Subtree(keccak, a + b, e, 1));
  }

  lemma PowZero()
    ensures Pow2(0) == 1
  {
  }

  lemma OwnHeight(e: nat)
    ensures Height(Pow2(e)) == e
  {
    HeightAtMost(Pow2(e), e);
    if Height(Pow2(e)) < e {
      Pow2Monotone(Height(Pow2(e)), e);
    }
  }

  /** The root of one node is that node, of two the hash of their concatenation. */
  lemma RootOfFew(keccak: Keccak, x: Hash, y: Hash)
    ensures Root(keccak, [x]) == x && Root(keccak, [x, y]) == keccak(x + y)
  {
    RootOfConcatenation(keccak, [x], [y], 0);
    assert [x] + [y] == [x, y];
  }

  // ---------- leaves from events ----------

  /** keccak256 of the transaction hash and the log index as four big-endian bytes; a larger index
      is reduced to its low 32 bits. */
  function EventBytes(txHash: Hash, logIndex: nat): Bytes {
    txHash + BigEndian(logIndex % TWO_32, 4)
  }

  function LeafFromEvent(keccak: Keccak, txHash: Hash, logIndex: nat): Hash {
    keccak(EventBytes(txHash, logIndex))
  }

  lemma FourBytes()
    ensures Pow256(4) == TWO_32
  {
    assert Pow256(2) == 65536;
  }

  lemma EventBytesInjective(txHash: Hash, logIndex: nat, txHash': Hash, logIndex': nat)
    requires logIndex < TWO_32 && logIndex' < TWO_32
    requires EventBytes(txHash, logIndex) == EventBytes(txHash', logIndex')
    ensures txHash == txHash' && logIndex == logIndex'
  {
    hide BigEndian, FromBigEndian, Pow256;
    var u, v := EventBytes(txHash, logIndex), EventBytes(txHash', logIndex');
    FourBytes();
    assert txHash == u[..32] && txHash' == v[..32];
    assert BigEndian(logIndex, 4) == u[32..] && BigEndian(logIndex', 4) == v[32..];
    BigEndianRoundTrip(logIndex, 4);
    BigEndianRoundTrip(logIndex', 4);
  }
}
