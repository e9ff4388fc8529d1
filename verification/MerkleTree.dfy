/** The Merkle tree of section 2.1 of RFC 6962, on lists of leaves. */
module MerkleTree {
  import opened Hashing
  import opened PowersOfTwo

  /** MTH(D[n]) */
  function Mth(h: Hasher, d: seq<Bytes>): Hash
    decreases |d|
  {
    if |d| == 0 then h.empty
    else if |d| == 1 then h.leaf(d[0])
    else
      var k := Split(|d|);
      h.node(Mth(h, d[..k]), Mth(h, d[k..]))
  }

  lemma MthSplit(h: Hasher, d: seq<Bytes>)
    requires |d| > 1
    ensures Mth(h, d) == h.node(Mth(h, d[..Split(|d|)]), Mth(h, d[Split(|d|)..]))
  {
  }

  lemma MthSmall(h: Hasher, d: seq<Bytes>)
    ensures |d| == 0 ==> Mth(h, d) == h.empty
    ensures |d| == 1 ==> Mth(h, d) == h.leaf(d[0])
  {
  }

  /** PATH(m, D[n]) of section 2.1.1 */
  function Path(h: Hasher, m: nat, d: seq<Bytes>): seq<Hash>
    requires m < |d|
    decreases |d|
  {
    if |d| == 1 then []
    else
      var k := Split(|d|);
      if m < k then Path(h, m, d[..k]) + [Mth(h, d[k..])]
      else Path(h, m - k, d[k..]) + [Mth(h, d[..k])]
  }

  /** SUBPROOF(m, D[n], b) of section 2.1.2 */
  function Subproof(h: Hasher, m: nat, d: seq<Bytes>, b: bool): seq<Hash>
    requires 0 < m <= |d|
    decreases |d|
  {
    if m == |d| then
      if b then [] else [Mth(h, d)]
    else
      var k := Split(|d|);
      if m <= k then Subproof(h, m, d[..k], b) + [Mth(h, d[k..])]
      else Subproof(h, m - k, d[k..], false) + [Mth(h, d[..k])]
  }

  lemma PathSplit(h: Hasher, m: nat, d: seq<Bytes>)
    requires m < |d|
    ensures |d| == 1 ==> Path(h, m, d) == []
    ensures |d| > 1 && m < Split(|d|) ==>
              Path(h, m, d) == Path(h, m, d[..Split(|d|)]) + [Mth(h, d[Split(|d|)..])]
    ensures |d| > 1 && m >= Split(|d|) ==>
              Path(h, m, d) == Path(h, m - Split(|d|), d[Split(|d|)..]) + [Mth(h, d[..Split(|d|)])]
  {
  }

  lemma SubproofSplit(h: Hasher, m: nat, d: seq<Bytes>, b: bool)
    requires 0 < m <= |d|
    ensures m == |d| ==> Subproof(h, m, d, b) == if b then [] else [Mth(h, d)]
    ensures m < |d| && m <= Split(|d|) ==>
              Subproof(h, m, d, b) == Subproof(h, m, d[..Split(|d|)], b) + [Mth(h, d[Split(|d|)..])]
    ensures m < |d| && m > Split(|d|) ==>
              Subproof(h, m, d, b) == Subproof(h, m - Split(|d|), d[Split(|d|)..], false) + [Mth(h, d[..Split(|d|)])]
  {
  }

  /** Every pair of hashes the tree feeds to its node hash. */
  function TreePairs(h: Hasher, d: seq<Bytes>): set<Pair>
    decreases |d|
  {
    if |d| <= 1 then {}
    else
      var k := Split(|d|);
      TreePairs(h, d[..k]) + TreePairs(h, d[k..]) + {(Mth(h, d[..k]), Mth(h, d[k..]))}
  }

  /** 2^e leaves followed by at most as many others: the tree of the ones to the left of the tree of the others.
      With MthSmall this fixes every root. */
  lemma MthOfConcatenation(h: Hasher, a: seq<Bytes>, b: seq<Bytes>, e: nat)
    requires |a| == Pow2(e) && 0 < |b| <= Pow2(e)
    ensures Mth(h, a + b) == h.node(Mth(h, a), Mth(h, b))
  {
    Pow2Step(e + 1);
    SplitUnique(|a + b|, e);
    assert (a + b)[..|a|] == a && (a + b)[|a|..] == b;
  }

  /** With SHA-256 the root of two leaves is the hash of 1 and the hashes of 0 and each of them, in order; of no
      leaf it is the hash of nothing. */
  lemma ShaRoots(sha: Bytes -> Hash, x: Bytes, y: Bytes)
    ensures Mth(Sha256Hasher(sha), []) == sha([])
    ensures Mth(Sha256Hasher(sha), [x]) == sha([0] + x)
    ensures Mth(Sha256Hasher(sha), [x, y]) == sha([1] + sha([0] + x) + sha([0] + y))
  {
    var h := Sha256Hasher(sha);
    assert Pow2(0) == 1;
    MthOfConcatenation(h, [x], [y], 0);
    MthSmall(h, [x]);
    MthSmall(h, [y]);
    assert [x] + [y] == [x, y];
  }
}
