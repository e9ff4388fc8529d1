/** Byte strings, 32-byte hashes, and the hash functions of the tree as unknown parameters. */
module Hashing {

  type Byte = b: int | 0 <= b < 256

  type Bytes = seq<Byte>

  type Hash = h: Bytes | |h| == 32 witness seq(32, _ => 0)

  datatype Option<+T> = None | Some(value: T)

  /** The three hash functions of RFC 6962. Nothing is known about them: every lemma holds for all. */
  datatype Hasher = Hasher(empty: Hash, leaf: Bytes -> Hash, node: (Hash, Hash) -> Hash)

  /** Two hashes handed to the node hash together. */
  type Pair = (Hash, Hash)

  /** No pair of `a` collides with a different pair of `b`. A whole 32-byte node hash is never
      injective, so collision freedom is asked only of the pairs that are really hashed. */
  ghost predicate CollisionFree(node: (Hash, Hash) -> Hash, a: set<Pair>, b: set<Pair>) {
    forall x, y | x in a && y in b :: node(x.0, x.1) == node(y.0, y.1) ==> x == y
  }

  // ---------- SHA-256 with the domain prefixes ----------

  /** The tree's hashes made from one byte-string hash: SHA256(), SHA256(0x00 || leaf) and
      SHA256(0x01 || left || right). */
  function Sha256Hasher(sha: Bytes -> Hash): Hasher {
    Hasher(sha([]), (d: Bytes) => sha([0] + d), (l: Hash, r: Hash) => sha([1] + l + r))
  }

  function NodeInput(p: Pair): Bytes {
    [1] + p.0 + p.1
  }

  /** With 32-byte operands the concatenation under the node hash can be split in one way only, so
      a collision of node hashes is a collision of SHA-256 on two different byte strings. */
  lemma NodeCollisionIsShaCollision(sha: Bytes -> Hash, a: set<Pair>, b: set<Pair>)
    requires forall x, y | x in a && y in b ::
               sha(NodeInput(x)) == sha(NodeInput(y)) ==> NodeInput(x) == NodeInput(y)
    ensures CollisionFree(Sha256Hasher(sha).node, a, b)
  {
    var h := Sha256Hasher(sha);
    forall x, y | x in a && y in b && h.node(x.0, x.1) == h.node(y.0, y.1)
      ensures x == y
    {
      var u, v := NodeInput(x), NodeInput(y);
      assert u == v;
      assert x.0 == u[1..33] && x.1 == u[33..];
      assert y.0 == v[1..33] && y.1 == v[33..];
    }
  }
}
