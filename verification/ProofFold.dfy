/** Rebuilding a root from a starting hash, a list of sides and the proof entries. */
module ProofFold {
  import opened Hashing
  import opened BitWalk

  /** The running hash joined with one proof entry. */
  function Join(h: Hasher, side: Side, r: Hash, c: Hash): Hash {
    match side
    case Left => h.node(c, r)
    case Right => h.node(r, c)
  }

  /** The root over all entries: `r` of the inclusion walk, `sr` of the consistency walk. */
  function Fold(h: Hasher, s: seq<Side>, r: Hash, path: seq<Hash>): Hash
    requires |s| == |path|
  {
    var i := |s| - 1;
    if i < 0 then r else Join(h, s[i], Fold(h, s[..i], r, path[..i]), path[i])
  }

  /** The root over the entries on the left only: `fr` of the consistency walk. */
  function FoldLeft(h: Hasher, s: seq<Side>, r: Hash, path: seq<Hash>): Hash
    requires |s| == |path|
  {
    var i := |s| - 1;
    if i < 0 then r
    else
      var f := FoldLeft(h, s[..i], r, path[..i]);
      if s[i] == Left then h.node(path[i], f) else f
  }

  /** Every pair the fold feeds to the node hash. */
  function FoldPairs(h: Hasher, s: seq<Side>, r: Hash, path: seq<Hash>): set<Pair>
    requires |s| == |path|
  {
    var i := |s| - 1;
    if i < 0 then {}
    else
      var f := Fold(h, s[..i], r, path[..i]);
      FoldPairs(h, s[..i], r, path[..i]) + {if s[i] == Left then (path[i], f) else (f, path[i])}
  }

  lemma FoldNil(h: Hasher, r: Hash)
    ensures Fold(h, [], r, []) == FoldLeft(h, [], r, []) == r
  {
  }

  lemma FoldSnoc(h: Hasher, s: seq<Side>, side: Side, r: Hash, path: seq<Hash>, c: Hash)
    requires |s| == |path|
    ensures Fold(h, s + [side], r, path + [c]) == Join(h, side, Fold(h, s, r, path), c)
    ensures FoldLeft(h, s + [side], r, path + [c])
         == if side == Left then h.node(c, FoldLeft(h, s, r, path)) else FoldLeft(h, s, r, path)
    ensures FoldPairs(h, s + [side], r, path + [c])
         == FoldPairs(h, s, r, path)
          + {if side == Left then (c, Fold(h, s, r, path)) else (Fold(h, s, r, path), c)}
  {
    assert (s + [side])[..|s|] == s;
    assert (path + [c])[..|path|] == path;
  }

  /** One more entry read: the fold over the first i + 1 entries from the fold over the first i. */
  lemma FoldNext(h: Hasher, s: seq<Side>, r: Hash, path: seq<Hash>, i: nat)
    requires i < |s| && i < |path|
    ensures var f := Fold(h, s[..i], r, path[..i]);
            Fold(h, s[..i + 1], r, path[..i + 1]) == Join(h, s[i], f, path[i])
    ensures var f := FoldLeft(h, s[..i], r, path[..i]);
            FoldLeft(h, s[..i + 1], r, path[..i + 1]) == if s[i] == Left then h.node(path[i], f) else f
  {
    FoldSnoc(h, s[..i], s[i], r, path[..i], path[i]);
    hide Fold, FoldLeft, FoldPairs;
    assert s[..i + 1] == s[..i] + [s[i]];
    assert path[..i + 1] == path[..i] + [path[i]];
  }

  /** The walk over `nodes` ends on these two roots, starting both from its first hash. */
  predicate FoldsTo(h: Hasher, s: seq<Side>, nodes: seq<Hash>, first: Hash, second: Hash) {
    && |nodes| == |s| + 1
    && FoldLeft(h, s, nodes[0], nodes[1..]) == first
    && Fold(h, s, nodes[0], nodes[1..]) == second
  }

  lemma FoldsToSnoc(h: Hasher, s: seq<Side>, nodes: seq<Hash>, first: Hash, second: Hash, side: Side, c: Hash)
    requires FoldsTo(h, s, nodes, first, second)
    ensures FoldsTo(h, s + [side], nodes + [c], if side == Left then h.node(c, first) else first,
                    Join(h, side, second, c))
  {
    hide Fold, FoldLeft;
    FoldSnoc(h, s, side, nodes[0], nodes[1..], c);
    assert (nodes + [c])[1..] == nodes[1..] + [c];
  }

  /** If the fold ends on the node hash of l and r, and that pair is free of collisions, its last
      step was the hash of l and r. */
  lemma LastStepDetermined(h: Hasher, s: seq<Side>, side: Side, r: Hash, path: seq<Hash>, left: Hash, right: Hash,
                           tree: set<Pair>)
    requires |s| + 1 == |path|
    requires Fold(h, s + [side], r, path) == h.node(left, right)
    requires CollisionFree(h.node, FoldPairs(h, s + [side], r, path), tree) && (left, right) in tree
    ensures path == path[..|s|] + [if side == Left then left else right]
    ensures Fold(h, s, r, path[..|s|]) == if side == Left then right else left
    ensures CollisionFree(h.node, FoldPairs(h, s, r, path[..|s|]), tree)
  {
    var front, c := path[..|s|], path[|s|];
    assert path == front + [c];
    FoldSnoc(h, s, side, r, front, c);
    hide Fold, FoldPairs;
    var f := Fold(h, s, r, front);
    var x := if side == Left then (c, f) else (f, c);
    assert x in FoldPairs(h, s + [side], r, path);
    assert x == (left, right);
  }

  /** Entries on the right leave the first root alone. */
  lemma {:induction false} FoldLeftOverRights(h: Hasher, s: seq<Side>, r: Hash, path: seq<Hash>)
    requires |s| == |path| && Left !in s
    ensures FoldLeft(h, s, r, path) == r
  {
    var i := |s| - 1;
    if i >= 0 {
      FoldLeftOverRights(h, s[..i], r, path[..i]);
    }
  }
}
