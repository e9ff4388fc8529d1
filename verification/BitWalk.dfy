/** The sequence of sides a proof entry stands on: read off the bits of two counters by the
    verifiers, read off the recursive split by the tree. The two are the same. */
module BitWalk {
  import opened PowersOfTwo

  /** On which side of the running hash the next proof entry is put. */
  datatype Side = Left | Right

  /** The walk of the verifiers from node `fn` in a level whose last node is `sn`: an odd node has
      its sibling on the left, an even one that is not the last on the right, and an even last node
      has none and moves up unchanged. */
  function Sides(fn: int, sn: nat): (s: seq<Side>)
    ensures sn > 0 <==> s != []
    decreases sn
  {
    if sn == 0 then []
    else if fn % 2 == 1 then [Left] + Sides(fn / 2, sn / 2)
    else if fn == sn then Sides(fn / 2, sn / 2)
    else [Right] + Sides(fn / 2, sn / 2)
  }

  /** The same sides from the recursive split of a tree of n leaves, for leaf m. */
  function SplitSides(m: nat, n: nat): seq<Side>
    requires m < n
    decreases n
  {
    if n == 1 then []
    else
      var k := Split(n);
      if m < k then SplitSides(m, k) + [Right] else SplitSides(m - k, n - k) + [Left]
  }

  /** The walk of the consistency verifiers: first both counters are shifted until `fn` is even. */
  function StrippedSides(fn: nat, sn: nat): seq<Side>
    decreases fn
  {
    if fn % 2 == 1 then StrippedSides(fn / 2, sn / 2) else Sides(fn, sn)
  }

  /** The sides of the consistency proof between m and n leaves, from the recursive split. */
  function SplitConsistencySides(m: nat, n: nat): seq<Side>
    requires 0 < m <= n
    decreases n
  {
    if m == n then []
    else
      var k := Split(n);
      if m <= k then SplitConsistencySides(m, k) + [Right]
      else SplitConsistencySides(m - k, n - k) + [Left]
  }

  lemma SidesUnfold(fn: int, sn: nat)
    requires sn > 0
    ensures fn % 2 == 1 ==> Sides(fn, sn)[0] == Left && Sides(fn, sn)[1..] == Sides(fn / 2, sn / 2)
    ensures fn % 2 == 0 && fn != sn ==> Sides(fn, sn)[0] == Right && Sides(fn, sn)[1..] == Sides(fn / 2, sn / 2)
    ensures fn % 2 == 0 && fn == sn ==> Sides(fn, sn) == Sides(fn / 2, sn / 2)
  {
  }

  lemma NoSides(fn: int)
    ensures Sides(fn, 0) == []
  {
  }

  /** One step of the walk: `i` of the sides `s` are behind, those from (fn, sn) on are ahead. */
  lemma SidesStep(fn: int, sn: nat, s: seq<Side>, i: nat)
    requires i <= |s| && Sides(fn, sn) == s[i..]
    ensures sn == 0 <==> i == |s|
    ensures sn > 0 && fn % 2 == 1 ==> s[i] == Left && Sides(fn / 2, sn / 2) == s[i + 1..]
    ensures sn > 0 && fn % 2 == 0 && fn != sn ==> s[i] == Right && Sides(fn / 2, sn / 2) == s[i + 1..]
    ensures sn > 0 && fn % 2 == 0 && fn == sn ==> fn / 2 > 0 && Sides(fn / 2, sn / 2) == s[i..]
  {
    hide Sides;
    if sn > 0 {
      SidesUnfold(fn, sn);
    }
    if i < |s| {
      assert s[i..] == [s[i]] + s[i + 1..];
      assert s[i..][1..] == s[i + 1..];
    }
  }

  // ---------- a node of the left subtree ----------

  /** Below level e the walk of a node in the left 2^e subtree does not see the rest of the tree. */
  lemma {:induction false} SidesInLeftSubtree(e: nat, a: nat, sn: nat)
    requires a < Pow2(e) <= sn
    ensures Sides(a, sn) == Sides(a, Pow2(e) - 1) + Sides(0, Shr(sn, e))
  {
    hide Sides, Pow2;
    Pow2Step(e);
    if e == 0 {
      NoSides(a);
    } else {
      var half := Pow2(e - 1);
      SidesInLeftSubtree(e - 1, a / 2, sn / 2);
      var low, high := Sides(a / 2, half - 1), Sides(0, Shr(sn, e));
      var first := if a % 2 == 1 then Left else Right;
      FirstSide(a, sn);
      FirstSide(a, 2 * half - 1);
      assert (2 * half - 1) / 2 == half - 1;
      assert [first] + (low + high) == ([first] + low) + high;
    }
  }

  lemma FirstSide(fn: nat, sn: nat)
    requires sn > 0 && (fn != sn || fn % 2 == 1)
    ensures Sides(fn, sn) == [if fn % 2 == 1 then Left else Right] + Sides(fn / 2, sn / 2)
  {
  }

  lemma {:induction false} StrippedSidesInLeftSubtree(e: nat, a: nat, sn: nat)
    requires a < Pow2(e) <= sn
    ensures StrippedSides(a, sn) == StrippedSides(a, Pow2(e) - 1) + Sides(0, Shr(sn, e))
  {
    if a % 2 == 1 {
      StrippedSidesInLeftSubtree(e - 1, a / 2, sn / 2);
      assert (Pow2(e) - 1) / 2 == Pow2(e - 1) - 1;
    } else {
      SidesInLeftSubtree(e, a, sn);
    }
  }

  /** Node 0 below a last node 1 is a left child. */
  lemma TopLeft(e: nat, sn: nat)
    requires Pow2(e) <= sn < 2 * Pow2(e)
    ensures Sides(0, Shr(sn, e)) == [Right]
  {
    ShrSmall(sn, e);
    assert Sides(0, 0) == [];
  }

  // ---------- a node of the right subtree ----------

  lemma {:induction false} SidesInRightSubtree(e: nat, a: nat, b: nat)
    requires a <= b < Pow2(e)
    ensures Sides(Pow2(e) + a, Pow2(e) + b) == Sides(a, b) + [Left]
  {
    if e == 0 {
      assert Sides(0, 0) == [];
    } else {
      SidesInRightSubtree(e - 1, a / 2, b / 2);
      assert (Pow2(e) + a) / 2 == Pow2(e - 1) + a / 2;
      assert (Pow2(e) + b) / 2 == Pow2(e - 1) + b / 2;
      assert (Pow2(e) + a) % 2 == a % 2;
    }
  }

  lemma {:induction false} StrippedSidesInRightSubtree(e: nat, a: nat, b: nat)
    requires a < b < Pow2(e)
    ensures StrippedSides(Pow2(e) + a, Pow2(e) + b) == StrippedSides(a, b) + [Left]
  {
    assert e > 0;
    assert (Pow2(e) + a) % 2 == a % 2;
    if a % 2 == 1 {
      StrippedSidesInRightSubtree(e - 1, a / 2, b / 2);
      assert (Pow2(e) + a) / 2 == Pow2(e - 1) + a / 2;
      assert (Pow2(e) + b) / 2 == Pow2(e - 1) + b / 2;
    } else {
      SidesInRightSubtree(e, a, b);
    }
  }

  // ---------- the bit walk is the recursive split ----------

  lemma {:induction false} SidesFollowSplit(m: nat, n: nat)
    requires m < n
    ensures Sides(m, n - 1) == SplitSides(m, n)
    decreases n
  {
    hide Pow2, SplitExp, Shr, Sides;
    NoSides(m);
    if n > 1 {
      var e, k := SplitExp(n), Split(n);
      if m < k {
        SidesFollowSplit(m, k);
        SidesInLeftSubtree(e, m, n - 1);
        TopLeft(e, n - 1);
      } else {
        SidesFollowSplit(m - k, n - k);
        SidesInRightSubtree(e, m - k, n - 1 - k);
      }
    }
  }

  lemma {:induction false} StrippedSidesOfFullTree(e: nat)
    ensures StrippedSides(Pow2(e) - 1, Pow2(e) - 1) == []
  {
    if e > 0 {
      StrippedSidesOfFullTree(e - 1);
      assert (Pow2(e) - 1) / 2 == Pow2(e - 1) - 1;
    }
  }

  lemma {:induction false} StrippedSidesFollowSplit(m: nat, n: nat)
    requires 0 < m < n || (0 < m == n && IsPow2(n))
    ensures StrippedSides(m - 1, n - 1) == SplitConsistencySides(m, n)
    decreases n
  {
    hide Pow2, SplitExp, Shr, Sides, StrippedSides;
    if m == n {
      var e := IsPow2Exponent(n);
      StrippedSidesOfFullTree(e);
    } else {
      var e, k := SplitExp(n), Split(n);
      Pow2IsPow2(e);
      if m <= k {
        StrippedSidesFollowSplit(m, k);
        StrippedSidesInLeftSubtree(e, m - 1, n - 1);
        TopLeft(e, n - 1);
      } else {
        StrippedSidesFollowSplit(m - k, n - k);
        StrippedSidesInRightSubtree(e, m - k - 1, n - k - 1);
      }
    }
  }

  // ---------- lengths ----------

  lemma {:induction false} SidesBounded(fn: int, sn: nat, t: nat)
    requires sn < Pow2(t)
    ensures |Sides(fn, sn)| <= t
    decreases sn
  {
    if sn > 0 {
      SidesBounded(fn / 2, sn / 2, t - 1);
    }
  }

  lemma {:induction false} StrippedSidesBounded(fn: nat, sn: nat, t: nat)
    requires sn < Pow2(t)
    ensures |StrippedSides(fn, sn)| <= t
    decreases fn
  {
    if fn % 2 == 1 {
      StrippedSidesBounded(fn / 2, sn / 2, if t > 0 then t - 1 else 0);
    } else {
      SidesBounded(fn, sn, t);
    }
  }

  /** The walk stands on node 0 exactly when no left side is left. */
  lemma {:induction false} NoLeftMeansZero(fn: nat, sn: nat)
    requires fn <= sn
    ensures Left !in Sides(fn, sn) <==> fn == 0
    decreases sn
  {
    if sn > 0 {
      NoLeftMeansZero(fn / 2, sn / 2);
    }
  }
}
