/** What the custody graph conserves. */
module TraceGraph {
  import opened Hashing
  import opened TraceNodes
  import opened TraceEdges

  // ---------- sums ----------

  function SumBy<T(!new)>(s: seq<T>, f: T -> int): int {
    if s == [] then 0 else SumBy(s[..|s| - 1], f) + f(s[|s| - 1])
  }

  lemma {:induction false} SumSplits<T(!new)>(s: seq<T>, f: T -> int, g: T -> int, k: T -> int)
    requires forall x | x in s :: f(x) == g(x) + k(x)
    ensures SumBy(s, f) == SumBy(s, g) + SumBy(s, k)
  {
    if s != [] {
      SumSplits(s[..|s| - 1], f, g, k);
    }
  }

  lemma {:induction false} SumOfZeros<T(!new)>(s: seq<T>, f: T -> int)
    requires forall x | x in s :: f(x) == 0
    ensures SumBy(s, f) == 0
  {
    if s != [] {
      SumOfZeros(s[..|s| - 1], f);
    }
  }

  lemma {:induction false} SumOfOneTerm<T(!new)>(s: seq<T>, f: T -> int, i: nat)
    requires i < |s| && forall j | 0 <= j < |s| && j != i :: f(s[j]) == 0
    ensures SumBy(s, f) == f(s[i])
  {
    var front := s[..|s| - 1];
    if i == |s| - 1 {
      SumOfZeros(front, f);
    } else {
      SumOfOneTerm(front, f, i);
    }
  }

  /** The weight of the hops that satisfy p. */
  function Part(hops: seq<Hop>, weight: Hop -> int, p: Hop -> bool): int {
    if hops == [] then 0
    else
      var h := hops[|hops| - 1];
      Part(hops[..|hops| - 1], weight, p) + if p(h) then weight(h) else 0
  }

  /** Each hop that satisfies p belongs to exactly one item, each other hop to none. */
  ghost predicate Partitions<T(!new)>(hops: seq<Hop>, items: seq<T>, owns: (T, Hop) -> bool, p: Hop -> bool) {
    forall h | h in hops ::
      if p(h) then exists i :: IsOwner(items, owns, h, i) else forall x | x in items :: !owns(x, h)
  }

  ghost predicate IsOwner<T(!new)>(items: seq<T>, owns: (T, Hop) -> bool, h: Hop, i: int) {
    0 <= i < |items| && owns(items[i], h) && forall j | 0 <= j < |items| && j != i :: !owns(items[j], h)
  }

  function PartOf<T(!new)>(hops: seq<Hop>, weight: Hop -> int, owns: (T, Hop) -> bool): T -> int {
    (x: T) => Part(hops, weight, HopsOf(owns, x))
  }

  /** The hops that belong to the item. */
  function HopsOf<T(!new)>(owns: (T, Hop) -> bool, x: T): Hop -> bool {
    (h: Hop) => owns(x, h)
  }

  /** The parts of the items add up to the whole. */
  lemma {:induction false} PartsAddUp<T(!new)>(hops: seq<Hop>, items: seq<T>, weight: Hop -> int,
                                               owns: (T, Hop) -> bool, p: Hop -> bool)
    requires Partitions(hops, items, owns, p)
    ensures SumBy(items, PartOf(hops, weight, owns)) == Part(hops, weight, p)
  {
    var whole := PartOf(hops, weight, owns);
    if hops == [] {
      SumOfZeros(items, whole);
    } else {
      var front, h := hops[..|hops| - 1], hops[|hops| - 1];
      var earlier := PartOf(front, weight, owns);
      var last := (x: T) => if owns(x, h) then weight(h) else 0;
      PartsAddUp(front, items, weight, owns, p);
      SumSplits(items, whole, earlier, last);
      assert h in hops;
      if p(h) {
        var i :| IsOwner(items, owns, h, i);
        SumOfOneTerm(items, last, i);
      } else {
        SumOfZeros(items, last);
      }
    }
  }

  lemma {:induction false} SumSame<T(!new)>(s: seq<T>, f: T -> int, g: T -> int)
    requires forall x | x in s :: f(x) == g(x)
    ensures SumBy(s, f) == SumBy(s, g)
  {
    if s != [] {
      SumSame(s[..|s| - 1], f, g);
    }
  }

  // ---------- sums over hops as parts ----------

  function Liters(): Hop -> int {
    (h: Hop) => h.liters
  }

  function One(): Hop -> int {
    (h: Hop) => 1
  }

  function Every(): Hop -> bool {
    (h: Hop) => true
  }

  /** All litres ever moved. */
  function Total(hops: seq<Hop>): int {
    Part(hops, Liters(), Every())
  }

  lemma {:induction false} ReceivedIsPart(hops: seq<Hop>, a: string, p: Hop -> bool)
    requires forall h :: p(h) == (h.receiver == a)
    ensures Received(hops, a) == Part(hops, Liters(), p)
  {
    if hops != [] {
      ReceivedIsPart(hops[..|hops| - 1], a, p);
    }
  }

  lemma {:induction false} SentIsPart(hops: seq<Hop>, a: string, p: Hop -> bool)
    requires forall h :: p(h) == (h.sender == a)
    ensures Sent(hops, a) == Part(hops, Liters(), p)
  {
    if hops != [] {
      SentIsPart(hops[..|hops| - 1], a, p);
    }
  }

  lemma {:induction false} KeySumsAreParts(hops: seq<Hop>, k: string, p: Hop -> bool)
    requires forall h | h in hops :: p(h) == (KeyOf(h) == k)
    ensures KeyLiters(hops, k) == Part(hops, Liters(), p) && KeyCount(hops, k) == Part(hops, One(), p)
  {
    if hops != [] {
      KeySumsAreParts(hops[..|hops| - 1], k, p);
    }
  }

  lemma {:induction false} PartOfAll(hops: seq<Hop>)
    ensures Part(hops, One(), Every()) == |hops|
  {
    if hops != [] {
      PartOfAll(hops[..|hops| - 1]);
    }
  }

  lemma {:induction false} SameParts(hops: seq<Hop>, weight: Hop -> int, p: Hop -> bool, q: Hop -> bool)
    requires forall h | h in hops :: p(h) == q(h)
    ensures Part(hops, weight, p) == Part(hops, weight, q)
  {
    if hops != [] {
      SameParts(hops[..|hops| - 1], weight, p, q);
    }
  }

  // ---------- nodes ----------

  lemma NodeFor(hops: seq<Hop>, nodes: seq<Node>, h: Hop, a: string)
    requires NodesFit(hops, nodes) && h in hops && Touches(h, a)
    ensures exists i :: 0 <= i < |nodes| && nodes[i].id == a
  {
    FirstTouchIs(hops, a);
  }

  /** Over all nodes, the litres received, the litres sent and the litres moved are the same. */
  lemma LitersAreConserved(hops: seq<Hop>, nodes: seq<Node>)
    requires NodesFit(hops, nodes)
    ensures SumBy(nodes, (n: Node) => n.received) == Total(hops) == SumBy(nodes, (n: Node) => n.sent)
    ensures SumBy(nodes, (n: Node) => n.Balance()) == 0
  {
    AllReceived(hops, nodes);
    AllSent(hops, nodes);
    SumSplits(nodes, (n: Node) => n.received, (n: Node) => n.Balance(), (n: Node) => n.sent);
  }

  lemma AllReceived(hops: seq<Hop>, nodes: seq<Node>)
    requires NodesFit(hops, nodes)
    ensures SumBy(nodes, (n: Node) => n.received) == Total(hops)
  {
    var owns := (n: Node, h: Hop) => h.receiver == n.id;
    forall h | h in hops
      ensures exists i :: IsOwner(nodes, owns, h, i)
    {
      NodeFor(hops, nodes, h, h.receiver);
      var i :| 0 <= i < |nodes| && nodes[i].id == h.receiver;
      assert IsOwner(nodes, owns, h, i);
    }
    PartsAddUp(hops, nodes, Liters(), owns, Every());
    forall n | n in nodes
      ensures n.received == PartOf(hops, Liters(), owns)(n)
    {
      ReceivedIsPart(hops, n.id, HopsOf(owns, n));
    }
    SumSame(nodes, (n: Node) => n.received, PartOf(hops, Liters(), owns));
  }

  lemma AllSent(hops: seq<Hop>, nodes: seq<Node>)
    requires NodesFit(hops, nodes)
    ensures SumBy(nodes, (n: Node) => n.sent) == Total(hops)
  {
    var owns := (n: Node, h: Hop) => h.sender == n.id;
    forall h | h in hops
      ensures exists i :: IsOwner(nodes, owns, h, i)
    {
      NodeFor(hops, nodes, h, h.sender);
      var i :| 0 <= i < |nodes| && nodes[i].id == h.sender;
      assert IsOwner(nodes, owns, h, i);
    }
    PartsAddUp(hops, nodes, Liters(), owns, Every());
    forall n | n in nodes
      ensures n.sent == PartOf(hops, Liters(), owns)(n)
    {
      SentIsPart(hops, n.id, HopsOf(owns, n));
    }
    SumSame(nodes, (n: Node) => n.sent, PartOf(hops, Liters(), owns));
  }

  // ---------- edges ----------

  lemma EdgeFor(hops: seq<Hop>, edges: seq<Edge>, h: Hop) returns (i: nat)
    requires EdgesFit(hops, edges) && h in hops
    ensures i < |edges| && edges[i].Key() == KeyOf(h)
  {
    assert HasKey(hops, KeyOf(h));
    i :| i < |edges| && edges[i].Key() == KeyOf(h);
  }

  /** Aggregating loses no litre and no transfer. */
  lemma EdgesConserve(hops: seq<Hop>, edges: seq<Edge>)
    requires EdgesFit(hops, edges)
    ensures SumBy(edges, (e: Edge) => e.liters) == Total(hops)
    ensures SumBy(edges, (e: Edge) => e.count as int) == |hops|
  {
    hide KeyOf, Edge.Key, HasKey;
    var owns := (e: Edge, h: Hop) => KeyOf(h) == e.Key();
    forall h | h in hops
      ensures exists i :: IsOwner(edges, owns, h, i)
    {
      var i := EdgeFor(hops, edges, h);
      assert IsOwner(edges, owns, h, i);
    }
    PartsAddUp(hops, edges, Liters(), owns, Every());
    PartsAddUp(hops, edges, One(), owns, Every());
    PartOfAll(hops);
    forall e | e in edges
      ensures e.liters == PartOf(hops, Liters(), owns)(e)
      ensures e.count == PartOf(hops, One(), owns)(e)
    {
      KeySumsAreParts(hops, e.Key(), HopsOf(owns, e));
    }
    SumSame(edges, (e: Edge) => e.liters, PartOf(hops, Liters(), owns));
    SumSame(edges, (e: Edge) => e.count as int, PartOf(hops, One(), owns));
  }

  /** Addresses are hexadecimal, so none contains the arrow of a key. */
  predicate PlainAddresses(hops: seq<Hop>) {
    forall h | h in hops :: '-' !in h.sender && '-' !in h.receiver
  }

  lemma KeyDeterminesPair(a: string, b: string, c: string, d: string)
    requires '-' !in a && '-' !in c && a + "->" + b == c + "->" + d
    ensures a == c && b == d
  {
    var s, t := a + "->" + b, c + "->" + d;
    assert s[|a|] == '-' && t[|c|] == '-';
    assert |a| == |c|;
    assert a == s[..|a|] && c == t[..|c|];
    assert b == s[|a| + 2..] && d == t[|c| + 2..];
  }

  /** Without that, one edge could stand for two pairs. */
  lemma KeysCanCollide()
    ensures exists g: Hop, h: Hop :: KeyOf(g) == KeyOf(h) && g.sender != h.sender
  {
    var g, h := Hop(1, "a->b", "c", 0, ""), Hop(1, "a", "b->c", 0, "");
    assert KeyOf(g) == "a->b->c" == KeyOf(h);
  }

  lemma EdgePair(hops: seq<Hop>, e: Edge, h: Hop)
    requires EdgeFits(hops, e) && h in hops && PlainAddresses(hops)
    ensures KeyOf(h) == e.Key() <==> h.sender == e.source && h.receiver == e.target
  {
    var f :| FirstWithKey(hops, e.Key(), f) && e.source == f.sender && e.target == f.receiver && e.firstAt == f.at
             && e.sampleTxHash == f.txHash;
    assert f in hops;
    if KeyOf(h) == e.Key() {
      KeyDeterminesPair(h.sender, h.receiver, e.source, e.target);
    }
  }

  /** Every pair with a transfer has exactly one edge, which carries all litres and transfers of the pair. */
  lemma EdgesKeepPairs(hops: seq<Hop>, edges: seq<Edge>, h: Hop) returns (i: nat)
    requires EdgesFit(hops, edges) && PlainAddresses(hops) && h in hops
    ensures i < |edges| && edges[i].source == h.sender && edges[i].target == h.receiver
    ensures forall j | 0 <= j < |edges| && j != i :: edges[j].source != h.sender || edges[j].target != h.receiver
    ensures edges[i].liters == Part(hops, Liters(), (g: Hop) => g.sender == h.sender && g.receiver == h.receiver)
    ensures edges[i].count == Part(hops, One(), (g: Hop) => g.sender == h.sender && g.receiver == h.receiver)
  {
    i := EdgeFor(hops, edges, h);
    EdgePair(hops, edges[i], h);
    var p := (g: Hop) => g.sender == h.sender && g.receiver == h.receiver;
    forall g | g in hops
      ensures p(g) == (KeyOf(g) == edges[i].Key())
    {
      EdgePair(hops, edges[i], g);
    }
    KeySumsAreParts(hops, edges[i].Key(), p);
  }

  function Into(a: string): Edge -> int {
    (e: Edge) => if e.target == a then e.liters else 0
  }

  function OutOf(a: string): Edge -> int {
    (e: Edge) => if e.source == a then e.liters else 0
  }

  /** The balance of a node is what its aggregated edges bring in less what they take out. */
  lemma BalanceIsEdgeFlow(hops: seq<Hop>, edges: seq<Edge>, n: Node)
    requires EdgesFit(hops, edges) && PlainAddresses(hops) && NodeFits(hops, n)
    ensures n.Balance() == SumBy(edges, Into(n.id)) - SumBy(edges, OutOf(n.id))
  {
    InflowOfEdges(hops, edges, n.id);
    OutflowOfEdges(hops, edges, n.id);
  }

  lemma InflowOfEdges(hops: seq<Hop>, edges: seq<Edge>, a: string)
    requires EdgesFit(hops, edges) && PlainAddresses(hops)
    ensures SumBy(edges, Into(a)) == Received(hops, a)
  {
    hide KeyOf, Edge.Key, HasKey;
    var owns := (e: Edge, h: Hop) => e.target == a && KeyOf(h) == e.Key();
    var p := (h: Hop) => h.receiver == a;
    forall h | h in hops
      ensures if p(h) then exists i :: IsOwner(edges, owns, h, i) else forall e | e in edges :: !owns(e, h)
    {
      forall e | e in edges
        ensures KeyOf(h) == e.Key() ==> h.receiver == e.target
      {
        EdgePair(hops, e, h);
      }
      if p(h) {
        var i := EdgeFor(hops, edges, h);
        assert IsOwner(edges, owns, h, i);
      }
    }
    PartsAddUp(hops, edges, Liters(), owns, p);
    ReceivedIsPart(hops, a, p);
    forall e | e in edges
      ensures Into(a)(e) == PartOf(hops, Liters(), owns)(e)
    {
      EdgeLiters(hops, e, HopsOf(owns, e), e.target == a);
    }
    SumSame(edges, Into(a), PartOf(hops, Liters(), owns));
  }

  lemma OutflowOfEdges(hops: seq<Hop>, edges: seq<Edge>, a: string)
    requires EdgesFit(hops, edges) && PlainAddresses(hops)
    ensures SumBy(edges, OutOf(a)) == Sent(hops, a)
  {
    hide KeyOf, Edge.Key, HasKey;
    var owns := (e: Edge, h: Hop) => e.source == a && KeyOf(h) == e.Key();
    var p := (h: Hop) => h.sender == a;
    forall h | h in hops
      ensures if p(h) then exists i :: IsOwner(edges, owns, h, i) else forall e | e in edges :: !owns(e, h)
    {
      forall e | e in edges
        ensures KeyOf(h) == e.Key() ==> h.sender == e.source
      {
        EdgePair(hops, e, h);
      }
      if p(h) {
        var i := EdgeFor(hops, edges, h);
        assert IsOwner(edges, owns, h, i);
      }
    }
    PartsAddUp(hops, edges, Liters(), owns, p);
    SentIsPart(hops, a, p);
    forall e | e in edges
      ensures OutOf(a)(e) == PartOf(hops, Liters(), owns)(e)
    {
      EdgeLiters(hops, e, HopsOf(owns, e), e.source == a);
    }
    SumSame(edges, OutOf(a), PartOf(hops, Liters(), owns));
  }

  /** The litres of an edge are the part of the hops with its key. */
  lemma EdgeLiters(hops: seq<Hop>, e: Edge, p: Hop -> bool, counts: bool)
    requires EdgeFits(hops, e) && forall h :: p(h) == (counts && KeyOf(h) == e.Key())
    ensures Part(hops, Liters(), p) == if counts then e.liters else 0
  {
    if counts {
      KeySumsAreParts(hops, e.Key(), p);
    } else {
      PartOfNone(hops, p);
    }
  }

  lemma {:induction false} PartOfNone(hops: seq<Hop>, p: Hop -> bool)
    requires forall h :: !p(h)
    ensures Part(hops, Liters(), p) == 0
  {
    if hops != [] {
      PartOfNone(hops[..|hops| - 1], p);
    }
  }

  // ---------- legal histories ----------

  function BalanceIn(m: map<string, int>, a: string): int {
    if a in m then m[a] else 0
  }

  /** The balances after replaying the hops, or None if one of them moves litres its sender does not have;
      only the mint address may send what it never received. */
  function Replay(hops: seq<Hop>, mint: string): Option<map<string, int>> {
    if hops == [] then Some(map[])
    else
      var h := hops[|hops| - 1];
      match Replay(hops[..|hops| - 1], mint)
      case None => None
      case Some(m) =>
        if h.liters < 0 || (h.sender != mint && BalanceIn(m, h.sender) < h.liters) then None
        else
          var spent := m[h.sender := BalanceIn(m, h.sender) - h.liters];
          Some(spent[h.receiver := BalanceIn(spent, h.receiver) + h.liters])
  }

  /** For a legal history the balance of a node is the replayed one, and only mint can be negative. */
  lemma {:induction false} LegalBalance(hops: seq<Hop>, mint: string, a: string)
    requires Replay(hops, mint).Some?
    ensures Received(hops, a) - Sent(hops, a) == BalanceIn(Replay(hops, mint).value, a)
    ensures a != mint ==> Received(hops, a) - Sent(hops, a) >= 0
  {
    if hops != [] {
      LegalBalance(hops[..|hops| - 1], mint, a);
    }
  }

  lemma NodeOfLegalHistory(hops: seq<Hop>, mint: string, n: Node)
    requires Replay(hops, mint).Some? && NodeFits(hops, n)
    ensures n.Balance() == BalanceIn(Replay(hops, mint).value, n.id) && (n.id != mint ==> n.Balance() >= 0)
  {
    LegalBalance(hops, mint, n.id);
  }

  /** The address ever passed litres on. */
  ghost predicate Forwards(hops: seq<Hop>, a: string) {
    exists i | 0 <= i < |hops| :: hops[i].sender == a && hops[i].liters > 0
  }

  lemma {:induction false} SentIfForwards(hops: seq<Hop>, mint: string, a: string)
    requires Replay(hops, mint).Some?
    ensures Sent(hops, a) >= 0 && (Sent(hops, a) > 0 <==> Forwards(hops, a))
  {
    if hops != [] {
      var front, h := hops[..|hops| - 1], hops[|hops| - 1];
      SentIfForwards(front, mint, a);
      if Forwards(front, a) {
        var i :| 0 <= i < |front| && front[i].sender == a && front[i].liters > 0;
        assert hops[i] == front[i];
      } else {
        assert forall i | 0 <= i < |front| :: hops[i] == front[i];
      }
    }
  }

  /** The flags of a node after a legal history: a holder has litres and never passed any on, a
      pass-through has none left of those it passed on; no other node has a flag. */
  lemma FlagsOfLegalHistory(hops: seq<Hop>, mint: string, n: Node)
    requires Replay(hops, mint).Some? && NodeFits(hops, n)
    ensures var held := BalanceIn(Replay(hops, mint).value, n.id);
            && (n.IsCurrentHolder() <==> held > 0 && !Forwards(hops, n.id))
            && (n.IsPassThrough() <==> held == 0 && Forwards(hops, n.id))
  {
    hide Replay, Forwards;
    LegalBalance(hops, mint, n.id);
    SentIfForwards(hops, mint, n.id);
  }

  function HeldElsewhere(mint: string): Node -> int {
    (n: Node) => if n.id == mint then 0 else n.Balance()
  }

  /** What the other nodes hold together is exactly what was minted and not burnt. */
  lemma HeldIsMinted(hops: seq<Hop>, nodes: seq<Node>, mint: string)
    requires NodesFit(hops, nodes)
    ensures SumBy(nodes, HeldElsewhere(mint)) == Sent(hops, mint) - Received(hops, mint)
  {
    hide NodeFits;
    LitersAreConserved(hops, nodes);
    var atMint := (n: Node) => if n.id == mint then n.Balance() else 0;
    SumSplits(nodes, (n: Node) => n.Balance(), HeldElsewhere(mint), atMint);
    if FirstTouch(hops, mint) < |hops| {
      var i :| 0 <= i < |nodes| && nodes[i].id == mint;
      SumOfOneTerm(nodes, atMint, i);
      NodeTotals(hops, nodes[i]);
    } else {
      FirstTouchIs(hops, mint);
      UntouchedIsZero(hops, mint);
      forall n | n in nodes
        ensures n.id != mint
      {
        NodeTotals(hops, n);
      }
      SumOfZeros(nodes, atMint);
    }
  }

  lemma NodeTotals(hops: seq<Hop>, n: Node)
    requires NodeFits(hops, n)
    ensures n.Balance() == Received(hops, n.id) - Sent(hops, n.id) && FirstTouch(hops, n.id) < |hops|
  {
  }
}
