/** The aggregated edges of the custody graph: parallel hops under one text key. */
module TraceEdges {
  import opened TraceNodes

  datatype Edge = Edge(source: string, target: string, liters: int, count: nat, firstAt: int, lastAt: int,
                       sampleTxHash: string) {
    function Key(): string {
      source + "->" + target
    }

    function Merge(h: Hop): Edge {
      this.(liters := liters + h.liters, count := count + 1, lastAt := if h.at > lastAt then h.at else lastAt)
    }
  }

  function KeyOf(h: Hop): string {
    h.sender + "->" + h.receiver
  }

  function KeyLiters(hops: seq<Hop>, k: string): int {
    if hops == [] then 0
    else
      var h := hops[|hops| - 1];
      KeyLiters(hops[..|hops| - 1], k) + if KeyOf(h) == k then h.liters else 0
  }

  function KeyCount(hops: seq<Hop>, k: string): nat {
    if hops == [] then 0
    else KeyCount(hops[..|hops| - 1], k) + if KeyOf(hops[|hops| - 1]) == k then 1 else 0
  }

  /** The first hop of the list with the key. */
  ghost predicate FirstWithKey(hops: seq<Hop>, k: string, h: Hop) {
    exists i | 0 <= i < |hops| :: hops[i] == h && KeyOf(h) == k && forall j | 0 <= j < i :: KeyOf(hops[j]) != k
  }

  ghost predicate HasKey(hops: seq<Hop>, k: string) {
    exists i | 0 <= i < |hops| :: KeyOf(hops[i]) == k
  }

  /** The index of that hop, or the number of hops. */
  function FirstUse(hops: seq<Hop>, k: string): nat {
    if hops == [] || KeyOf(hops[0]) == k then 0 else 1 + FirstUse(hops[1..], k)
  }

  lemma {:induction false} FirstUseIs(hops: seq<Hop>, k: string)
    ensures var i := FirstUse(hops, k);
            && i <= |hops| && (i < |hops| ==> KeyOf(hops[i]) == k)
            && forall j | 0 <= j < i :: KeyOf(hops[j]) != k
  {
    if hops != [] && KeyOf(hops[0]) != k {
      FirstUseIs(hops[1..], k);
      var i := FirstUse(hops, k);
      forall j | 0 <= j < i
        ensures KeyOf(hops[j]) != k
      {
        if j > 0 {
          assert hops[j] == hops[1..][j - 1];
        }
      }
    }
  }

  lemma FirstUseOfMore(hops: seq<Hop>, h: Hop, k: string)
    ensures HasKey(hops, k) ==> FirstUse(hops + [h], k) == FirstUse(hops, k) < |hops|
    ensures !HasKey(hops, k) && KeyOf(h) == k ==> FirstUse(hops + [h], k) == |hops|
  {
    hide KeyOf;
    FirstUseIs(hops, k);
    FirstUseIs(hops + [h], k);
    var i, j, more := FirstUse(hops, k), FirstUse(hops + [h], k), hops + [h];
    if i < |hops| {
      assert more[i] == hops[i];
    } else if KeyOf(h) == k {
      assert more[i] == h;
    }
  }

  ghost predicate LatestWithKey(hops: seq<Hop>, k: string, at: int) {
    && (exists i | 0 <= i < |hops| :: KeyOf(hops[i]) == k && hops[i].at == at)
    && (forall i | 0 <= i < |hops| && KeyOf(hops[i]) == k :: hops[i].at <= at)
  }

  /** The edge is what the hops with its key add up to. */
  ghost predicate EdgeFits(hops: seq<Hop>, e: Edge) {
    && (exists h :: FirstWithKey(hops, e.Key(), h) && e.source == h.sender && e.target == h.receiver
                    && e.firstAt == h.at && e.sampleTxHash == h.txHash)
    && LatestWithKey(hops, e.Key(), e.lastAt)
    && e.liters == KeyLiters(hops, e.Key()) && e.count == KeyCount(hops, e.Key())
  }

  // ---------- the edge table as a value ----------

  datatype Edges = Edges(order: seq<string>, entries: map<string, Edge>) {
    function Add(h: Hop): Edges {
      var k := KeyOf(h);
      if k in entries then
        this.(entries := entries[k := entries[k].Merge(h)])
      else
        Edges(order + [k], entries[k := Edge(h.sender, h.receiver, h.liters, 1, h.at, h.at, h.txHash)])
    }

    /** One edge for every key of the hops, in the order of their first hops. */
    ghost predicate Fits(hops: seq<Hop>) {
      && (forall i, j | 0 <= i < j < |order| :: FirstUse(hops, order[i]) < FirstUse(hops, order[j]))
      && (forall k :: k in order <==> k in entries)
      && (forall k :: k in entries <==> HasKey(hops, k))
      && (forall k | k in entries :: entries[k].Key() == k && EdgeFits(hops, entries[k]))
    }
  }

  lemma HasKeyOfMore(hops: seq<Hop>, h: Hop, k: string)
    ensures HasKey(hops + [h], k) <==> HasKey(hops, k) || KeyOf(h) == k
  {
    var more := hops + [h];
    assert more[|hops|] == h;
    assert forall i | 0 <= i < |hops| :: more[i] == hops[i];
  }

  lemma EdgeOfMore(hops: seq<Hop>, h: Hop, e: Edge)
    requires EdgeFits(hops, e)
    ensures EdgeFits(hops + [h], if KeyOf(h) == e.Key() then e.Merge(h) else e)
  {
    var more, k := hops + [h], e.Key();
    assert more[..|hops|] == hops && more[|hops|] == h;
    var f :| FirstWithKey(hops, k, f) && e.source == f.sender && e.target == f.receiver && e.firstAt == f.at
             && e.sampleTxHash == f.txHash;
    FirstStaysFirst(hops, h, k, f);
    LatestOfMore(hops, h, k, e.lastAt);
  }

  lemma FirstStaysFirst(hops: seq<Hop>, h: Hop, k: string, f: Hop)
    requires FirstWithKey(hops, k, f)
    ensures FirstWithKey(hops + [h], k, f)
  {
    var i :| 0 <= i < |hops| && hops[i] == f && KeyOf(f) == k && forall j | 0 <= j < i :: KeyOf(hops[j]) != k;
    assert (hops + [h])[i] == f;
  }

  lemma LatestOfMore(hops: seq<Hop>, h: Hop, k: string, at: int)
    requires LatestWithKey(hops, k, at)
    ensures LatestWithKey(hops + [h], k, if KeyOf(h) == k && h.at > at then h.at else at)
  {
    var more := hops + [h];
    var i :| 0 <= i < |hops| && KeyOf(hops[i]) == k && hops[i].at == at;
    assert more[i] == hops[i] && more[|hops|] == h;
  }

  lemma {:induction false} NoKeyNoLiters(hops: seq<Hop>, k: string)
    requires !HasKey(hops, k)
    ensures KeyLiters(hops, k) == 0 && KeyCount(hops, k) == 0
  {
    if hops != [] {
      var front, h := hops[..|hops| - 1], hops[|hops| - 1];
      assert hops == front + [h];
      HasKeyOfMore(front, h, k);
      NoKeyNoLiters(front, k);
    }
  }

  lemma NewEdge(hops: seq<Hop>, h: Hop)
    requires !HasKey(hops, KeyOf(h))
    ensures EdgeFits(hops + [h], Edge(h.sender, h.receiver, h.liters, 1, h.at, h.at, h.txHash))
  {
    var more := hops + [h];
    NoKeyNoLiters(hops, KeyOf(h));
    assert more[..|hops|] == hops && more[|hops|] == h;
    assert forall i | 0 <= i < |hops| :: more[i] == hops[i] && KeyOf(more[i]) != KeyOf(h);
    assert FirstWithKey(more, KeyOf(h), h);
  }

  lemma AddKeepsOrder(edges: Edges, hops: seq<Hop>, h: Hop)
    requires edges.Fits(hops)
    ensures var order := edges.Add(h).order;
            forall i, j | 0 <= i < j < |order| :: FirstUse(hops + [h], order[i]) < FirstUse(hops + [h], order[j])
  {
    hide EdgeFits, HasKey, FirstUse, KeyOf, Edge.Key;
    var order := edges.Add(h).order;
    forall i, j | 0 <= i < j < |order|
      ensures FirstUse(hops + [h], order[i]) < FirstUse(hops + [h], order[j])
    {
      assert order[i] == edges.order[i] && order[i] in edges.order;
      FirstUseOfMore(hops, h, order[i]);
      FirstUseOfMore(hops, h, order[j]);
    }
  }

  lemma AddFits(edges: Edges, hops: seq<Hop>, h: Hop)
    requires edges.Fits(hops)
    ensures edges.Add(h).Fits(hops + [h])
  {
    hide EdgeFits, HasKey, FirstUse;
    var more := edges.Add(h);
    AddKeepsOrder(edges, hops, h);
    forall k
      ensures k in more.entries <==> HasKey(hops + [h], k)
      ensures k in more.entries ==> more.entries[k].Key() == k && EdgeFits(hops + [h], more.entries[k])
    {
      HasKeyOfMore(hops, h, k);
      if k in edges.entries {
        EdgeOfMore(hops, h, edges.entries[k]);
      } else if k == KeyOf(h) {
        NewEdge(hops, h);
      }
    }
  }

  // ---------- the table the route builds ----------

  class EdgeEntry {
    const source: string
    const target: string
    const firstAt: int
    const sampleTxHash: string
    var liters: int
    var count: nat
    var lastAt: int

    constructor (h: Hop)
      ensures Value() == Edge(h.sender, h.receiver, h.liters, 1, h.at, h.at, h.txHash) && Key() == KeyOf(h)
    {
      source, target, firstAt, sampleTxHash := h.sender, h.receiver, h.at, h.txHash;
      liters, count, lastAt := h.liters, 1, h.at;
    }

    function Key(): string {
      source + "->" + target
    }

    function Value(): Edge
      reads this
    {
      Edge(source, target, liters, count, firstAt, lastAt, sampleTxHash)
    }

    method Merge(h: Hop)
      modifies this
      ensures Value() == old(Value()).Merge(h)
    {
      liters := liters + h.liters;
      count := count + 1;
      if h.at > lastAt {
        lastAt := h.at;
      }
    }
  }

  class EdgeTable {
    var entries: map<string, EdgeEntry>
    var order: seq<string>

    ghost predicate Valid()
      reads this
    {
      && (forall k | k in entries :: entries[k].Key() == k)
      && (forall k :: k in order <==> k in entries)
    }

    ghost function View(): Edges
      reads this, entries.Values
    {
      Edges(order, map k | k in entries :: entries[k].Value())
    }

    lemma InView()
      requires Valid()
      ensures View().order == order
      ensures forall k | k in order :: k in entries && k in View().entries && View().entries[k] == entries[k].Value()
    {
    }

    constructor ()
      ensures Valid() && View() == Edges([], map[]) && entries == map[]
    {
      entries, order := map[], [];
    }

    /** One turn of the loop over the hops. */
    method Add(h: Hop)
      requires Valid()
      modifies this, entries.Values
      ensures Valid() && View() == old(View()).Add(h)
      ensures forall e | e in entries.Values :: e in old(entries.Values) || fresh(e)
    {
      hide EdgeEntry.Key, KeyOf, EdgeEntry.Value, Edge.Merge;
      var key := KeyOf(h);
      if key in entries {
        entries[key].Merge(h);
      } else {
        var e := new EdgeEntry(h);
        entries := entries[key := e];
        order := order + [key];
      }
    }
  }

  method FillTable(hops: seq<Hop>) returns (table: EdgeTable)
    ensures table.Valid() && table.View().Fits(hops)
  {
    hide Edges.Fits, EdgeTable.View, Edges.Add;
    table := new EdgeTable();
    NothingFits();
    assert hops[..0] == [];
    for i := 0 to |hops|
      invariant table.Valid() && table.View().Fits(hops[..i])
      invariant fresh(table) && forall e | e in table.entries.Values :: fresh(e)
    {
      AddFits(table.View(), hops[..i], hops[i]);
      assert hops[..i + 1] == hops[..i] + [hops[i]];
      table.Add(hops[i]);
    }
    assert hops[..|hops|] == hops;
  }

  lemma NothingFits()
    ensures Edges([], map[]).Fits([])
  {
  }

  ghost predicate EdgesFit(hops: seq<Hop>, edges: seq<Edge>) {
    && (forall i, j | 0 <= i < j < |edges| ::
          edges[i].Key() != edges[j].Key() && FirstUse(hops, edges[i].Key()) < FirstUse(hops, edges[j].Key()))
    && (forall k :: HasKey(hops, k) ==> exists i :: 0 <= i < |edges| && edges[i].Key() == k)
    && (forall i | 0 <= i < |edges| :: EdgeFits(hops, edges[i]))
  }

  /** The aggregated edges of the graph: one for each key of the hops, in the order the keys first
      appear, from which the source numbers them. */
  method BuildEdges(hops: seq<Hop>) returns (edges: seq<Edge>)
    ensures EdgesFit(hops, edges)
  {
    hide EdgesFit, Edges.Fits, EdgeTable.View;
    var table := FillTable(hops);
    table.InView();
    var entries := ValuesInOrder(table.order, table.entries);
    edges := seq(|entries|, i requires 0 <= i < |entries| reads entries => entries[i].Value());
    ListedFit(hops, table.View(), edges);
  }

  lemma ListedFit(hops: seq<Hop>, v: Edges, edges: seq<Edge>)
    requires v.Fits(hops) && |edges| == |v.order|
    requires forall i | 0 <= i < |edges| :: v.order[i] in v.entries && edges[i] == v.entries[v.order[i]]
    ensures EdgesFit(hops, edges)
  {
    hide EdgeFits, HasKey, FirstUse;
    forall k | HasKey(hops, k)
      ensures exists i :: 0 <= i < |edges| && edges[i].Key() == k
    {
      assert k in v.order;
      var i :| 0 <= i < |v.order| && v.order[i] == k;
      assert edges[i].Key() == k;
    }
  }
}
