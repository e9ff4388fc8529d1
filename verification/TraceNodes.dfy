/** The nodes of the custody graph of a batch, one for each address of its hops. */
module TraceNodes {
  datatype Hop = Hop(liters: int, sender: string, receiver: string, at: int, txHash: string)

  datatype Node = Node(id: string, firstSeenAt: int, lastSeenAt: int, received: int, sent: int) {
    /** `currentLiters` */
    function Balance(): int {
      received - sent
    }

    /** Positive balance, nothing sent. */
    predicate IsCurrentHolder() {
      Balance() > 0 && sent == 0
    }

    /** Everything that came in has flowed out. */
    predicate IsPassThrough() {
      sent > 0 && Balance() == 0
    }
  }

  // ---------- what the hops say of an address ----------

  function Received(hops: seq<Hop>, a: string): int {
    if hops == [] then 0
    else
      var h := hops[|hops| - 1];
      Received(hops[..|hops| - 1], a) + if h.receiver == a then h.liters else 0
  }

  function Sent(hops: seq<Hop>, a: string): int {
    if hops == [] then 0
    else
      var h := hops[|hops| - 1];
      Sent(hops[..|hops| - 1], a) + if h.sender == a then h.liters else 0
  }

  predicate Touches(h: Hop, a: string) {
    h.sender == a || h.receiver == a
  }

  /** The first hop that touches the address, or the number of hops. */
  function FirstTouch(hops: seq<Hop>, a: string): nat {
    if hops == [] || Touches(hops[0], a) then 0 else 1 + FirstTouch(hops[1..], a)
  }

  /** Address a is met before b, or both in one hop that a sends. */
  predicate FirstBefore(hops: seq<Hop>, a: string, b: string) {
    var i, j := FirstTouch(hops, a), FirstTouch(hops, b);
    i < j || (i == j < |hops| && hops[i].sender == a)
  }

  ghost predicate NodeFits(hops: seq<Hop>, n: Node) {
    && FirstTouch(hops, n.id) < |hops| && n.firstSeenAt == hops[FirstTouch(hops, n.id)].at
    && (exists j | 0 <= j < |hops| ::
          && Touches(hops[j], n.id) && n.lastSeenAt == hops[j].at
          && forall k | j < k < |hops| :: !Touches(hops[k], n.id))
    && n.received == Received(hops, n.id) && n.sent == Sent(hops, n.id)
  }

  lemma {:induction false} FirstTouchIs(hops: seq<Hop>, a: string)
    ensures var i := FirstTouch(hops, a);
            && i <= |hops| && (i < |hops| ==> Touches(hops[i], a))
            && forall k | 0 <= k < i :: !Touches(hops[k], a)
  {
    if hops != [] && !Touches(hops[0], a) {
      FirstTouchIs(hops[1..], a);
      var i := FirstTouch(hops, a);
      forall k | 0 <= k < i
        ensures !Touches(hops[k], a)
      {
        if k > 0 {
          assert hops[k] == hops[1..][k - 1];
        }
      }
    }
  }

  lemma FirstTouchOfMore(hops: seq<Hop>, h: Hop, a: string)
    ensures FirstTouch(hops, a) < |hops| ==> FirstTouch(hops + [h], a) == FirstTouch(hops, a)
    ensures FirstTouch(hops, a) == |hops| && Touches(h, a) ==> FirstTouch(hops + [h], a) == |hops|
  {
    FirstTouchIs(hops, a);
    FirstTouchIs(hops + [h], a);
    var i, j, more := FirstTouch(hops, a), FirstTouch(hops + [h], a), hops + [h];
    if i < |hops| {
      assert more[i] == hops[i];
    } else if Touches(h, a) {
      assert more[i] == h;
    }
  }

  // ---------- the node table as a value ----------

  datatype Nodes = Nodes(order: seq<string>, entries: map<string, Node>) {
    function Ensure(a: string, at: int): Nodes {
      if a in entries then this.(entries := entries[a := entries[a].(lastSeenAt := at)])
      else Nodes(order + [a], entries[a := Node(a, at, at, 0, 0)])
    }

    function AddSent(a: string, liters: int): Nodes
      requires a in entries
    {
      this.(entries := entries[a := entries[a].(sent := entries[a].sent + liters)])
    }

    function AddReceived(a: string, liters: int): Nodes
      requires a in entries
    {
      this.(entries := entries[a := entries[a].(received := entries[a].received + liters)])
    }

    function Add(h: Hop): Nodes {
      Ensure(h.sender, h.at).AddSent(h.sender, h.liters).Ensure(h.receiver, h.at).AddReceived(h.receiver, h.liters)
    }

    /** One node for every address of the hops, in the order of their first hops, the sender of a hop first. */
    ghost predicate Fits(hops: seq<Hop>) {
      && (forall i, j | 0 <= i < j < |order| :: order[i] != order[j] && FirstBefore(hops, order[i], order[j]))
      && (forall a :: a in order <==> a in entries)
      && (forall a :: a in entries <==> FirstTouch(hops, a) < |hops|)
      && (forall a | a in entries :: entries[a].id == a && NodeFits(hops, entries[a]))
    }
  }

  lemma NodeOfMore(hops: seq<Hop>, h: Hop, n: Node)
    requires NodeFits(hops, n)
    ensures NodeFits(hops + [h],
                     n.(lastSeenAt := if Touches(h, n.id) then h.at else n.lastSeenAt,
                        received := n.received + (if h.receiver == n.id then h.liters else 0),
                        sent := n.sent + (if h.sender == n.id then h.liters else 0)))
  {
    FirstTouchOfMore(hops, h, n.id);
    var more := hops + [h];
    assert more[..|hops|] == hops;
    if !Touches(h, n.id) {
      var j :| 0 <= j < |hops| && Touches(hops[j], n.id) && n.lastSeenAt == hops[j].at
               && forall k | j < k < |hops| :: !Touches(hops[k], n.id);
      assert more[j] == hops[j];
    }
  }

  lemma {:induction false} UntouchedIsZero(hops: seq<Hop>, a: string)
    requires FirstTouch(hops, a) == |hops|
    ensures Received(hops, a) == 0 == Sent(hops, a)
  {
    FirstTouchIs(hops, a);
    if hops != [] {
      var front := hops[..|hops| - 1];
      FirstTouchIs(front, a);
      assert Touches(hops[|hops| - 1], a) ==> false;
      assert forall k | 0 <= k < |front| :: hops[k] == front[k];
      UntouchedIsZero(front, a);
    }
  }

  lemma NewNode(hops: seq<Hop>, h: Hop, a: string)
    requires FirstTouch(hops, a) == |hops| && Touches(h, a)
    ensures NodeFits(hops + [h], Node(a, h.at, h.at, if h.receiver == a then h.liters else 0,
                                      if h.sender == a then h.liters else 0))
  {
    FirstTouchOfMore(hops, h, a);
    UntouchedIsZero(hops, a);
    assert (hops + [h])[..|hops|] == hops;
    assert Touches((hops + [h])[|hops|], a);
  }

  lemma EntriesAfter(nodes: Nodes, h: Hop, a: string)
    ensures var more := nodes.Add(h);
            && (a in more.entries <==> a in nodes.entries || Touches(h, a))
            && (a in nodes.entries ==>
                  var n := nodes.entries[a];
                  more.entries[a] == n.(lastSeenAt := if Touches(h, a) then h.at else n.lastSeenAt,
                                        received := n.received + (if h.receiver == a then h.liters else 0),
                                        sent := n.sent + (if h.sender == a then h.liters else 0)))
            && (a !in nodes.entries && Touches(h, a) ==>
                  more.entries[a] == Node(a, h.at, h.at, if h.receiver == a then h.liters else 0,
                                          if h.sender == a then h.liters else 0))
  {
  }

  lemma OrderAfter(nodes: Nodes, hops: seq<Hop>, h: Hop)
    requires nodes.Fits(hops)
    ensures var more := nodes.Add(h).order;
            && nodes.order <= more && |more| <= |nodes.order| + 2
            && (forall a :: a in more <==> a in nodes.order || Touches(h, a))
            && (forall i, j | 0 <= i < j < |more| :: more[i] != more[j])
            && (forall i | |nodes.order| <= i < |more| :: Touches(h, more[i]) && more[i] !in nodes.entries)
            && (forall i | |nodes.order| <= i < |more| - 1 :: more[i] == h.sender)
  {
    var first := nodes.Ensure(h.sender, h.at).order;
    assert nodes.Add(h).order == if h.receiver in first then first else first + [h.receiver];
  }

  lemma EntryFits(nodes: Nodes, hops: seq<Hop>, h: Hop, a: string)
    requires nodes.Fits(hops)
    ensures var more, all := nodes.Add(h), hops + [h];
            && (a in more.entries <==> FirstTouch(all, a) < |all|)
            && (a in more.entries ==> more.entries[a].id == a && NodeFits(all, more.entries[a]))
            && (a in nodes.entries ==> FirstTouch(all, a) == FirstTouch(hops, a))
            && (a !in nodes.entries && a in more.entries ==> FirstTouch(all, a) == |hops|)
  {
    hide NodeFits, FirstTouch, Nodes.Add;
    EntriesAfter(nodes, h, a);
    FirstTouchIs(hops, a);
    FirstTouchIs(hops + [h], a);
    FirstTouchOfMore(hops, h, a);
    if a in nodes.entries {
      NodeOfMore(hops, h, nodes.entries[a]);
    } else if Touches(h, a) {
      NewNode(hops, h, a);
    } else {
      assert forall k | 0 <= k < |hops| :: (hops + [h])[k] == hops[k];
    }
  }

  lemma AddFits(nodes: Nodes, hops: seq<Hop>, h: Hop)
    requires nodes.Fits(hops)
    ensures nodes.Add(h).Fits(hops + [h])
  {
    hide NodeFits, FirstTouch, Nodes.Add;
    var more, all := nodes.Add(h), hops + [h];
    OrderAfter(nodes, hops, h);
    forall a
      ensures a in more.entries <==> FirstTouch(all, a) < |all|
      ensures a in more.entries <==> a in more.order
      ensures a in more.entries ==> more.entries[a].id == a && NodeFits(all, more.entries[a])
    {
      EntryFits(nodes, hops, h, a);
      EntriesAfter(nodes, h, a);
    }
    forall i, j | 0 <= i < j < |more.order|
      ensures FirstBefore(all, more.order[i], more.order[j])
    {
      InOrder(nodes, hops, h, i, j);
    }
  }

  lemma InOrder(nodes: Nodes, hops: seq<Hop>, h: Hop, i: nat, j: nat)
    requires nodes.Fits(hops) && i < j < |nodes.Add(h).order|
    ensures FirstBefore(hops + [h], nodes.Add(h).order[i], nodes.Add(h).order[j])
  {
    hide NodeFits, FirstTouch, Nodes.Add;
    var more := nodes.Add(h);
    OrderAfter(nodes, hops, h);
    EntryFits(nodes, hops, h, more.order[i]);
    EntryFits(nodes, hops, h, more.order[j]);
    EntriesAfter(nodes, h, more.order[i]);
    EntriesAfter(nodes, h, more.order[j]);
    if j < |nodes.order| {
      assert more.order[i] == nodes.order[i] && more.order[j] == nodes.order[j];
    }
  }

  // ---------- the table the route builds ----------

  class NodeEntry {
    const id: string
    const firstSeenAt: int
    var lastSeenAt: int
    var received: int
    var sent: int

    constructor (id: string, at: int)
      ensures Value() == Node(id, at, at, 0, 0)
    {
      this.id, firstSeenAt, lastSeenAt, received, sent := id, at, at, 0, 0;
    }

    function Value(): Node
      reads this
    {
      Node(id, firstSeenAt, lastSeenAt, received, sent)
    }
  }

  class NodeTable {
    var entries: map<string, NodeEntry>
    var order: seq<string>

    ghost predicate Valid()
      reads this
    {
      (forall a | a in entries :: entries[a].id == a) && (forall a :: a in order <==> a in entries)
    }

    ghost function View(): Nodes
      reads this, entries.Values
    {
      Nodes(order, map a | a in entries :: entries[a].Value())
    }

    lemma InView()
      requires Valid()
      ensures View().order == order
      ensures forall k | k in order :: k in entries && k in View().entries && View().entries[k] == entries[k].Value()
    {
    }

    constructor ()
      ensures Valid() && View() == Nodes([], map[]) && entries == map[]
    {
      entries, order := map[], [];
    }

    /** The entry of the address, made if there is none yet. */
    method Ensure(a: string, at: int) returns (e: NodeEntry)
      requires Valid()
      modifies this, entries.Values
      ensures Valid() && View() == old(View()).Ensure(a, at)
      ensures a in entries && entries[a] == e && (e in old(entries.Values) || fresh(e))
      ensures entries == old(entries)[a := e]
    {
      if a in entries {
        e := entries[a];
        e.lastSeenAt := at;
        assert entries == entries[a := e];
      } else {
        e := new NodeEntry(a, at);
        entries := entries[a := e];
        order := order + [a];
      }
    }

    method AddSent(a: string, liters: int)
      requires Valid() && a in entries
      modifies entries[a]
      ensures Valid() && View() == old(View()).AddSent(a, liters)
    {
      entries[a].sent := entries[a].sent + liters;
    }

    method AddReceived(a: string, liters: int)
      requires Valid() && a in entries
      modifies entries[a]
      ensures Valid() && View() == old(View()).AddReceived(a, liters)
    {
      entries[a].received := entries[a].received + liters;
    }

    /** One turn of the loop over the hops. */
    method Add(h: Hop)
      requires Valid()
      modifies this, entries.Values
      ensures Valid() && View() == old(View()).Add(h)
      ensures forall e | e in entries.Values :: e in old(entries.Values) || fresh(e)
    {
      hide View;
      var s := Ensure(h.sender, h.at);
      AddSent(h.sender, h.liters);
      var r := Ensure(h.receiver, h.at);
      AddReceived(h.receiver, h.liters);
    }
  }

  method FillTable(hops: seq<Hop>) returns (table: NodeTable)
    ensures table.Valid() && table.View().Fits(hops)
  {
    hide Nodes.Fits, NodeTable.View, Nodes.Add;
    table := new NodeTable();
    NothingFits();
    assert hops[..0] == [];
    for i := 0 to |hops|
      invariant table.Valid() && table.View().Fits(hops[..i])
      invariant fresh(table) && forall e | e in table.entries.Values :: fresh(e)
    {
      AddFits(table.View(), hops[..i], hops[i]);
      assert hops[..i + 1] == hops[..i] + [hops[i]];
      table.Add(hops[i]);
    }
    assert hops[..|hops|] == hops;
  }

  lemma NothingFits()
    ensures Nodes([], map[]).Fits([])
  {
  }

  /** `Array.from(map.values())`: a map of the source lists its values in the order the keys were first set. */
  method ValuesInOrder<V>(order: seq<string>, entries: map<string, V>) returns (values: seq<V>)
    requires forall k | k in order :: k in entries
    ensures |values| == |order| && forall i | 0 <= i < |order| :: values[i] == entries[order[i]]
  {
    values := [];
    for i := 0 to |order|
      invariant |values| == i && forall j | 0 <= j < i :: values[j] == entries[order[j]]
    {
      values := values + [entries[order[i]]];
    }
  }

  /** The nodes of the graph: one for each address the hops touch, in the order they first appear, the
      sender of a hop before its receiver, with its own totals and times. */
  method BuildNodes(hops: seq<Hop>) returns (nodes: seq<Node>)
    ensures NodesFit(hops, nodes)
  {
    hide NodesFit, Nodes.Fits, NodeTable.View;
    var table := FillTable(hops);
    table.InView();
    var entries := ValuesInOrder(table.order, table.entries);
    nodes := seq(|entries|, i requires 0 <= i < |entries| reads entries => entries[i].Value());
    ListedFit(hops, table.View(), nodes);
  }

  lemma ListedFit(hops: seq<Hop>, v: Nodes, nodes: seq<Node>)
    requires v.Fits(hops) && |nodes| == |v.order|
    requires forall i | 0 <= i < |nodes| :: v.order[i] in v.entries && nodes[i] == v.entries[v.order[i]]
    ensures NodesFit(hops, nodes)
  {
    hide NodeFits, FirstTouch;
    forall a | FirstTouch(hops, a) < |hops|
      ensures exists i :: 0 <= i < |nodes| && nodes[i].id == a
    {
      assert a in v.order;
      var i :| 0 <= i < |v.order| && v.order[i] == a;
      assert nodes[i].id == a;
    }
  }

  ghost predicate NodesFit(hops: seq<Hop>, nodes: seq<Node>) {
    && (forall i, j | 0 <= i < j < |nodes| ::
          nodes[i].id != nodes[j].id && FirstBefore(hops, nodes[i].id, nodes[j].id))
    && (forall a :: FirstTouch(hops, a) < |hops| ==> exists i :: 0 <= i < |nodes| && nodes[i].id == a)
    && (forall i | 0 <= i < |nodes| :: NodeFits(hops, nodes[i]))
  }
}
