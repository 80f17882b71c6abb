/** Peer maps of src/FSLibrary/StellarNetworkData.fs: building one from edges, fully
    connecting tier 1, and pruning to a connection limit. */
module Topology {
  import opened Text

  type Edge = (string, string)

  type PeerMap = map<string, set<string>>

  // ----- building the map -----

  function Doubled(edges: set<Edge>): set<Edge> {
    (set e | e in edges :: (e.1, e.0)) + edges
  }

  /** The groups of the doubled edge list become sets, so neither the order nor the
      repetition of the listed edges matters. */
  function CreateAdjacencyMap(edges: set<Edge>): PeerMap {
    map v | v in Starts(Doubled(edges)) :: EndsFrom(Doubled(edges), v)
  }

  function Starts(edges: set<Edge>): set<string> { set e | e in edges :: e.0 }

  function EndsFrom(edges: set<Edge>, v: string): set<string> { set e | e in edges && e.0 == v :: e.1 }

  predicate Linked(m: PeerMap, a: string, b: string) { a in m && b in m[a] }

  ghost predicate Symmetric(m: PeerMap) {
    forall a, b :: Linked(m, a, b) ==> Linked(m, b, a)
  }

  ghost predicate Irreflexive(m: PeerMap) { forall a :: !Linked(m, a, a) }

  ghost predicate Subgraph(r: PeerMap, m: PeerMap) {
    r.Keys == m.Keys && forall a, b :: Linked(r, a, b) ==> Linked(m, a, b)
  }

  ghost predicate Clique(m: PeerMap, s: set<string>) {
    forall a, b :: a in s && b in s && a != b ==> Linked(m, a, b)
  }

  ghost predicate DegreesAtMost(m: PeerMap, max: int) { forall v :: v in m ==> |m[v]| <= max }

  /** Every edge is stored with its smaller end first. */
  ghost predicate Ordered(edges: set<Edge>) { forall e :: e in edges ==> Less(e.0, e.1) }

  /** The map links exactly the ends of the edges, in both directions, and lists exactly
      the nodes that have an edge. */
  lemma AdjacencyIsEdges(edges: set<Edge>)
    ensures var m := CreateAdjacencyMap(edges);
      && (forall a, b :: Linked(m, a, b) <==> (a, b) in edges || (b, a) in edges)
      && (forall v :: v in m ==> exists w :: Linked(m, v, w))
      && Symmetric(m)
      && (Ordered(edges) ==> Irreflexive(m))
  {
    var m := CreateAdjacencyMap(edges);
    forall a, b ensures Linked(m, a, b) <==> (a, b) in edges || (b, a) in edges {
      AdjacencyAt(edges, a, b);
    }
    forall v | v in m ensures exists w :: Linked(m, v, w) {
      var e :| e in Doubled(edges) && e.0 == v;
      AdjacencyAt(edges, v, e.1);
      DoubledHas(edges, v, e.1);
    }
    if Ordered(edges) {
      forall a ensures !Linked(m, a, a) { LessIrreflexive(a); }
    }
  }

  lemma DoubledHas(edges: set<Edge>, a: string, b: string)
    ensures (a, b) in Doubled(edges) <==> (a, b) in edges || (b, a) in edges
  {
    if (b, a) in edges {
      assert ((b, a).1, (b, a).0) in Doubled(edges);
    }
  }

  lemma AdjacencyAt(edges: set<Edge>, a: string, b: string)
    ensures Linked(CreateAdjacencyMap(edges), a, b) <==> (a, b) in edges || (b, a) in edges
  {
    DoubledHas(edges, a, b);
    var both := Doubled(edges);
    if (a, b) in both {
      assert (a, b).0 in Starts(both);
      assert (a, b).1 in EndsFrom(both, a);
    }
  }

  // ----- fully connecting tier 1 -----

  function ConnectAll(order: seq<string>, tier1: set<string>, m: PeerMap): Option<PeerMap> {
    if order == [] then Some(m)
    else if order[0] !in m then None
    else ConnectAll(order[1..], tier1, m[order[0] := m[order[0]] + (tier1 - {order[0]})])
  }

  /** None stands for the exception of looking up a missing node. */
  function FullyConnectTier1(tier1: set<string>, m: PeerMap): Option<PeerMap> {
    ConnectAll(Sorted(tier1), tier1, m)
  }

  lemma {:induction false} ConnectAllIs(order: seq<string>, tier1: set<string>, m: PeerMap)
    requires NoDup(order)
    ensures ConnectAll(order, tier1, m).Some? <==> (forall v :: v in order ==> v in m)
    ensures ConnectAll(order, tier1, m).Some? ==>
      var r := ConnectAll(order, tier1, m).value;
      && r.Keys == m.Keys
      && forall v :: v in m ==> r[v] == if v in order then m[v] + (tier1 - {v}) else m[v]
  {
    if order != [] && order[0] in m {
      var m' := m[order[0] := m[order[0]] + (tier1 - {order[0]})];
      NoDupTail(order);
      ConnectAllIs(order[1..], tier1, m');
      assert forall v :: v in order <==> v == order[0] || v in order[1..];
      assert m'.Keys == m.Keys;
    }
  }

  /** It fails exactly when a tier-1 node is not in the map; otherwise it adds the links
      between different tier-1 nodes and nothing else. */
  lemma FullyConnectIs(tier1: set<string>, m: PeerMap)
    ensures FullyConnectTier1(tier1, m).Some? <==> tier1 <= m.Keys
    ensures tier1 <= m.Keys ==>
      var r := FullyConnectTier1(tier1, m).value;
      && r.Keys == m.Keys
      && (forall a, b :: Linked(r, a, b) <==> Linked(m, a, b) || (a in tier1 && b in tier1 && a != b))
      && (Symmetric(m) ==> Symmetric(r))
      && (Irreflexive(m) ==> Irreflexive(r))
      && Clique(r, tier1)
  {
    SortedNoDup(tier1);
    ConnectAllIs(Sorted(tier1), tier1, m);
  }

  // ----- pruning -----

  /** Every peer of a listed node is itself listed. */
  ghost predicate Closed(m: PeerMap) { forall v :: v in m ==> m[v] <= m.Keys }

  lemma SymmetricClosed(m: PeerMap)
    requires Symmetric(m)
    ensures Closed(m)
  {
    forall v | v in m ensures m[v] <= m.Keys {
      forall w | w in m[v] ensures w in m { assert Linked(m, v, w); }
    }
  }

  function NumPeers(m: PeerMap, v: string): nat
    requires v in m
  {
    |m[v]|
  }

  // A stable insertion sort by number of peers.
  function InsertByPeers(m: PeerMap, v: string, q: seq<string>): (r: seq<string>)
    requires v in m && forall x :: x in q ==> x in m
    ensures forall x :: x in r <==> x == v || x in q
    ensures |r| == |q| + 1
  {
    if q == [] then [v]
    else if NumPeers(m, v) <= NumPeers(m, q[0]) then [v] + q
    else
      assert forall x :: x in q <==> x == q[0] || x in q[1..];
      [q[0]] + InsertByPeers(m, v, q[1..])
  }

  function SortByPeers(m: PeerMap, q: seq<string>): (r: seq<string>)
    requires forall x :: x in q ==> x in m
    ensures forall x :: x in r <==> x in q
    ensures |r| == |q|
  {
    if q == [] then []
    else
      assert forall x :: x in q <==> x == q[0] || x in q[1..];
      InsertByPeers(m, q[0], SortByPeers(m, q[1..]))
  }

  /** Fewer peers, or as many and the lower name. */
  predicate Before(m: PeerMap, a: string, b: string)
    requires a in m && b in m
  {
    |m[a]| < |m[b]| || (|m[a]| == |m[b]| && Less(a, b))
  }

  ghost predicate ByPeers(m: PeerMap, q: seq<string>)
    requires forall x :: x in q ==> x in m
  {
    forall i, j :: 0 <= i < j < |q| ==> Before(m, q[i], q[j])
  }

  lemma {:induction false} InsertByPeersSorted(m: PeerMap, v: string, q: seq<string>)
    requires v in m && (forall x :: x in q ==> x in m) && ByPeers(m, q)
    requires forall x :: x in q ==> Less(v, x)
    ensures ByPeers(m, InsertByPeers(m, v, q))
  {
    if q != [] && NumPeers(m, v) > NumPeers(m, q[0]) {
      assert forall x :: x in q <==> x == q[0] || x in q[1..];
      InsertByPeersSorted(m, v, q[1..]);
      var r := InsertByPeers(m, v, q[1..]);
      forall x | x in r ensures Before(m, q[0], x) {
        if x != v {
          var i :| 0 <= i < |q[1..]| && q[1..][i] == x;
          assert Before(m, q[0], q[i + 1]);
        }
      }
    }
  }

  /** Peers with equally many connections stay in the order of their names. */
  lemma {:induction false} SortByPeersSorted(m: PeerMap, q: seq<string>)
    requires Ascending(q) && forall x :: x in q ==> x in m
    ensures ByPeers(m, SortByPeers(m, q))
  {
    if q != [] {
      assert forall x :: x in q <==> x == q[0] || x in q[1..];
      SortByPeersSorted(m, q[1..]);
      InsertByPeersSorted(m, q[0], SortByPeers(m, q[1..]));
    }
  }

  /** Peers that a node may not drop. */
  function MustKeep(noPrune: set<string>, m: PeerMap, v: string): (r: set<string>)
    requires v in m
    ensures forall p :: p in r <==> p in m[v] && v in noPrune && p in noPrune
  {
    if v in noPrune then m[v] * noPrune else {}
  }

  /** Remove a node from the peers of each dropped peer. */
  function Forget(m: PeerMap, drop: seq<string>, node: string): (r: PeerMap)
    requires forall x :: x in drop ==> x in m
    ensures r.Keys == m.Keys
    ensures forall v :: v in m ==> r[v] == if v in drop then m[v] - {node} else m[v]
  {
    if drop == [] then m
    else
      assert forall x :: x in drop <==> x == drop[0] || x in drop[1..];
      var m' := m[drop[0] := m[drop[0]] - {node}];
      assert m'.Keys == m.Keys;
      Forget(m', drop[1..], node)
  }

  /** The peers of a node by number of connections, best connected last. */
  function Droppable(noPrune: set<string>, m: PeerMap, node: string): (q: seq<string>)
    requires node in m && m[node] <= m.Keys
    ensures |q| == |m[node]| - |MustKeep(noPrune, m, node)|
    ensures Elements(q) == m[node] - MustKeep(noPrune, m, node)
  {
    SortByPeers(m, Sorted(m[node] - MustKeep(noPrune, m, node)))
  }

  /** Of the droppable peers, how many stay; negative if the must-keep ones are too many. */
  function Room(max: int, noPrune: set<string>, m: PeerMap, node: string): int
    requires node in m
  {
    max - |MustKeep(noPrune, m, node)|
  }

  function Keep(max: int, noPrune: set<string>, m: PeerMap, node: string): set<string>
    requires node in m && m[node] <= m.Keys && |m[node]| > max && Room(max, noPrune, m, node) >= 0
  {
    MustKeep(noPrune, m, node) + Elements(Droppable(noPrune, m, node)[..Room(max, noPrune, m, node)])
  }

  function Drop(max: int, noPrune: set<string>, m: PeerMap, node: string): seq<string>
    requires node in m && m[node] <= m.Keys && |m[node]| > max && Room(max, noPrune, m, node) >= 0
  {
    Droppable(noPrune, m, node)[Room(max, noPrune, m, node)..]
  }

  /** Every kept peer has fewer connections than every dropped one, or as many and the lower
      name. */
  ghost predicate WorseConnected(m: PeerMap, kept: set<string>, drop: set<string>) {
    forall k, d :: k in kept && d in drop ==> k in m && d in m && Before(m, k, d)
  }

  lemma SplitByPeers(m: PeerMap, sorted: seq<string>, room: nat)
    requires room <= |sorted|
    requires (forall x :: x in sorted ==> x in m) && ByPeers(m, sorted)
    ensures WorseConnected(m, Elements(sorted[..room]), Elements(sorted[room..]))
  {
    var kept, drop := sorted[..room], sorted[room..];
    forall k, d | k in Elements(kept) && d in Elements(drop)
      ensures k in m && d in m && Before(m, k, d) {
      var i :| 0 <= i < |kept| && kept[i] == k;
      var j :| 0 <= j < |drop| && drop[j] == d;
      assert sorted[i] == k && sorted[room + j] == d;
    }
  }

  lemma SplitSizes(sorted: seq<string>, room: nat)
    requires room <= |sorted| == |Elements(sorted)|
    ensures var kept, drop := Elements(sorted[..room]), Elements(sorted[room..]);
      |kept| == room && kept !! drop && kept + drop == Elements(sorted)
  {
    hide NoDup, Elements;
    NoDupSize(sorted);
    assert sorted == sorted[..room] + sorted[room..];
    NoDupParts(sorted[..room], sorted[room..]);
    NoDupSize(sorted[..room]);
  }

  lemma DroppableIs(noPrune: set<string>, m: PeerMap, node: string)
    requires node in m && m[node] <= m.Keys
    ensures var q := Droppable(noPrune, m, node);
      && Elements(q) == m[node] - MustKeep(noPrune, m, node)
      && |q| == |Elements(q)| == |m[node]| - |MustKeep(noPrune, m, node)|
      && (forall x :: x in q ==> x in m)
      && ByPeers(m, q)
  {
    var mustKeep := MustKeep(noPrune, m, node);
    assert mustKeep + (m[node] - mustKeep) == m[node];
    SortByPeersSorted(m, Sorted(m[node] - mustKeep));
  }

  lemma DivideSizes(peers: set<string>, mustKeep: set<string>, kept: set<string>, drop: set<string>)
    requires mustKeep <= peers && kept !! drop && kept + drop == peers - mustKeep
    ensures mustKeep + kept <= peers && (mustKeep + kept) - mustKeep == kept
    ensures drop == peers - (mustKeep + kept)
    ensures |mustKeep + kept| == |mustKeep| + |kept|
  {
    assert mustKeep !! kept by { assert kept <= peers - mustKeep; }
  }

  /** What is kept and what is dropped divide the peers: exactly max are kept, all
      must-keep peers among them, and of the rest the worst connected. */
  lemma KeepAndDrop(max: int, noPrune: set<string>, m: PeerMap, node: string)
    requires node in m && m[node] <= m.Keys && |m[node]| > max && Room(max, noPrune, m, node) >= 0
    ensures var keep, drop := Keep(max, noPrune, m, node), Elements(Drop(max, noPrune, m, node));
      && MustKeep(noPrune, m, node) <= keep <= m[node]
      && |keep| == max
      && drop == m[node] - keep
      && WorseConnected(m, keep - MustKeep(noPrune, m, node), drop)
  {
    var mustKeep := MustKeep(noPrune, m, node);
    var sorted := Droppable(noPrune, m, node);
    var room := Room(max, noPrune, m, node);
    assert mustKeep <= m[node];
    DroppableIs(noPrune, m, node);
    hide Droppable, MustKeep, Elements, WorseConnected, ByPeers;
    SplitByPeers(m, sorted, room);
    SplitSizes(sorted, room);
    DivideSizes(m[node], mustKeep, Elements(sorted[..room]), Elements(sorted[room..]));
  }

  lemma DropIsListed(max: int, noPrune: set<string>, m: PeerMap, node: string)
    requires node in m && m[node] <= m.Keys && |m[node]| > max && Room(max, noPrune, m, node) >= 0
    ensures forall x :: x in Drop(max, noPrune, m, node) ==> x in m
  {
    DroppableIs(noPrune, m, node);
  }

  /** One step of the fold; None is the source's failure. */
  function PruneConnections(max: int, noPrune: set<string>, m: PeerMap, node: string): (r: Option<PeerMap>)
    requires node in m && Closed(m)
  {
    if |m[node]| > max then
      if Room(max, noPrune, m, node) < 0 then None
      else
        DropIsListed(max, noPrune, m, node);
        Some(Forget(m, Drop(max, noPrune, m, node), node)[node := Keep(max, noPrune, m, node)])
    else Some(m)
  }

  lemma PruneConnectionsValue(max: int, noPrune: set<string>, m: PeerMap, node: string)
    requires node in m && Closed(m) && |m[node]| > max && Room(max, noPrune, m, node) >= 0
    ensures var r := PruneConnections(max, noPrune, m, node);
      && r.Some? && r.value.Keys == m.Keys
      && r.value[node] == Keep(max, noPrune, m, node) <= m[node]
      && forall v :: v in m && v != node ==>
           r.value[v] == if v in m[node] - Keep(max, noPrune, m, node) then m[v] - {node} else m[v]
  {
    hide Keep, Drop, MustKeep, WorseConnected, Room;
    DropIsListed(max, noPrune, m, node);
    KeepAndDrop(max, noPrune, m, node);
    var drop := Drop(max, noPrune, m, node);
    assert forall x :: x in drop <==> x in Elements(drop);
  }

  /** What one step does to the node itself: it keeps exactly max peers, all protected ones
      among them; any other it keeps has fewer connections than each it drops, or as many
      and the lower name. */
  lemma PruneStepKeeps(max: int, noPrune: set<string>, m: PeerMap, node: string, r: PeerMap)
    requires node in m && Closed(m) && |m[node]| > max && PruneConnections(max, noPrune, m, node) == Some(r)
    ensures node in r && r[node] <= m[node] && |r[node]| == max
    ensures forall p :: p in m[node] && node in noPrune && p in noPrune ==> p in r[node]
    ensures forall k, d :: k in r[node] && !(node in noPrune && k in noPrune) && d in m[node] && d !in r[node] ==>
      && k in m && d in m
      && (|m[k]| < |m[d]| || (|m[k]| == |m[d]| && Less(k, d)))
  {
    hide *;
    StepDivides(max, noPrune, m, node, r);
    KeptBefore(m, r[node] - MustKeep(noPrune, m, node), m[node] - r[node]);
  }

  lemma StepDivides(max: int, noPrune: set<string>, m: PeerMap, node: string, r: PeerMap)
    requires node in m && Closed(m) && |m[node]| > max && PruneConnections(max, noPrune, m, node) == Some(r)
    ensures node in r && MustKeep(noPrune, m, node) <= r[node] <= m[node] && |r[node]| == max
    ensures WorseConnected(m, r[node] - MustKeep(noPrune, m, node), m[node] - r[node])
  {
    assert Room(max, noPrune, m, node) >= 0;
    hide PruneConnections, Keep, Drop, MustKeep, WorseConnected, Room, Elements;
    KeepAndDrop(max, noPrune, m, node);
    PruneConnectionsValue(max, noPrune, m, node);
  }

  lemma KeptBefore(m: PeerMap, kept: set<string>, drop: set<string>)
    requires WorseConnected(m, kept, drop)
    ensures forall k, d :: k in kept && d in drop ==>
      k in m && d in m && (|m[k]| < |m[d]| || (|m[k]| == |m[d]| && Less(k, d)))
  {
    hide Less;
  }

  lemma PruneConnectionsClosed(max: int, noPrune: set<string>, m: PeerMap, node: string)
    requires node in m && Closed(m)
    ensures var r := PruneConnections(max, noPrune, m, node);
      r.Some? ==> r.value.Keys == m.Keys && Closed(r.value)
  {
    if |m[node]| > max && Room(max, noPrune, m, node) >= 0 {
      PruneConnectionsValue(max, noPrune, m, node);
      hide PruneConnections, Keep;
    }
  }

  function PruneAll(max: int, noPrune: set<string>, m: PeerMap, order: seq<string>): Option<PeerMap>
    requires Closed(m) && forall v :: v in order ==> v in m
  {
    if order == [] then Some(m)
    else
      var m' := PruneConnections(max, noPrune, m, order[0]);
      if m'.None? then None
      else
        PruneConnectionsClosed(max, noPrune, m, order[0]);
        assert forall v :: v in order[1..] ==> v in order;
        PruneAll(max, noPrune, m'.value, order[1..])
  }

  function PruneAdjacencyMap(max: int, noPrune: set<string>, m: PeerMap): Option<PeerMap>
    requires Closed(m)
  {
    PruneAll(max, noPrune, m, Sorted(m.Keys))
  }

  /** The links a step leaves: those not between the node and a peer it drops. */
  ghost predicate StepLinks(m: PeerMap, r: PeerMap, node: string)
    requires node in m && node in r
  {
    && r.Keys == m.Keys && r[node] <= m[node]
    && forall a, b :: Linked(r, a, b) <==>
         Linked(m, a, b) && (a == node ==> b in r[node]) && (b == node ==> a in r[node])
  }

  lemma LinksAfter(m: PeerMap, r: PeerMap, node: string, keep: set<string>)
    requires node in m && Symmetric(m) && Irreflexive(m) && keep <= m[node]
    requires r.Keys == m.Keys && r[node] == keep
    requires forall v :: v in m && v != node ==>
      r[v] == if v in m[node] - keep then m[v] - {node} else m[v]
    ensures StepLinks(m, r, node)
  {
    forall a, b ensures Linked(r, a, b) <==>
        Linked(m, a, b) && (a == node ==> b in r[node]) && (b == node ==> a in r[node]) {
      assert Linked(m, a, node) <==> Linked(m, node, a);
      assert !Linked(m, node, node);
    }
  }

  lemma PruneStepLinks(max: int, noPrune: set<string>, m: PeerMap, node: string, r: PeerMap)
    requires node in m && Symmetric(m) && Irreflexive(m) && Closed(m)
    requires PruneConnections(max, noPrune, m, node) == Some(r)
    ensures r.Keys == m.Keys && StepLinks(m, r, node)
  {
    if |m[node]| > max {
      PruneConnectionsValue(max, noPrune, m, node);
      hide PruneConnections, Keep, Symmetric, Irreflexive;
      LinksAfter(m, r, node, Keep(max, noPrune, m, node));
    } else {
      LinksAfter(m, r, node, m[node]);
    }
  }

  predicate Over(max: int, m: PeerMap, v: string) { v in m && |m[v]| > max }

  /** What the fold keeps: a symmetric subgraph with all must-keep links, from which links
      go missing only at nodes that started above the limit. */
  ghost predicate PrunedFrom(max: int, noPrune: set<string>, m: PeerMap, r: PeerMap) {
    && Symmetric(r) && Irreflexive(r) && Subgraph(r, m)
    && (forall a, b :: Linked(m, a, b) && a in noPrune && b in noPrune ==> Linked(r, a, b))
    && (forall a, b :: Linked(m, a, b) && !Linked(r, a, b) ==> Over(max, m, a) || Over(max, m, b))
  }

  lemma FewerPeers(r: PeerMap, m: PeerMap, v: string)
    requires Subgraph(r, m) && v in m
    ensures r[v] <= m[v] && |r[v]| <= |m[v]|
  {
    forall w | w in r[v] ensures w in m[v] { assert Linked(r, v, w); }
    SubsetSize(r[v], m[v]);
  }

  lemma MustKeepSame(max: int, noPrune: set<string>, m: PeerMap, r: PeerMap, v: string)
    requires PrunedFrom(max, noPrune, m, r) && v in m
    ensures MustKeep(noPrune, r, v) == MustKeep(noPrune, m, v)
  {
    FewerPeers(r, m, v);
    if v in noPrune {
      forall w | w in m[v] && w in noPrune ensures w in r[v] { assert Linked(m, v, w); }
    }
  }

  /** A step that keeps the must-keep peers and only thins an overfull node. */
  lemma StepKeepsPruned(max: int, noPrune: set<string>, m: PeerMap, acc: PeerMap, node: string, r: PeerMap)
    requires PrunedFrom(max, noPrune, m, acc) && node in acc && node in r && StepLinks(acc, r, node)
    requires MustKeep(noPrune, acc, node) <= r[node]
    requires r[node] != acc[node] ==> Over(max, acc, node)
    ensures PrunedFrom(max, noPrune, m, r) && Subgraph(r, acc)
  {
    FewerPeers(acc, m, node);
    forall a, b | Linked(r, a, b) ensures Linked(r, b, a) { assert Linked(acc, b, a); }
    forall a ensures !Linked(r, a, a) { assert !Linked(acc, a, a); }
    forall a, b | Linked(m, a, b) && a in noPrune && b in noPrune ensures Linked(r, a, b) {
      assert Linked(acc, a, b) && Linked(acc, b, a);
    }
    forall a, b | Linked(m, a, b) && !Linked(r, a, b) ensures Over(max, m, a) || Over(max, m, b) {
      if Linked(acc, a, b) {
        assert Linked(acc, b, a);
        assert a == node || b == node;
        assert r[node] != acc[node];
      }
    }
  }

  lemma PruneStepPreserves(max: int, noPrune: set<string>, m: PeerMap, acc: PeerMap, node: string,
                           r: PeerMap)
    requires PrunedFrom(max, noPrune, m, acc) && node in acc && Closed(acc)
    requires PruneConnections(max, noPrune, acc, node) == Some(r)
    ensures PrunedFrom(max, noPrune, m, r)
    ensures r.Keys == acc.Keys && |r[node]| <= max
    ensures Subgraph(r, acc)
  {
    PruneStepLinks(max, noPrune, acc, node, r);
    if |acc[node]| > max { KeepAndDrop(max, noPrune, acc, node); }
    StepKeepsPruned(max, noPrune, m, acc, node, r);
  }

  lemma {:induction false} PruneAllIs(max: int, noPrune: set<string>, m: PeerMap, acc: PeerMap,
                                      order: seq<string>)
    requires PrunedFrom(max, noPrune, m, acc) && Closed(acc)
    requires forall v :: v in order ==> v in acc
    requires forall v :: v in m && v !in order ==> |acc[v]| <= max
    ensures var r := PruneAll(max, noPrune, acc, order);
      && (r.None? <==> exists v :: v in order && |MustKeep(noPrune, m, v)| > max)
      && (r.Some? ==> PrunedFrom(max, noPrune, m, r.value) && DegreesAtMost(r.value, max))
  {
    if order != [] {
      var node := order[0];
      var step := PruneConnections(max, noPrune, acc, node);
      MustKeepSame(max, noPrune, m, acc, node);
      MustKeepFits(noPrune, acc, node);
      if step.Some? {
        PruneConnectionsClosed(max, noPrune, acc, node);
        PruneStepPreserves(max, noPrune, m, acc, node, step.value);
        forall v | v in m && v !in order[1..] ensures |step.value[v]| <= max {
          if v != node {
            assert v !in order;
            FewerPeers(step.value, acc, v);
          }
        }
        assert forall v :: v in order <==> v == node || v in order[1..];
        PruneAllIs(max, noPrune, m, step.value, order[1..]);
      }
    }
  }

  lemma MustKeepFits(noPrune: set<string>, m: PeerMap, v: string)
    requires v in m
    ensures |MustKeep(noPrune, m, v)| <= |m[v]|
  {
    SubsetSize(MustKeep(noPrune, m, v), m[v]);
  }

  /** Pruning a symmetric map fails exactly when some node starts with more than max
      must-keep peers; otherwise it returns a symmetric subgraph within the limit. */
  lemma PruneIs(max: int, noPrune: set<string>, m: PeerMap)
    requires Symmetric(m) && Irreflexive(m)
    ensures Closed(m)
    ensures PruneAdjacencyMap(max, noPrune, m).None? <==>
      exists v :: v in m && |MustKeep(noPrune, m, v)| > max
    ensures PruneAdjacencyMap(max, noPrune, m).Some? ==>
      var r := PruneAdjacencyMap(max, noPrune, m).value;
      PrunedFrom(max, noPrune, m, r) && DegreesAtMost(r, max)
  {
    SymmetricClosed(m);
    PruneAllIs(max, noPrune, m, m, Sorted(m.Keys));
  }

  // ----- the order of pruning -----

  lemma {:induction false} PruneAllConcat(max: int, noPrune: set<string>, m: PeerMap, a: seq<string>, b: seq<string>)
    requires Closed(m) && forall v :: v in a + b ==> v in m
    requires forall v :: v in a ==> v in m && |m[v]| <= max
    ensures forall v :: v in b ==> v in m
    ensures PruneAll(max, noPrune, m, a + b) == PruneAll(max, noPrune, m, b)
  {
    assert forall v :: v in b ==> v in a + b;
    if a == [] {
      assert a + b == b;
    } else {
      assert (a + b)[0] == a[0] && (a + b)[1..] == a[1..] + b;
      assert a[0] in a;
      PruneAllConcat(max, noPrune, m, a[1..], b);
    }
  }

  /** Nothing is pruned from a map within the limit. */
  lemma NothingToPrune(max: int, noPrune: set<string>, m: PeerMap)
    requires Closed(m) && DegreesAtMost(m, max)
    ensures PruneAdjacencyMap(max, noPrune, m) == Some(m)
  {
    var order := Sorted(m.Keys);
    assert order + [] == order;
    PruneAllConcat(max, noPrune, m, order, []);
  }

  lemma FirstOver(order: seq<string>, v: string) returns (a: seq<string>, b: seq<string>)
    requires Ascending(order) && v in order
    ensures order == a + ([v] + b) && forall u :: u in a ==> u in order && Less(u, v)
  {
    var i :| 0 <= i < |order| && order[i] == v;
    a, b := order[..i], order[i + 1..];
    assert order == a + ([v] + b);
  }

  lemma StepThenRest(max: int, noPrune: set<string>, m: PeerMap, v: string, b: seq<string>)
    requires Closed(m) && v in m && forall u :: u in b ==> u in m
    ensures var step := PruneConnections(max, noPrune, m, v);
      && (step.None? ==> PruneAll(max, noPrune, m, [v] + b).None?)
      && (step.Some? ==> step.value.Keys == m.Keys && Closed(step.value)
                         && PruneAll(max, noPrune, m, [v] + b) == PruneAll(max, noPrune, step.value, b))
  {
    PruneConnectionsClosed(max, noPrune, m, v);
    assert ([v] + b)[1..] == b;
    hide PruneConnections;
  }

  lemma StepWithin(max: int, noPrune: set<string>, m: PeerMap, v: string, r: PeerMap)
    requires Symmetric(m) && Irreflexive(m) && Closed(m) && v in m
    requires PruneConnections(max, noPrune, m, v) == Some(r)
    ensures r.Keys == m.Keys && Closed(r) && |r[v]| <= max
    ensures forall u :: u in m && |m[u]| <= max ==> |r[u]| <= max
  {
    PruneConnectionsClosed(max, noPrune, m, v);
    PruneStepPreserves(max, noPrune, m, m, v, r);
    forall u | u in m && |m[u]| <= max ensures |r[u]| <= max { FewerPeers(r, m, u); }
  }

  /** Pruning in an order whose first overfull node is v prunes v and starts again. */
  lemma PruneFirstOver(max: int, noPrune: set<string>, m: PeerMap, a: seq<string>, v: string, b: seq<string>)
    requires Symmetric(m) && Irreflexive(m) && Closed(m)
    requires forall u :: u in a + ([v] + b) ==> u in m
    requires forall u :: u in a ==> u in m && |m[u]| <= max
    ensures var step := PruneConnections(max, noPrune, m, v);
      && (step.None? ==> PruneAll(max, noPrune, m, a + ([v] + b)).None?)
      && (step.Some? ==> step.value.Keys == m.Keys && Closed(step.value)
                         && PruneAll(max, noPrune, m, a + ([v] + b))
                            == PruneAll(max, noPrune, step.value, a + ([v] + b)))
  {
    hide PruneAll, PruneConnections, Symmetric, Irreflexive, Closed;
    assert v in a + ([v] + b);
    assert forall u :: u in b ==> u in a + ([v] + b);
    PruneAllConcat(max, noPrune, m, a, [v] + b);
    StepThenRest(max, noPrune, m, v, b);
    var step := PruneConnections(max, noPrune, m, v);
    if step.Some? {
      StepWithin(max, noPrune, m, v, step.value);
      assert (a + [v]) + b == a + ([v] + b);
      PruneAllConcat(max, noPrune, step.value, a + [v], b);
    }
  }

  /** Nodes are pruned in the order of their names: the least node over the limit goes first,
      and from then on it is as if pruning began with the map its step leaves. */
  lemma PruneLeastFirst(max: int, noPrune: set<string>, m: PeerMap, v: string)
    requires Symmetric(m) && Irreflexive(m) && v in m && |m[v]| > max
    requires forall u :: u in m && Less(u, v) ==> |m[u]| <= max
    ensures Closed(m)
    ensures var step := PruneConnections(max, noPrune, m, v);
      && (step.None? ==> PruneAdjacencyMap(max, noPrune, m).None?)
      && (step.Some? ==> Closed(step.value)
                         && PruneAdjacencyMap(max, noPrune, m) == PruneAdjacencyMap(max, noPrune, step.value))
  {
    hide PruneAll, PruneConnections, Symmetric, Irreflexive, Closed, Less, Ascending;
    SymmetricClosed(m);
    var a, b := FirstOver(Sorted(m.Keys), v);
    PruneFirstOver(max, noPrune, m, a, v, b);
  }

  // ----- the pipeline -----

  datatype Topology = Map(peers: PeerMap) | MissingTier1 | TooManyTier1

  /** The part of FullPubnetCoreSets' adjacencyMap that follows addEdges. */
  function Pipeline(m: PeerMap, tier1: set<string>, fullyConnect: bool, max: Option<int>): Topology
    requires Symmetric(m)
  {
    var connected := if fullyConnect then FullyConnectTier1(tier1, m) else Some(m);
    if connected.None? then MissingTier1
    else if max.None? then Map(connected.value)
    else
      FullyConnectIs(tier1, m);
      SymmetricClosed(connected.value);
      var pruned := PruneAdjacencyMap(max.value, if fullyConnect then tier1 else {}, connected.value);
      if pruned.None? then TooManyTier1 else Map(pruned.value)
  }

  lemma CliqueMustKeep(tier1: set<string>, c: PeerMap, v: string)
    requires v in tier1 && v in c && Clique(c, tier1) && Irreflexive(c)
    ensures |MustKeep(tier1, c, v)| == |tier1| - 1
  {
    forall w ensures w in MustKeep(tier1, c, v) <==> w in tier1 - {v} {
      assert w in c[v] <==> Linked(c, v, w);
    }
    assert MustKeep(tier1, c, v) == tier1 - {v};
  }

  lemma OnlyTier1Counts(max: int, tier1: set<string>, c: PeerMap)
    requires tier1 != {} && tier1 <= c.Keys && Clique(c, tier1) && Irreflexive(c)
    ensures (exists v :: v in c && |MustKeep(tier1, c, v)| > max) <==> |tier1| > max + 1
  {
    forall v | v in tier1 ensures |MustKeep(tier1, c, v)| == |tier1| - 1 {
      CliqueMustKeep(tier1, c, v);
    }
    var t :| t in tier1;
    assert t in c && |MustKeep(tier1, c, t)| == |tier1| - 1;
  }

  /** With tier 1 fully connected and a limit, the result is symmetric and irreflexive,
      obeys the limit and keeps tier 1 a clique; it is refused exactly when tier 1 is
      missing a node or has more than max + 1 members. */
  lemma PipelineIs(m: PeerMap, tier1: set<string>, max: int)
    requires Symmetric(m) && Irreflexive(m) && tier1 != {}
    ensures var t := Pipeline(m, tier1, true, Some(max));
      && (t.MissingTier1? <==> !(tier1 <= m.Keys))
      && (t.TooManyTier1? <==> tier1 <= m.Keys && |tier1| > max + 1)
      && (t.Map? ==> Symmetric(t.peers) && Irreflexive(t.peers) && DegreesAtMost(t.peers, max)
                     && Clique(t.peers, tier1) && t.peers.Keys == m.Keys
                     && forall a, b :: Linked(t.peers, a, b) ==>
                          Linked(m, a, b) || (a in tier1 && b in tier1))
  {
    hide FullyConnectTier1, PruneAdjacencyMap, MustKeep;
    FullyConnectIs(tier1, m);
    if tier1 <= m.Keys {
      var c := FullyConnectTier1(tier1, m).value;
      PruneIs(max, tier1, c);
      OnlyTier1Counts(max, tier1, c);
    }
  }

  /** With or without either stage: a map that comes out has the same nodes, is symmetric and
      irreflexive and obeys the limit if there is one; tier 1 is a clique if it was connected;
      without that stage no link is added. */
  lemma PipelineKeeps(m: PeerMap, tier1: set<string>, fullyConnect: bool, max: Option<int>)
    requires Symmetric(m) && Irreflexive(m)
    ensures var t := Pipeline(m, tier1, fullyConnect, max);
      t.Map? ==>
        && t.peers.Keys == m.Keys && Symmetric(t.peers) && Irreflexive(t.peers)
        && (max.Some? ==> DegreesAtMost(t.peers, max.value))
        && (fullyConnect ==> Clique(t.peers, tier1))
        && (!fullyConnect ==> Subgraph(t.peers, m))
  {
    hide FullyConnectTier1, PruneAdjacencyMap, MustKeep;
    FullyConnectIs(tier1, m);
    if !fullyConnect {
      if max.Some? { PruneIs(max.value, {}, m); }
    } else if tier1 <= m.Keys && max.Some? {
      PruneIs(max.value, tier1, FullyConnectTier1(tier1, m).value);
    }
  }

  /** Without the tier-1 stage nothing is protected, so pruning is refused exactly for a
      negative limit on a network with nodes. */
  lemma UnprotectedPrunes(m: PeerMap, max: int)
    requires Symmetric(m) && Irreflexive(m)
    ensures var t := Pipeline(m, {}, false, Some(max));
      t.TooManyTier1? <==> max < 0 && m.Keys != {}
  {
    PruneIs(max, {}, m);
    assert forall v :: v in m ==> MustKeep({}, m, v) == {};
    if m.Keys != {} {
      var v :| v in m.Keys;
      assert |MustKeep({}, m, v)| == 0;
    }
  }
}
