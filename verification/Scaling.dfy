/** addEdges of src/FSLibrary/StellarNetworkData.fs: new nodes join the network by
    splitting random edges. */
module Scaling {
  import opened Text
  import opened Topology

  datatype PubnetNode = PubnetNode(publicKey: string, peers: seq<string>)

  // ----- the edges of a network file -----

  function LowerPeers(key: string, peers: seq<string>): (r: seq<Edge>)
    ensures forall e :: e in r <==> e.1 == key && Less(e.0, key) && e.0 in peers
  {
    if peers == [] then []
    else (if Less(peers[0], key) then [(peers[0], key)] else []) + LowerPeers(key, peers[1..])
  }

  function ExtractEdges(graph: seq<PubnetNode>): (r: seq<Edge>)
    ensures forall e :: e in r <==>
      exists n :: n in graph && e.1 == n.publicKey && Less(e.0, e.1) && e.0 in n.peers
  {
    if graph == [] then []
    else
      assert forall n :: n in graph <==> n == graph[0] || n in graph[1..];
      LowerPeers(graph[0].publicKey, graph[0].peers) + ExtractEdges(graph[1..])
  }

  /** No node lists a lower peer twice, and no two entries give the same edge. */
  ghost predicate ListedOnce(graph: seq<PubnetNode>) {
    && (forall i :: 0 <= i < |graph| ==> NoDup(LowerPeers(graph[i].publicKey, graph[i].peers)))
    && (forall i, j :: 0 <= i < j < |graph| && graph[i].publicKey == graph[j].publicKey ==>
          forall p :: p in graph[i].peers && p in graph[j].peers ==> !Less(p, graph[i].publicKey))
  }

  lemma NoDupConcat<T>(a: seq<T>, b: seq<T>)
    ensures NoDup(a + b) <==> NoDup(a) && NoDup(b) && Elements(a) !! Elements(b)
  {
    if NoDup(a + b) {
      NoDupParts(a, b);
    } else if NoDup(a) && NoDup(b) {
      var q := a + b;
      var i, j :| 0 <= i < j < |q| && q[i] == q[j];
      assert i < |a| <= j;
      assert q[i] in Elements(a) && q[j] in Elements(b);
    }
  }

  lemma DisjointIffClear(n: PubnetNode, tail: seq<PubnetNode>)
    ensures Elements(LowerPeers(n.publicKey, n.peers)) !! Elements(ExtractEdges(tail)) <==> ClearOf(n, tail)
  {
    var first, rest := LowerPeers(n.publicKey, n.peers), ExtractEdges(tail);
    forall m, p | m in tail && m.publicKey == n.publicKey && p in n.peers && p in m.peers && Less(p, n.publicKey)
      ensures (p, n.publicKey) in Elements(first) && (p, n.publicKey) in Elements(rest) {
      assert (p, n.publicKey).1 == m.publicKey && (p, n.publicKey).0 in m.peers;
    }
    forall e | e in Elements(first) && e in Elements(rest) ensures !ClearOf(n, tail) {
      var m :| m in tail && e.1 == m.publicKey && Less(e.0, e.1) && e.0 in m.peers;
      assert e.0 in n.peers;
    }
  }

  lemma {:induction false} ExtractEdgesNoDup(graph: seq<PubnetNode>)
    ensures NoDup(ExtractEdges(graph)) <==> ListedOnce(graph)
  {
    if graph != [] {
      ExtractEdgesNoDup(graph[1..]);
      ListedOnceCons(graph);
      DisjointIffClear(graph[0], graph[1..]);
      NoDupConcat(LowerPeers(graph[0].publicKey, graph[0].peers), ExtractEdges(graph[1..]));
      hide ListedOnce, NoDup, ClearOf, Elements, LowerPeers;
    }
  }

  ghost predicate ClearOf(n: PubnetNode, tail: seq<PubnetNode>) {
    forall m, p :: m in tail && m.publicKey == n.publicKey && p in n.peers && p in m.peers ==>
      !Less(p, n.publicKey)
  }

  lemma ListedOnceCons(graph: seq<PubnetNode>)
    requires graph != []
    ensures ListedOnce(graph) <==>
      (NoDup(LowerPeers(graph[0].publicKey, graph[0].peers))
       && ListedOnce(graph[1..]) && ClearOf(graph[0], graph[1..]))
  {
    var tail := graph[1..];
    assert forall i :: 0 <= i < |tail| ==> tail[i] == graph[i + 1];
    if ListedOnce(tail) && ClearOf(graph[0], tail) && NoDup(LowerPeers(graph[0].publicKey, graph[0].peers)) {
      forall i | 0 <= i < |graph| ensures NoDup(LowerPeers(graph[i].publicKey, graph[i].peers)) {
        if i > 0 { assert graph[i] == tail[i - 1]; }
      }
      forall i, j, p | 0 <= i < j < |graph| && graph[i].publicKey == graph[j].publicKey
          && p in graph[i].peers && p in graph[j].peers
        ensures !Less(p, graph[i].publicKey) {
        assert graph[j] == tail[j - 1];
        if i > 0 { assert graph[i] == tail[i - 1]; }
      }
    }
  }

  // ----- splitting one edge -----

  /** The edge between two nodes, smaller end first. */
  function EdgeOf(a: string, b: string): Edge { if Less(a, b) then (a, b) else (b, a) }

  predicate CanSplit(edges: set<Edge>, e: Edge, u: string) {
    e.0 != u && e.1 != u && EdgeOf(e.0, u) !in edges && EdgeOf(e.1, u) !in edges
  }

  /** A picked edge is refused exactly when the new node is one of its ends or already has an
      edge to one of them. */
  lemma CanSplitIff(edges: set<Edge>, e: Edge, u: string)
    requires Ordered(edges)
    ensures CanSplit(edges, e, u) <==>
      u != e.0 && u != e.1
      && (e.0, u) !in edges && (u, e.0) !in edges && (e.1, u) !in edges && (u, e.1) !in edges
  {
    LessIrreflexive(u);
    if Less(e.0, u) { LessAsymmetric(e.0, u); }
    if Less(e.1, u) { LessAsymmetric(e.1, u); }
    LessTotal(e.0, u);
    LessTotal(e.1, u);
  }

  function Split(edges: set<Edge>, e: Edge, u: string): set<Edge> {
    edges + {EdgeOf(e.0, u)} + {EdgeOf(e.1, u)} - {e}
  }

  function Incident(edges: set<Edge>, v: string): set<Edge> {
    set e | e in edges && (e.0 == v || e.1 == v)
  }

  function Degree(edges: set<Edge>, v: string): nat { |Incident(edges, v)| }

  lemma EdgeOfOrdered(a: string, u: string)
    requires a != u
    ensures Less(EdgeOf(a, u).0, EdgeOf(a, u).1)
    ensures EdgeOf(a, u) == (a, u) || EdgeOf(a, u) == (u, a)
  {
    LessTotal(a, u);
  }

  predicate Touches(e: Edge, v: string) { e.0 == v || e.1 == v }

  lemma SplitIsSwap(edges: set<Edge>, e: Edge, u: string)
    requires Ordered(edges) && e in edges && CanSplit(edges, e, u)
    ensures var f, g := EdgeOf(e.0, u), EdgeOf(e.1, u);
      && Split(edges, e, u) == edges - {e} + {f, g}
      && f !in edges && g !in edges && f != g && e.0 != e.1
      && (forall v :: Touches(f, v) <==> v == e.0 || v == u)
      && (forall v :: Touches(g, v) <==> v == e.1 || v == u)
      && Less(f.0, f.1) && Less(g.0, g.1)
  {
    EdgeOfOrdered(e.0, u);
    EdgeOfOrdered(e.1, u);
    LessIrreflexive(e.0);
  }

  lemma DegreeAdd(edges: set<Edge>, f: Edge, v: string)
    requires f !in edges
    ensures Degree(edges + {f}, v) == Degree(edges, v) + if Touches(f, v) then 1 else 0
  {
    assert Incident(edges + {f}, v) == Incident(edges, v) + if Touches(f, v) then {f} else {};
  }

  lemma SwapDegree(edges: set<Edge>, e: Edge, f: Edge, g: Edge, v: string)
    requires e in edges && f !in edges && g !in edges && f != g
    ensures Degree(edges - {e} + {f, g}, v) ==
      Degree(edges, v) - (if Touches(e, v) then 1 else 0)
      + (if Touches(f, v) then 1 else 0) + (if Touches(g, v) then 1 else 0)
  {
    var rest := edges - {e};
    DegreeAdd(rest, e, v);
    DegreeAdd(rest, f, v);
    DegreeAdd(rest + {f}, g, v);
    assert rest + {e} == edges;
    assert rest + {f} + {g} == edges - {e} + {f, g};
  }

  /** Splitting an edge adds one edge, gives u two and changes nobody else's degree. */
  lemma SplitCounts(edges: set<Edge>, e: Edge, u: string)
    requires Ordered(edges) && e in edges && CanSplit(edges, e, u)
    ensures Ordered(Split(edges, e, u))
    ensures |Split(edges, e, u)| == |edges| + 1
    ensures forall v :: Degree(Split(edges, e, u), v) == Degree(edges, v) + if v == u then 2 else 0
  {
    SplitIsSwap(edges, e, u);
    var f, g := EdgeOf(e.0, u), EdgeOf(e.1, u);
    assert |edges - {e} + {f, g}| == |edges - {e}| + 2 by {
      assert edges - {e} + {f, g} == (edges - {e} + {f}) + {g};
    }
    forall v ensures Degree(Split(edges, e, u), v) == Degree(edges, v) + if v == u then 2 else 0 {
      SwapDegree(edges, e, f, g, v);
    }
  }

  // ----- paths -----

  predicate Adjacent(edges: set<Edge>, a: string, b: string) { (a, b) in edges || (b, a) in edges }

  ghost predicate IsPath(edges: set<Edge>, p: seq<string>, a: string, b: string) {
    && p != [] && p[0] == a && p[|p| - 1] == b
    && forall i :: 0 <= i < |p| - 1 ==> Adjacent(edges, p[i], p[i + 1])
  }

  ghost predicate Joined(edges: set<Edge>, a: string, b: string) { exists p :: IsPath(edges, p, a, b) }

  lemma JoinedSelf(edges: set<Edge>, a: string)
    ensures Joined(edges, a, a)
  {
    assert IsPath(edges, [a], a, a);
  }

  lemma JoinedAdjacent(edges: set<Edge>, a: string, b: string)
    requires Adjacent(edges, a, b)
    ensures Joined(edges, a, b)
  {
    assert IsPath(edges, [a, b], a, b);
  }

  lemma JoinedTransitive(edges: set<Edge>, a: string, b: string, c: string)
    requires Joined(edges, a, b) && Joined(edges, b, c)
    ensures Joined(edges, a, c)
  {
    var p :| IsPath(edges, p, a, b);
    var q :| IsPath(edges, q, b, c);
    var r := p + q[1..];
    forall i | 0 <= i < |r| - 1 ensures Adjacent(edges, r[i], r[i + 1]) {
      if i < |p| - 1 {
        assert Adjacent(edges, p[i], p[i + 1]);
      } else {
        var j := i - (|p| - 1);
        assert Adjacent(edges, q[j], q[j + 1]);
      }
    }
    assert IsPath(edges, r, a, c);
  }

  lemma {:induction false} PathReversed(edges: set<Edge>, p: seq<string>, a: string, b: string)
    requires IsPath(edges, p, a, b)
    ensures Joined(edges, b, a)
    decreases |p|
  {
    if |p| == 1 {
      JoinedSelf(edges, a);
    } else {
      assert Adjacent(edges, p[0], p[1]);
      JoinedAdjacent(edges, p[1], a);
      assert IsPath(edges, p[1..], p[1], b) by {
        forall i | 0 <= i < |p[1..]| - 1 ensures Adjacent(edges, p[1..][i], p[1..][i + 1]) {
          assert Adjacent(edges, p[i + 1], p[i + 2]);
        }
      }
      PathReversed(edges, p[1..], p[1], b);
      JoinedTransitive(edges, b, p[1], a);
    }
  }

  lemma JoinedSymmetric(edges: set<Edge>, a: string, b: string)
    requires Joined(edges, a, b)
    ensures Joined(edges, b, a)
  {
    var p :| IsPath(edges, p, a, b);
    PathReversed(edges, p, a, b);
  }

  /** The new node is joined to both ends of the edge it splits. */
  lemma SplitJoinsEnds(edges: set<Edge>, e: Edge, u: string)
    requires CanSplit(edges, e, u)
    ensures var r := Split(edges, e, u);
      Adjacent(r, e.0, u) && Adjacent(r, u, e.0) && Adjacent(r, e.1, u) && Adjacent(r, u, e.1)
  {
    EdgeOfOrdered(e.0, u);
    EdgeOfOrdered(e.1, u);
  }

  lemma AdjacentStaysJoined(edges: set<Edge>, e: Edge, u: string, a: string, b: string)
    requires CanSplit(edges, e, u) && Adjacent(edges, a, b)
    ensures Joined(Split(edges, e, u), a, b)
  {
    var r := Split(edges, e, u);
    if (a, b) == e || (b, a) == e {
      SplitJoinsEnds(edges, e, u);
      JoinedAdjacent(r, a, u);
      JoinedAdjacent(r, u, b);
      JoinedTransitive(r, a, u, b);
    } else {
      JoinedAdjacent(r, a, b);
    }
  }

  lemma {:induction false} PathStaysJoined(edges: set<Edge>, e: Edge, u: string, p: seq<string>,
                                           a: string, b: string)
    requires CanSplit(edges, e, u) && IsPath(edges, p, a, b)
    ensures Joined(Split(edges, e, u), a, b)
    decreases |p|
  {
    if |p| == 1 {
      JoinedSelf(Split(edges, e, u), a);
    } else {
      assert Adjacent(edges, p[0], p[1]);
      AdjacentStaysJoined(edges, e, u, a, p[1]);
      assert IsPath(edges, p[1..], p[1], b) by {
        forall i | 0 <= i < |p[1..]| - 1 ensures Adjacent(edges, p[1..][i], p[1..][i + 1]) {
          assert Adjacent(edges, p[i + 1], p[i + 2]);
        }
      }
      PathStaysJoined(edges, e, u, p[1..], p[1], b);
      JoinedTransitive(Split(edges, e, u), a, p[1], b);
    }
  }

  /** Splitting an edge, listed or not, never separates joined nodes. */
  lemma SplitKeepsJoined(edges: set<Edge>, e: Edge, u: string, a: string, b: string)
    requires CanSplit(edges, e, u) && Joined(edges, a, b)
    ensures Joined(Split(edges, e, u), a, b)
  {
    var p :| IsPath(edges, p, a, b);
    PathStaysJoined(edges, e, u, p, a, b);
  }

  // ----- what a run keeps -----

  ghost predicate StillJoined(start: set<Edge>, edges: set<Edge>) {
    forall a, b :: Joined(start, a, b) ==> Joined(edges, a, b)
  }

  /** Joined to an end of an edge of the starting graph. */
  ghost predicate Attached(start: set<Edge>, edges: set<Edge>, v: string) {
    exists e :: e in start && Joined(edges, v, e.0)
  }

  ghost predicate AllAttached(start: set<Edge>, edges: set<Edge>, listed: seq<Edge>) {
    forall e :: e in listed ==> Attached(start, edges, e.0) && Attached(start, edges, e.1)
  }

  lemma AttachedStays(start: set<Edge>, edges: set<Edge>, e: Edge, u: string, v: string)
    requires CanSplit(edges, e, u) && Attached(start, edges, v)
    ensures Attached(start, Split(edges, e, u), v)
  {
    var f :| f in start && Joined(edges, v, f.0);
    SplitKeepsJoined(edges, e, u, v, f.0);
  }

  lemma NewNodeAttached(start: set<Edge>, edges: set<Edge>, e: Edge, u: string)
    requires CanSplit(edges, e, u) && Attached(start, edges, e.0)
    ensures Attached(start, Split(edges, e, u), u)
  {
    var r := Split(edges, e, u);
    AttachedStays(start, edges, e, u, e.0);
    var f :| f in start && Joined(r, e.0, f.0);
    SplitJoinsEnds(edges, e, u);
    JoinedAdjacent(r, u, e.0);
    JoinedTransitive(r, u, e.0, f.0);
  }

  lemma StartAttached(start: set<Edge>, listed: seq<Edge>)
    requires Elements(listed) == start
    ensures AllAttached(start, start, listed)
  {
    forall e | e in listed ensures Attached(start, start, e.0) && Attached(start, start, e.1) {
      assert e in Elements(listed);
      JoinedSelf(start, e.0);
      JoinedAdjacent(start, e.1, e.0);
    }
  }

  /** The array list after a split: one entry replaced, one appended. */
  function SplitList(listed: seq<Edge>, index: nat, u: string): seq<Edge>
    requires index < |listed|
  {
    listed[index := EdgeOf(listed[index].0, u)] + [EdgeOf(listed[index].1, u)]
  }

  /** Everything in the edge set is in the list, so every index drawn below the size of
      the set is an index of the list. */
  ghost predicate Covers(listed: seq<Edge>, edges: set<Edge>) { edges <= Elements(listed) }

  lemma CoversIndex(listed: seq<Edge>, edges: set<Edge>)
    requires Covers(listed, edges)
    ensures |edges| <= |listed|
  {
    NoDupSize(listed);
    SubsetSize(edges, Elements(listed));
  }

  lemma SplitListMembers(listed: seq<Edge>, index: nat, u: string, x: Edge)
    requires index < |listed|
    ensures var e := listed[index];
      && (x in SplitList(listed, index, u) ==> x in listed || x == EdgeOf(e.0, u) || x == EdgeOf(e.1, u))
      && (x == EdgeOf(e.0, u) || x == EdgeOf(e.1, u) || (x in listed && x != e)
          ==> x in SplitList(listed, index, u))
  {
    var r := SplitList(listed, index, u);
    assert r[index] == EdgeOf(listed[index].0, u) && r[|listed|] == EdgeOf(listed[index].1, u);
    if x in listed && x != listed[index] {
      var k :| 0 <= k < |listed| && listed[k] == x;
      assert r[k] == x;
    }
  }

  lemma CoversStays(listed: seq<Edge>, edges: set<Edge>, index: nat, u: string)
    requires Covers(listed, edges) && index < |listed|
    ensures Covers(SplitList(listed, index, u), Split(edges, listed[index], u))
  {
    forall x | x in Split(edges, listed[index], u) ensures x in SplitList(listed, index, u) {
      SplitListMembers(listed, index, u, x);
      assert x in edges ==> x in Elements(listed);
    }
  }

  /** With no repetition, the list stays a duplicate-free listing of exactly the set. */
  lemma SplitListAgrees(listed: seq<Edge>, edges: set<Edge>, index: nat, u: string)
    requires NoDup(listed) && Elements(listed) == edges && Ordered(edges)
    requires index < |listed| && CanSplit(edges, listed[index], u)
    ensures NoDup(SplitList(listed, index, u))
    ensures Elements(SplitList(listed, index, u)) == Split(edges, listed[index], u)
  {
    var e := listed[index];
    var r, s := SplitList(listed, index, u), Split(edges, e, u);
    assert e in edges;
    SplitCounts(edges, e, u);
    forall x ensures x in s <==> x in r {
      SplitListMembers(listed, index, u, x);
      assert x in edges <==> x in listed;
      if x == e && x in r { OldEdgeGone(listed, edges, index, u); }
    }
    assert Elements(r) == s;
    NoDupSize(listed);
    NoDupSize(r);
  }

  lemma OldEdgeGone(listed: seq<Edge>, edges: set<Edge>, index: nat, u: string)
    requires NoDup(listed) && index < |listed| && CanSplit(edges, listed[index], u)
    ensures listed[index] !in SplitList(listed, index, u)
  {
    var e := listed[index];
    var r := SplitList(listed, index, u);
    EdgeOfOrdered(e.0, u);
    EdgeOfOrdered(e.1, u);
    forall k | 0 <= k < |r| ensures r[k] != e {
      if k < |listed| && k != index {
        assert r[k] == listed[k];
        if k < index { assert listed[k] != listed[index]; } else { assert listed[index] != listed[k]; }
      }
    }
  }

  // ----- the run -----

  const MIN_PEERS_TIER1 := 27
  const MAX_PEERS_TIER1 := 64
  const MIN_PEERS_NON_TIER1 := 1
  const MAX_PEERS_NON_TIER1 := 65
  const MAX_RETRIES := 100

  /** The degrees that can be drawn; the upper bounds are exclusive. */
  predicate Drawable(d: int, tier1: bool) {
    if tier1 then MIN_PEERS_TIER1 <= d < MAX_PEERS_TIER1
    else d == 8 || MIN_PEERS_NON_TIER1 <= d < MAX_PEERS_NON_TIER1
  }

  lemma DrawableRange(tier1: bool)
    ensures exists d :: Drawable(d, tier1)
    ensures forall d :: Drawable(d, tier1) ==> 0 < d < MAX_PEERS_NON_TIER1
  {
    if tier1 { assert Drawable(30, tier1); } else { assert Drawable(8, tier1); }
  }

  /** A drawn degree: 27 to 63 for a tier-1 node, 1 to 64 for another. */
  predicate InRange(d: int, tier1: bool) { if tier1 then 27 <= d <= 63 else 1 <= d <= 64 }

  lemma DrawableIff(d: int, tier1: bool)
    ensures Drawable(d, tier1) <==> InRange(d, tier1)
  {
  }

  datatype Scaled =
    | Peers(peers: PeerMap)
    | EmptyGraph
    | NoEdgeToPick
    | GraphTooSmall(node: string, degree: int)
    | NoEdgeFor(node: string)

  function Splits(d: int): int { (d + 1) / 2 }

  /** The degree that the draws give a node: 2 * ceil(d / 2) for each of its draws. */
  function Gained(nodes: seq<string>, draws: seq<int>, v: string): int
    requires |draws| <= |nodes|
    decreases |draws|
  {
    if draws == [] then 0
    else
      var k := |draws| - 1;
      Gained(nodes, draws[..k], v) + if nodes[k] == v then 2 * Splits(draws[k]) else 0
  }

  function SplitTotal(draws: seq<int>): int {
    if draws == [] then 0 else SplitTotal(draws[..|draws| - 1]) + Splits(draws[|draws| - 1])
  }

  /** The accounts of a run without repeated edges, in the middle of inserting node u with
      k edges split for it so far. */
  ghost predicate Accounts(start: set<Edge>, listed: seq<Edge>, edges: set<Edge>,
                           nodes: seq<string>, draws: seq<int>, u: string, k: int)
    requires |draws| <= |nodes|
  {
    && NoDup(listed) && Elements(listed) == edges && Ordered(edges)
    && |edges| == |start| + SplitTotal(draws) + k
    && forall v :: Degree(edges, v) == Degree(start, v) + Gained(nodes, draws, v) + if v == u then 2 * k else 0
  }

  lemma AccountsSplit(start: set<Edge>, listed: seq<Edge>, edges: set<Edge>,
                      nodes: seq<string>, draws: seq<int>, u: string, k: int, index: nat)
    requires |draws| <= |nodes| && Accounts(start, listed, edges, nodes, draws, u, k)
    requires index < |listed| && CanSplit(edges, listed[index], u)
    ensures Accounts(start, SplitList(listed, index, u), Split(edges, listed[index], u), nodes, draws, u, k + 1)
  {
    assert listed[index] in edges;
    SplitListAgrees(listed, edges, index, u);
    SplitCounts(edges, listed[index], u);
  }

  lemma AccountsNext(start: set<Edge>, listed: seq<Edge>, edges: set<Edge>,
                     nodes: seq<string>, draws: seq<int>, d: int, next: string)
    requires |draws| < |nodes|
    requires Accounts(start, listed, edges, nodes, draws, nodes[|draws|], Splits(d))
    ensures Accounts(start, listed, edges, nodes, draws + [d], next, 0)
  {
    assert (draws + [d])[..|draws|] == draws;
  }

  /** What every run keeps, repeated edges or not. */
  ghost predicate Grown(start: set<Edge>, listed: seq<Edge>, edges: set<Edge>) {
    && Covers(listed, edges) && StillJoined(start, edges) && AllAttached(start, edges, listed)
    && (listed == [] ==> start == {}) && (listed != [] ==> edges != {})
    && (forall e :: e in listed ==> Less(e.0, e.1))
  }

  lemma GrownStart(listed: seq<Edge>)
    requires forall e :: e in listed ==> Less(e.0, e.1)
    ensures Grown(Elements(listed), listed, Elements(listed))
  {
    hide Joined, AllAttached;
    StartAttached(Elements(listed), listed);
    if listed != [] { assert listed[0] in Elements(listed); }
  }

  lemma GrownSplit(start: set<Edge>, listed: seq<Edge>, edges: set<Edge>, index: nat, u: string)
    requires Grown(start, listed, edges) && index < |listed| && CanSplit(edges, listed[index], u)
    ensures Grown(start, SplitList(listed, index, u), Split(edges, listed[index], u))
    ensures Attached(start, Split(edges, listed[index], u), u)
  {
    var e := listed[index];
    var listed', edges' := SplitList(listed, index, u), Split(edges, e, u);
    CoversStays(listed, edges, index, u);
    forall a, b | Joined(start, a, b) ensures Joined(edges', a, b) { SplitKeepsJoined(edges, e, u, a, b); }
    NewNodeAttached(start, edges, e, u);
    EdgeOfOrdered(e.0, u);
    EdgeOfOrdered(e.1, u);
    forall x | x in listed'
      ensures Attached(start, edges', x.0) && Attached(start, edges', x.1) && Less(x.0, x.1) {
      SplitListMembers(listed, index, u, x);
      forall v | Attached(start, edges, v) ensures Attached(start, edges', v) {
        AttachedStays(start, edges, e, u, v);
      }
    }
    assert EdgeOf(e.0, u) in edges';
  }

  /** The state between two picks: k edges have been split for the current node, whose
      predecessors are done. */
  ghost predicate Running(start: set<Edge>, once: bool, listed: seq<Edge>, edges: set<Edge>,
                          nodes: seq<string>, draws: seq<int>, u: string, k: int)
  {
    && |draws| <= |nodes|
    && Grown(start, listed, edges)
    && (forall v :: v in nodes[..|draws|] ==> Attached(start, edges, v))
    && (k > 0 ==> Attached(start, edges, u))
    && (once ==> Accounts(start, listed, edges, nodes, draws, u, k))
  }

  lemma AccountsStart(graph: seq<PubnetNode>, nodes: seq<string>, u: string)
    requires ListedOnce(graph)
    ensures var listed := ExtractEdges(graph);
      Accounts(Elements(listed), listed, Elements(listed), nodes, [], u, 0)
  {
    var listed := ExtractEdges(graph);
    ExtractEdgesNoDup(graph);
    assert Ordered(Elements(listed)) by {
      forall e | e in Elements(listed) ensures Less(e.0, e.1) { assert e in listed; }
    }
    hide NoDup, Ordered, ExtractEdges, Elements, Degree;
  }

  lemma RunningStart(graph: seq<PubnetNode>, nodes: seq<string>, u: string)
    ensures var listed := ExtractEdges(graph);
      Running(Elements(listed), ListedOnce(graph), listed, Elements(listed), nodes, [], u, 0)
  {
    hide Grown, Accounts, ListedOnce, ExtractEdges, Elements, Attached;
    GrownStart(ExtractEdges(graph));
    if ListedOnce(graph) { AccountsStart(graph, nodes, u); }
  }

  lemma RunningSame(start: set<Edge>, once: bool, listed: seq<Edge>, edges: set<Edge>,
                    nodes: seq<string>, draws: seq<int>, u: string, v: string)
    requires Running(start, once, listed, edges, nodes, draws, u, 0)
    ensures Running(start, once, listed, edges, nodes, draws, v, 0)
  {
  }

  lemma NoEdgesNoStart(graph: seq<PubnetNode>)
    requires ExtractEdges(graph) == []
    ensures Elements(ExtractEdges(graph)) == {}
  {
  }

  lemma RunningPick(start: set<Edge>, once: bool, listed: seq<Edge>, edges: set<Edge>,
                    nodes: seq<string>, draws: seq<int>, u: string, k: int)
    requires Running(start, once, listed, edges, nodes, draws, u, k)
    ensures |edges| <= |listed|
    ensures listed == [] ==> start == {}
    ensures listed != [] ==> edges != {}
  {
    CoversIndex(listed, edges);
  }

  lemma RunningSplit(start: set<Edge>, once: bool, listed: seq<Edge>, edges: set<Edge>,
                     nodes: seq<string>, draws: seq<int>, u: string, k: nat, index: nat)
    requires Running(start, once, listed, edges, nodes, draws, u, k)
    requires index < |listed| && CanSplit(edges, listed[index], u)
    ensures Running(start, once, SplitList(listed, index, u), Split(edges, listed[index], u),
                    nodes, draws, u, k + 1)
  {
    GrownSplit(start, listed, edges, index, u);
    if once { AccountsSplit(start, listed, edges, nodes, draws, u, k, index); }
    forall v | v in nodes[..|draws|] ensures Attached(start, Split(edges, listed[index], u), v) {
      AttachedStays(start, edges, listed[index], u, v);
    }
  }

  lemma RunningNext(start: set<Edge>, once: bool, listed: seq<Edge>, edges: set<Edge>,
                    nodes: seq<string>, draws: seq<int>, d: int, next: string)
    requires |draws| < |nodes| && d > 0
    requires Running(start, once, listed, edges, nodes, draws, nodes[|draws|], Splits(d))
    ensures Running(start, once, listed, edges, nodes, draws + [d], next, 0)
  {
    if once { AccountsNext(start, listed, edges, nodes, draws, d, next); }
    assert nodes[..|draws + [d]|] == nodes[..|draws|] + [nodes[|draws|]];
  }

  /** What a finished run has done. */
  ghost predicate Finished(start: set<Edge>, once: bool, edges: set<Edge>, nodes: seq<string>, draws: seq<int>)
    requires |draws| == |nodes|
  {
    && StillJoined(start, edges)
    && (forall v :: v in nodes ==> Attached(start, edges, v))
    && (forall e :: e in edges ==> Attached(start, edges, e.0))
    && Ordered(edges)
    && (once ==>
          && |edges| == |start| + SplitTotal(draws)
          && forall v :: Degree(edges, v) == Degree(start, v) + Gained(nodes, draws, v))
  }

  lemma RunningFinish(start: set<Edge>, once: bool, listed: seq<Edge>, edges: set<Edge>,
                      nodes: seq<string>, draws: seq<int>, u: string)
    requires |draws| == |nodes| && Running(start, once, listed, edges, nodes, draws, u, 0)
    ensures Finished(start, once, edges, nodes, draws)
    ensures start == {} ==> nodes == []
  {
    assert nodes[..|draws|] == nodes;
    if nodes != [] { assert Attached(start, edges, nodes[0]); }
    forall e | e in edges ensures Attached(start, edges, e.0) && Less(e.0, e.1) {
      assert e in Elements(listed);
    }
  }

  // ----- the run as a sequence of random choices -----

  /** begun counts the nodes that have drawn a degree; the last of them is being inserted
      while some of its degree remains. */
  datatype Scale = Scale(listed: seq<Edge>, edges: set<Edge>, begun: nat, remaining: int, errors: nat)

  datatype Choice = Draw(degree: int) | Pick(index: nat)

  function Begin(graph: seq<PubnetNode>): Scale {
    Scale(ExtractEdges(graph), Elements(ExtractEdges(graph)), 0, 0, 0)
  }

  /** What the source's random calls and guards allow next. */
  predicate Possible(graph: seq<PubnetNode>, newNodes: seq<string>, tier1: set<string>, s: Scale, c: Choice) {
    match c
    case Draw(d) =>
      s.remaining <= 0 && s.begun < |newNodes| && Drawable(d, newNodes[s.begun] in tier1) && d < |graph|
    case Pick(index) =>
      s.remaining > 0 && 0 < s.begun <= |newNodes| && s.errors < MAX_RETRIES && index < |s.edges|
  }

  function Next(newNodes: seq<string>, s: Scale, c: Choice): Scale {
    match c
    case Draw(d) => s.(begun := s.begun + 1, remaining := d, errors := 0)
    case Pick(index) =>
      if !(0 < s.begun <= |newNodes| && index < |s.listed|) then s
      else
        var u := newNodes[s.begun - 1];
        var e := s.listed[index];
        if CanSplit(s.edges, e, u) then
          s.(listed := SplitList(s.listed, index, u), edges := Split(s.edges, e, u),
             remaining := s.remaining - 2, errors := 0)
        else s.(errors := s.errors + 1)
  }

  function After(graph: seq<PubnetNode>, newNodes: seq<string>, cs: seq<Choice>): Scale
    decreases |cs|
  {
    if cs == [] then Begin(graph)
    else Next(newNodes, After(graph, newNodes, cs[..|cs| - 1]), cs[|cs| - 1])
  }

  /** A run so far: every choice was possible. */
  ghost predicate Chosen(graph: seq<PubnetNode>, newNodes: seq<string>, tier1: set<string>, cs: seq<Choice>)
    decreases |cs|
  {
    cs == []
    || (Chosen(graph, newNodes, tier1, cs[..|cs| - 1])
        && Possible(graph, newNodes, tier1, After(graph, newNodes, cs[..|cs| - 1]), cs[|cs| - 1]))
  }

  /** The run of these choices has come to this point. */
  ghost predicate CameTo(graph: seq<PubnetNode>, newNodes: seq<string>, tier1: set<string>, cs: seq<Choice>, s: Scale)
  {
    Chosen(graph, newNodes, tier1, cs) && After(graph, newNodes, cs) == s
  }

  lemma Chooses(graph: seq<PubnetNode>, newNodes: seq<string>, tier1: set<string>, cs: seq<Choice>, s: Scale,
                c: Choice)
    requires CameTo(graph, newNodes, tier1, cs, s) && Possible(graph, newNodes, tier1, s, c)
    ensures CameTo(graph, newNodes, tier1, cs + [c], Next(newNodes, s, c))
  {
    assert (cs + [c])[..|cs|] == cs;
  }

  lemma ChoosesDraw(graph: seq<PubnetNode>, newNodes: seq<string>, tier1: set<string>, cs: seq<Choice>, s: Scale,
                    d: int)
    requires CameTo(graph, newNodes, tier1, cs, s) && Possible(graph, newNodes, tier1, s, Draw(d))
    ensures CameTo(graph, newNodes, tier1, cs + [Draw(d)], Scale(s.listed, s.edges, s.begun + 1, d, 0))
  {
    hide CameTo;
    Chooses(graph, newNodes, tier1, cs, s, Draw(d));
  }

  /** The state after a pick, as the source's assignments build it. */
  lemma ChoosesPick(graph: seq<PubnetNode>, newNodes: seq<string>, tier1: set<string>, cs: seq<Choice>, s: Scale,
                    index: nat)
    requires CameTo(graph, newNodes, tier1, cs, s) && Possible(graph, newNodes, tier1, s, Pick(index))
    requires index < |s.listed|
    ensures var u, e := newNodes[s.begun - 1], s.listed[index];
      CameTo(graph, newNodes, tier1, cs + [Pick(index)],
             if CanSplit(s.edges, e, u)
             then Scale(SplitList(s.listed, index, u), Split(s.edges, e, u), s.begun, s.remaining - 2, 0)
             else Scale(s.listed, s.edges, s.begun, s.remaining, s.errors + 1))
  {
    hide CameTo, SplitList, Split, CanSplit;
    Chooses(graph, newNodes, tier1, cs, s, Pick(index));
  }

  lemma NoGraph(graph: seq<PubnetNode>)
    requires graph == []
    ensures Elements(ExtractEdges(graph)) == {}
  {
  }

  lemma BeginsWith(graph: seq<PubnetNode>, newNodes: seq<string>, tier1: set<string>)
    ensures CameTo(graph, newNodes, tier1, [], Begin(graph))
  {
  }

  /** The random choices are arbitrary. The ghost results are the final edge set, the drawn
      degrees, the picks made for a node that found no edge, and the choices of the run. */
  method AddEdges(graph: seq<PubnetNode>, newNodes: seq<string>, tier1: set<string>)
    returns (r: Scaled, ghost edges: set<Edge>, ghost draws: seq<int>, ghost rejected: seq<Edge>,
             ghost choices: seq<Choice>)
    ensures Chosen(graph, newNodes, tier1, choices) && After(graph, newNodes, choices).edges == edges
    ensures r.Peers? ==>
      After(graph, newNodes, choices).begun == |newNodes| && After(graph, newNodes, choices).remaining <= 0
    ensures var start := Elements(ExtractEdges(graph));
      match r
      case Peers(m) =>
        && m == CreateAdjacencyMap(edges)
        && |draws| == |newNodes|
        && (forall i :: 0 <= i < |draws| ==> InRange(draws[i], newNodes[i] in tier1) && draws[i] < |graph|)
        && Finished(start, ListedOnce(graph), edges, newNodes, draws)
      case EmptyGraph => graph == []
      case NoEdgeToPick => start == {} && newNodes != []
      case GraphTooSmall(u, degree) =>
        |draws| < |newNodes| && u == newNodes[|draws|] && InRange(degree, u in tier1) && degree >= |graph|
      case NoEdgeFor(u) =>
        && |draws| < |newNodes| && u == newNodes[|draws|] && |rejected| == 100
        && forall i :: 0 <= i < |rejected| ==> !CanSplit(edges, rejected[i], u)
    ensures graph == [] ==> r.EmptyGraph?
    ensures newNodes != [] && ExtractEdges(graph) == [] ==> !r.Peers?
  {
    hide Running, Grown, Accounts, Attached, Elements, ExtractEdges, Finished, ListedOnce, CameTo,
      After, Chosen;
    edges, draws, rejected, choices := {}, [], [], [];
    if graph == [] {
      assert Begin(graph).edges == {} by { NoGraph(graph); }
      BeginsWith(graph, newNodes, tier1);
      Came(graph, newNodes, tier1, [], Begin(graph));
      return EmptyGraph, edges, draws, rejected, choices;
    }
    var edgeArray := ExtractEdges(graph);
    ghost var start, once := Elements(edgeArray), ListedOnce(graph);
    var edgeArrayList := edgeArray;
    var edgeSet := Elements(edgeArray);
    ghost var s := Begin(graph);
    RunningStart(graph, newNodes, "");
    BeginsWith(graph, newNodes, tier1);
    for i := 0 to |newNodes|
      invariant |draws| == i
      invariant forall j :: 0 <= j < i ==> Drawable(draws[j], newNodes[j] in tier1) && draws[j] < |graph|
      invariant Running(start, once, edgeArrayList, edgeSet, newNodes, draws, "", 0)
      invariant CameTo(graph, newNodes, tier1, choices, s)
      invariant s.listed == edgeArrayList && s.edges == edgeSet && s.begun == i && s.remaining <= 0
    {
      var u := newNodes[i];
      DrawableRange(u in tier1);
      var degree :| Drawable(degree, u in tier1);
      if degree >= |graph| {
        Came(graph, newNodes, tier1, choices, s);
        return GraphTooSmall(u, degree), edgeSet, draws, rejected, choices;
      }
      ChoosesDraw(graph, newNodes, tier1, choices, s, degree);
      s, choices := Scale(edgeArrayList, edgeSet, i + 1, degree, 0), choices + [Draw(degree)];
      var degreeRemaining := degree;
      var errorCount := 0;
      ghost var k := 0;
      rejected := [];
      RunningSame(start, once, edgeArrayList, edgeSet, newNodes, draws, "", u);
      while degreeRemaining > 0
        invariant degreeRemaining == degree - 2 * k && k >= 0 && degreeRemaining >= -1
        invariant Running(start, once, edgeArrayList, edgeSet, newNodes, draws, u, k)
        invariant |rejected| == errorCount < MAX_RETRIES
        invariant forall j :: 0 <= j < |rejected| ==> !CanSplit(edgeSet, rejected[j], u)
        invariant CameTo(graph, newNodes, tier1, choices, s)
        invariant s == Scale(edgeArrayList, edgeSet, i + 1, degreeRemaining, errorCount)
        decreases degreeRemaining, MAX_RETRIES - errorCount
      {
        RunningPick(start, once, edgeArrayList, edgeSet, newNodes, draws, u, k);
        if edgeArrayList == [] {
          Came(graph, newNodes, tier1, choices, s);
          return NoEdgeToPick, edgeSet, draws, rejected, choices;
        }
        var index :| 0 <= index < |edgeSet|;
        ChoosesPick(graph, newNodes, tier1, choices, s, index);
        choices := choices + [Pick(index)];
        var (a, b) := edgeArrayList[index];
        var newEdge1, newEdge2 := EdgeOf(a, u), EdgeOf(b, u);
        if a != u && b != u && newEdge1 !in edgeSet && newEdge2 !in edgeSet {
          RunningSplit(start, once, edgeArrayList, edgeSet, newNodes, draws, u, k, index);
          degreeRemaining := degreeRemaining - 2;
          edgeArrayList := edgeArrayList[index := newEdge1];
          edgeArrayList := edgeArrayList + [newEdge2];
          edgeSet := edgeSet + {newEdge1};
          edgeSet := edgeSet + {newEdge2};
          edgeSet := edgeSet - {(a, b)};
          errorCount := 0;
          k, rejected := k + 1, [];
        } else {
          errorCount := errorCount + 1;
          rejected := rejected + [(a, b)];
          if errorCount >= MAX_RETRIES {
            Came(graph, newNodes, tier1, choices, Scale(edgeArrayList, edgeSet, i + 1, degreeRemaining, errorCount));
            return NoEdgeFor(u), edgeSet, draws, rejected, choices;
          }
        }
        s := Scale(edgeArrayList, edgeSet, i + 1, degreeRemaining, errorCount);
      }
      RunningNext(start, once, edgeArrayList, edgeSet, newNodes, draws, degree, "");
      draws := draws + [degree];
    }
    Came(graph, newNodes, tier1, choices, s);
    RunningFinish(start, once, edgeArrayList, edgeSet, newNodes, draws, "");
    if edgeArray == [] { assert start == {} by { NoEdgesNoStart(graph); } }
    return Peers(CreateAdjacencyMap(edgeSet)), edgeSet, draws, rejected, choices;
  }

  lemma Came(graph: seq<PubnetNode>, newNodes: seq<string>, tier1: set<string>, cs: seq<Choice>, s: Scale)
    requires CameTo(graph, newNodes, tier1, cs, s)
    ensures Chosen(graph, newNodes, tier1, cs) && After(graph, newNodes, cs) == s
  {
  }

  // ----- consequences -----

  /** Distinct new nodes get exactly 2 * ceil(d / 2) edges; every other node keeps its
      degree. */
  lemma {:induction false} GainedDistinct(nodes: seq<string>, draws: seq<int>, v: string)
    requires NoDup(nodes) && |draws| <= |nodes|
    ensures v !in nodes[..|draws|] ==> Gained(nodes, draws, v) == 0
    ensures forall i :: 0 <= i < |draws| && nodes[i] == v ==> Gained(nodes, draws, v) == 2 * Splits(draws[i])
    decreases |draws|
  {
    if draws != [] {
      var k := |draws| - 1;
      GainedDistinct(nodes, draws[..k], v);
      assert nodes[..k + 1] == nodes[..k] + [nodes[k]];
      if nodes[k] == v {
        assert v !in nodes[..k] by {
          forall i | 0 <= i < k ensures nodes[..k][i] != v { assert nodes[i] != nodes[k]; }
        }
      }
    }
  }

  /** A run without repeated edges gives each of its distinct new nodes an even number of
      edges, the drawn one or one more: 28 to 64 for a tier-1 node, 2 to 64 for another. */
  lemma NewNodeGains(start: set<Edge>, edges: set<Edge>, nodes: seq<string>, draws: seq<int>, i: nat, tier1: bool)
    requires |draws| == |nodes| && Finished(start, true, edges, nodes, draws)
    requires NoDup(nodes) && i < |nodes| && InRange(draws[i], tier1)
    ensures var gained := Degree(edges, nodes[i]) - Degree(start, nodes[i]);
      && gained % 2 == 0 && draws[i] <= gained <= draws[i] + 1
      && (if tier1 then 28 else 2) <= gained <= 64
  {
    GainedDistinct(nodes, draws, nodes[i]);
  }

  /** Every two edges have joined ends. */
  ghost predicate Connected(edges: set<Edge>) {
    forall e, f :: e in edges && f in edges ==> Joined(edges, e.0, f.0)
  }

  /** A run never breaks a connected network apart. */
  lemma FinishedConnected(start: set<Edge>, once: bool, edges: set<Edge>, nodes: seq<string>, draws: seq<int>)
    requires |draws| == |nodes| && Finished(start, once, edges, nodes, draws) && Connected(start)
    ensures Connected(edges)
  {
    forall e, f | e in edges && f in edges ensures Joined(edges, e.0, f.0) {
      var x :| x in start && Joined(edges, e.0, x.0);
      var y :| y in start && Joined(edges, f.0, y.0);
      assert Joined(start, x.0, y.0);
      JoinedSymmetric(edges, f.0, y.0);
      JoinedTransitive(edges, e.0, x.0, y.0);
      JoinedTransitive(edges, e.0, y.0, f.0);
    }
  }

  // ----- the whole adjacency map -----

  datatype Adjacency = NotScaled(why: Scaled) | Built(topology: Topology)

  /** The adjacency map of FullPubnetCoreSets: scale, fully connect tier 1, prune. */
  method AdjacencyMap(graph: seq<PubnetNode>, newNodes: seq<string>, tier1: set<string>,
                      fullyConnect: bool, max: Option<int>)
    returns (r: Adjacency, ghost edges: set<Edge>, ghost draws: seq<int>, ghost choices: seq<Choice>)
    ensures Chosen(graph, newNodes, tier1, choices) && After(graph, newNodes, choices).edges == edges
    ensures r.Built? ==>
      After(graph, newNodes, choices).begun == |newNodes| && After(graph, newNodes, choices).remaining <= 0
    ensures r.NotScaled? ==> !r.why.Peers?
    ensures r.Built? ==>
      && |draws| == |newNodes|
      && Finished(Elements(ExtractEdges(graph)), ListedOnce(graph), edges, newNodes, draws)
      && Symmetric(CreateAdjacencyMap(edges))
      && r.topology == Pipeline(CreateAdjacencyMap(edges), tier1, fullyConnect, max)
    ensures r.Built? && r.topology.Map? ==>
      var m := r.topology.peers;
      && m.Keys == CreateAdjacencyMap(edges).Keys && Symmetric(m) && Irreflexive(m)
      && (max.Some? ==> DegreesAtMost(m, max.value))
      && (fullyConnect ==> Clique(m, tier1))
  {
    var scaled;
    ghost var rejected;
    scaled, edges, draws, rejected, choices := AddEdges(graph, newNodes, tier1);
    if !scaled.Peers? { return NotScaled(scaled), edges, draws, choices; }
    AdjacencyIsEdges(edges);
    assert Ordered(edges);
    hide Pipeline, ExtractEdges, ListedOnce, CreateAdjacencyMap, Finished, Chosen, After;
    r := Built(Pipeline(scaled.peers, tier1, fullyConnect, max));
    PipelineKeeps(scaled.peers, tier1, fullyConnect, max);
  }
}
