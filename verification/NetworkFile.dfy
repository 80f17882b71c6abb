/** What survives of a network file's own peer lists: exactly when every listed link becomes
    one edge, exactly which nodes the final map knows, and when nodes that the file joins stay
    joined. */
module NetworkFile {
  import opened Text
  import opened Topology
  import opened Scaling
  import opened ScalingRuns

  /** The links that the file lists, by either end, other than a node with itself. */
  function FileEdges(graph: seq<PubnetNode>): set<Edge> {
    set n, p | n in graph && p in n.peers && p != n.publicKey :: EdgeOf(p, n.publicKey)
  }

  /** Each listed link is extracted exactly once, and nothing else is. */
  ghost predicate EachLinkOnce(graph: seq<PubnetNode>) {
    NoDup(ExtractEdges(graph)) && Elements(ExtractEdges(graph)) == FileEdges(graph)
  }

  /** Every link listed by its lower end is listed by an entry of its upper end, too. */
  ghost predicate Mirrored(graph: seq<PubnetNode>) {
    forall n, p :: n in graph && p in n.peers && Less(n.publicKey, p) ==> Lists(graph, p, n.publicKey)
  }

  ghost predicate Lists(graph: seq<PubnetNode>, key: string, peer: string) {
    exists n :: n in graph && n.publicKey == key && peer in n.peers
  }

  // ----- extraction -----

  lemma ExtractedIsListed(graph: seq<PubnetNode>, e: Edge)
    requires e in ExtractEdges(graph)
    ensures e in FileEdges(graph)
  {
    var n :| n in graph && e.1 == n.publicKey && Less(e.0, e.1) && e.0 in n.peers;
    LessIrreflexive(e.0);
    assert EdgeOf(e.0, n.publicKey) == e;
  }

  lemma ListedIsExtractedIff(graph: seq<PubnetNode>, n: PubnetNode, p: string)
    requires n in graph && p in n.peers && p != n.publicKey
    ensures EdgeOf(p, n.publicKey) in ExtractEdges(graph) <==>
      Less(p, n.publicKey) || Lists(graph, p, n.publicKey)
  {
    LessTotal(p, n.publicKey);
    if Less(p, n.publicKey) {
      assert (p, n.publicKey) in ExtractEdges(graph);
    } else {
      assert EdgeOf(p, n.publicKey) == (n.publicKey, p);
    }
  }

  /** All listed links are extracted exactly when the lists mirror each other. */
  lemma AllExtractedIff(graph: seq<PubnetNode>)
    ensures Elements(ExtractEdges(graph)) == FileEdges(graph) <==> Mirrored(graph)
  {
    forall e | e in ExtractEdges(graph) ensures e in FileEdges(graph) { ExtractedIsListed(graph, e); }
    if Mirrored(graph) {
      forall e | e in FileEdges(graph) ensures e in ExtractEdges(graph) {
        var n, p :| n in graph && p in n.peers && p != n.publicKey && EdgeOf(p, n.publicKey) == e;
        LessTotal(p, n.publicKey);
        ListedIsExtractedIff(graph, n, p);
      }
      assert Elements(ExtractEdges(graph)) == FileEdges(graph);
    }
    if Elements(ExtractEdges(graph)) == FileEdges(graph) {
      forall n, p | n in graph && p in n.peers && Less(n.publicKey, p) ensures Lists(graph, p, n.publicKey) {
        LessIrreflexive(p);
        LessAsymmetric(n.publicKey, p);
        assert EdgeOf(p, n.publicKey) in FileEdges(graph);
        assert EdgeOf(p, n.publicKey) in Elements(ExtractEdges(graph));
        ListedIsExtractedIff(graph, n, p);
      }
    }
  }

  /** "Each edge exactly once" holds exactly when no link is listed twice from its upper end
      and the lists mirror each other. */
  lemma EachLinkOnceIff(graph: seq<PubnetNode>)
    ensures EachLinkOnce(graph) <==> ListedOnce(graph) && Mirrored(graph)
  {
    ExtractEdgesNoDup(graph);
    AllExtractedIff(graph);
  }

  // ----- the nodes that the map knows -----

  ghost predicate HasEdge(edges: set<Edge>, v: string) { exists e :: e in edges && Touches(e, v) }

  /** An entry of the node lists a lower peer, or an entry of a higher one lists the node. */
  ghost predicate LinkedInFile(graph: seq<PubnetNode>, v: string) {
    || (exists n, p :: n in graph && n.publicKey == v && p in n.peers && Less(p, v))
    || (exists n :: n in graph && v in n.peers && Less(v, n.publicKey))
  }

  lemma LinkedInFileIs(graph: seq<PubnetNode>, v: string)
    ensures LinkedInFile(graph, v) <==> HasEdge(Elements(ExtractEdges(graph)), v)
  {
    if n, p :| n in graph && n.publicKey == v && p in n.peers && Less(p, v) {
      assert (p, v) in ExtractEdges(graph) && Touches((p, v), v);
      assert (p, v) in Elements(ExtractEdges(graph));
    }
    if n :| n in graph && v in n.peers && Less(v, n.publicKey) {
      assert (v, n.publicKey) in ExtractEdges(graph) && Touches((v, n.publicKey), v);
      assert (v, n.publicKey) in Elements(ExtractEdges(graph));
    }
    if HasEdge(Elements(ExtractEdges(graph)), v) {
      var e :| e in Elements(ExtractEdges(graph)) && Touches(e, v);
      var n :| n in graph && e.1 == n.publicKey && Less(e.0, e.1) && e.0 in n.peers;
    }
  }

  lemma SplitKeepsEdges(edges: set<Edge>, e: Edge, u: string, v: string)
    requires CanSplit(edges, e, u) && (HasEdge(edges, v) || v == u)
    ensures HasEdge(Split(edges, e, u), v)
  {
    var f, g := EdgeOf(e.0, u), EdgeOf(e.1, u);
    EdgeOfOrdered(e.0, u);
    EdgeOfOrdered(e.1, u);
    assert f in Split(edges, e, u) && g in Split(edges, e, u);
    if v == u {
      assert Touches(f, v);
    } else {
      var x :| x in edges && Touches(x, v);
      if x == e {
        assert Touches(f, v) || Touches(g, v);
      } else {
        assert x in Split(edges, e, u);
      }
    }
  }

  /** Whose turn is over: every node that has drawn, but the one still being inserted. */
  predicate Inserted(newNodes: seq<string>, s: Scale, i: nat) {
    i < s.begun && i < |newNodes| && (i == s.begun - 1 ==> s.remaining <= 0)
  }

  /** Original links and inserted nodes keep an edge, and every end of an edge, listed or not
      any more, is an original one or has drawn. */
  ghost predicate EndsKnown(graph: seq<PubnetNode>, newNodes: seq<string>, s: Scale) {
    && (forall v :: HasEdge(Elements(ExtractEdges(graph)), v) ==> HasEdge(s.edges, v))
    && (forall i :: 0 <= i < |newNodes| && Inserted(newNodes, s, i) ==> HasEdge(s.edges, newNodes[i]))
    && (forall e, v :: e in s.listed && Touches(e, v) ==>
          HasEdge(Elements(ExtractEdges(graph)), v) || v in newNodes)
    && s.edges <= Elements(s.listed)
    && s.begun <= |newNodes|
  }

  lemma EndsStep(graph: seq<PubnetNode>, newNodes: seq<string>, tier1: set<string>, s: Scale, c: Choice)
    requires EndsKnown(graph, newNodes, s) && Possible(graph, newNodes, tier1, s, c)
    ensures EndsKnown(graph, newNodes, Next(newNodes, s, c))
  {
    hide ExtractEdges, HasEdge;
    if IsSplit(newNodes, s, c) {
      var u, e, r := newNodes[s.begun - 1], s.listed[c.index], Next(newNodes, s, c);
      assert e in s.listed;
      forall v | HasEdge(s.edges, v) || v == u ensures HasEdge(r.edges, v) { SplitKeepsEdges(s.edges, e, u, v); }
      forall i | 0 <= i < |newNodes| && Inserted(newNodes, r, i) ensures HasEdge(r.edges, newNodes[i]) {
        assert i == s.begun - 1 || Inserted(newNodes, s, i);
      }
      EdgeOfOrdered(e.0, u);
      EdgeOfOrdered(e.1, u);
      forall x, v | x in r.listed && Touches(x, v)
        ensures HasEdge(Elements(ExtractEdges(graph)), v) || v in newNodes
      {
        SplitListMembers(s.listed, c.index, u, x);
        assert v == u || Touches(e, v) || x in s.listed;
      }
      CoversStays(s.listed, s.edges, c.index, u);
    } else if c.Draw? {
      DrawableRange(newNodes[s.begun] in tier1);
      forall i | 0 <= i < |newNodes| && Inserted(newNodes, Next(newNodes, s, c), i)
        ensures HasEdge(s.edges, newNodes[i])
      {
        assert Inserted(newNodes, s, i);
      }
    } else {
      forall i | 0 <= i < |newNodes| && Inserted(newNodes, Next(newNodes, s, c), i)
        ensures HasEdge(s.edges, newNodes[i])
      {
        assert Inserted(newNodes, s, i);
      }
    }
  }

  lemma EndsStart(graph: seq<PubnetNode>, newNodes: seq<string>)
    ensures EndsKnown(graph, newNodes, Begin(graph))
  {
    assert forall e :: e in ExtractEdges(graph) ==> e in Elements(ExtractEdges(graph));
    hide ExtractEdges;
  }

  lemma {:induction false} EndsRun(graph: seq<PubnetNode>, newNodes: seq<string>, tier1: set<string>, cs: seq<Choice>)
    requires Chosen(graph, newNodes, tier1, cs)
    ensures EndsKnown(graph, newNodes, After(graph, newNodes, cs))
    decreases |cs|
  {
    if cs == [] {
      EndsStart(graph, newNodes);
    } else {
      var k := |cs| - 1;
      EndsRun(graph, newNodes, tier1, cs[..k]);
      EndsStep(graph, newNodes, tier1, After(graph, newNodes, cs[..k]), cs[k]);
    }
  }

  lemma KeyIsEdge(edges: set<Edge>, v: string)
    ensures v in CreateAdjacencyMap(edges) <==> HasEdge(edges, v)
  {
    var m := CreateAdjacencyMap(edges);
    AdjacencyIsEdges(edges);
    hide CreateAdjacencyMap;
    if v in m {
      var w :| Linked(m, v, w);
      assert Touches((v, w), v) && Touches((w, v), v);
    }
    if HasEdge(edges, v) {
      var e :| e in edges && Touches(e, v);
      assert Linked(m, e.0, e.1) && Linked(m, e.1, e.0);
    }
  }

  /** The run has inserted every new node. */
  ghost predicate Completes(graph: seq<PubnetNode>, newNodes: seq<string>, tier1: set<string>, cs: seq<Choice>) {
    && Chosen(graph, newNodes, tier1, cs)
    && After(graph, newNodes, cs).begun == |newNodes| && After(graph, newNodes, cs).remaining <= 0
  }

  /** Whatever is drawn, the final map has a key for a node exactly when it is new, or lists a
      lower peer, or is listed by a higher one. */
  lemma KeyIff(graph: seq<PubnetNode>, newNodes: seq<string>, tier1: set<string>, cs: seq<Choice>, v: string)
    requires Completes(graph, newNodes, tier1, cs)
    ensures v in CreateAdjacencyMap(After(graph, newNodes, cs).edges) <==> v in newNodes || LinkedInFile(graph, v)
  {
    EndsRun(graph, newNodes, tier1, cs);
    var s := After(graph, newNodes, cs);
    KeyIsEdge(s.edges, v);
    LinkedInFileIs(graph, v);
    hide CreateAdjacencyMap, LinkedInFile, ExtractEdges, After, Chosen;
    if v in newNodes {
      var i :| 0 <= i < |newNodes| && newNodes[i] == v;
      assert Inserted(newNodes, s, i);
    }
    if HasEdge(s.edges, v) {
      var e :| e in s.edges && Touches(e, v);
      assert e in s.listed;
    }
  }

  /** Counting the peers of every node of the file never misses a key exactly when each of them
      is new or linked so. */
  lemma AllKeysIff(graph: seq<PubnetNode>, newNodes: seq<string>, tier1: set<string>, cs: seq<Choice>)
    requires Completes(graph, newNodes, tier1, cs)
    ensures (forall n :: n in graph ==> n.publicKey in CreateAdjacencyMap(After(graph, newNodes, cs).edges))
      <==> (forall n :: n in graph ==> n.publicKey in newNodes || LinkedInFile(graph, n.publicKey))
  {
    hide CreateAdjacencyMap, After, LinkedInFile, Completes;
    forall n | n in graph
      ensures n.publicKey in CreateAdjacencyMap(After(graph, newNodes, cs).edges)
        <==> n.publicKey in newNodes || LinkedInFile(graph, n.publicKey)
    {
      KeyIff(graph, newNodes, tier1, cs, n.publicKey);
    }
  }

  /** With mirrored lists those are the nodes that list a peer or are listed by a node. */
  lemma MirroredLinks(graph: seq<PubnetNode>, v: string)
    requires Mirrored(graph)
    ensures LinkedInFile(graph, v) <==> HasEdge(FileEdges(graph), v)
  {
    LinkedInFileIs(graph, v);
    AllExtractedIff(graph);
  }

  // ----- the file's own connectivity -----

  lemma {:induction false} PathThrough(a: set<Edge>, b: set<Edge>, p: seq<string>, x: string, y: string)
    requires (forall e :: e in a ==> Joined(b, e.0, e.1)) && IsPath(a, p, x, y)
    ensures Joined(b, x, y)
    decreases |p|
  {
    if |p| == 1 {
      JoinedSelf(b, x);
    } else {
      assert Adjacent(a, p[0], p[1]);
      if (p[0], p[1]) !in a { JoinedSymmetric(b, p[1], p[0]); }
      assert IsPath(a, p[1..], p[1], y) by {
        forall i | 0 <= i < |p[1..]| - 1 ensures Adjacent(a, p[1..][i], p[1..][i + 1]) {
          assert Adjacent(a, p[i + 1], p[i + 2]);
        }
      }
      PathThrough(a, b, p[1..], p[1], y);
      JoinedTransitive(b, x, p[1], y);
    }
  }

  /** Everything that a joins, b joins. */
  ghost predicate JoinsAll(a: set<Edge>, b: set<Edge>) { forall x, y :: Joined(a, x, y) ==> Joined(b, x, y) }

  lemma JoinsAllIff(a: set<Edge>, b: set<Edge>)
    ensures JoinsAll(a, b) <==> forall e :: e in a ==> Joined(b, e.0, e.1)
  {
    if JoinsAll(a, b) {
      forall e | e in a ensures Joined(b, e.0, e.1) {
        JoinedAdjacent(a, e.0, e.1);
      }
    }
    if forall e :: e in a ==> Joined(b, e.0, e.1) {
      forall x, y | Joined(a, x, y) ensures Joined(b, x, y) {
        var p :| IsPath(a, p, x, y);
        PathThrough(a, b, p, x, y);
      }
    }
  }

  lemma {:induction false} RunJoins(graph: seq<PubnetNode>, newNodes: seq<string>, cs: seq<Choice>)
    ensures JoinsAll(Elements(ExtractEdges(graph)), After(graph, newNodes, cs).edges)
    decreases |cs|
  {
    if cs != [] {
      var s, c := After(graph, newNodes, cs[..|cs| - 1]), cs[|cs| - 1];
      RunJoins(graph, newNodes, cs[..|cs| - 1]);
      hide ExtractEdges, Joined;
      if IsSplit(newNodes, s, c) {
        var u, e := newNodes[s.begun - 1], s.listed[c.index];
        forall x, y | Joined(s.edges, x, y) ensures Joined(Split(s.edges, e, u), x, y) {
          SplitKeepsJoined(s.edges, e, u, x, y);
        }
      }
    }
  }

  /** What the file joins is joined in the extracted network exactly when the ends of every
      listed link are, so whenever the lists mirror each other; and what the extracted network
      joins stays joined whatever is drawn. */
  lemma FileStaysJoined(graph: seq<PubnetNode>, newNodes: seq<string>, cs: seq<Choice>)
    ensures JoinsAll(FileEdges(graph), Elements(ExtractEdges(graph)))
      <==> forall e :: e in FileEdges(graph) ==> Joined(Elements(ExtractEdges(graph)), e.0, e.1)
    ensures Mirrored(graph) ==> JoinsAll(FileEdges(graph), Elements(ExtractEdges(graph)))
    ensures JoinsAll(FileEdges(graph), Elements(ExtractEdges(graph))) ==>
      JoinsAll(FileEdges(graph), After(graph, newNodes, cs).edges)
  {
    JoinsAllIff(FileEdges(graph), Elements(ExtractEdges(graph)));
    AllExtractedIff(graph);
    RunJoins(graph, newNodes, cs);
    hide ExtractEdges, FileEdges, Mirrored, Joined, After;
  }

  // ----- files that lose links -----

  /** A link that only its lower end lists is dropped. */
  lemma LowerEndLinkLost()
    ensures var g := [PubnetNode("a", ["b"])];
      && ListedOnce(g) && FileEdges(g) == {("a", "b")} && ExtractEdges(g) == []
      && !EachLinkOnce(g)
  {
    var g := [PubnetNode("a", ["b"])];
    assert !Less("b", "a") && Less("a", "b") && EdgeOf("b", "a") == ("a", "b");
    assert LowerPeers("a", ["b"]) == [] by { assert ["b"][1..] == []; }
    assert ExtractEdges(g) == [] by { assert g[1..] == []; }
    ExtractEdgesNoDup(g);
    assert g[0] in g && "b" in g[0].peers;
    assert ("a", "b") in FileEdges(g);
    forall e | e in FileEdges(g) ensures e == ("a", "b") {
      var n, p :| n in g && p in n.peers && p != n.publicKey && EdgeOf(p, n.publicKey) == e;
    }
    assert FileEdges(g) != Elements(ExtractEdges(g));
  }

  function LonelyFile(): seq<PubnetNode> { [PubnetNode("a", ["b"]), PubnetNode("c", ["b"])] }

  lemma LonelyFileEdges()
    ensures ExtractEdges(LonelyFile()) == [("b", "c")]
  {
    var g := LonelyFile();
    assert !Less("b", "a") && Less("b", "c") && ["b"][1..] == [];
    assert LowerPeers("a", ["b"]) == [] && LowerPeers("c", ["b"]) == [("b", "c")];
    assert g[1..] == [g[1]] && g[1..][1..] == [];
    assert ExtractEdges(g[1..]) == LowerPeers("c", ["b"]) + ExtractEdges([]);
  }

  lemma RunOfNone(graph: seq<PubnetNode>)
    ensures Completes(graph, [], {}, []) && After(graph, [], []).edges == Elements(ExtractEdges(graph))
  {
  }

  lemma OneEdge(e: Edge, v: string)
    requires !Touches(e, v)
    ensures !HasEdge(Elements([e]), v)
  {
  }

  /** A file, listed once, whose node a has a peer and yet no key in the map, so that counting
      its peers raises. */
  lemma ListedNodeHasNoKey()
    ensures ListedOnce(LonelyFile()) && PubnetNode("a", ["b"]) in LonelyFile()
    ensures Completes(LonelyFile(), [], {}, [])
    ensures "a" !in CreateAdjacencyMap(After(LonelyFile(), [], []).edges)
  {
    LonelyFileEdges();
    ExtractEdgesNoDup(LonelyFile());
    assert LonelyFile()[0] == PubnetNode("a", ["b"]);
    assert !Touches(("b", "c"), "a");
    hide *;
    RunOfNone(LonelyFile());
    OneEdge(("b", "c"), "a");
    KeyIsEdge(Elements([("b", "c")]), "a");
  }
}
