/** Exactly when the edge list and the edge set of addEdges agree, and exactly when the
    original nodes keep their degrees, over all runs. */
module ScalingRuns {
  import opened Text
  import opened Topology
  import opened Scaling

  /** List and set hold the same edges, as the source's comments say they always do. */
  ghost predicate Agree(s: Scale) { Elements(s.listed) == s.edges }

  predicate OccursOnce(listed: seq<Edge>, index: nat)
    requires index < |listed|
  {
    forall k :: 0 <= k < |listed| && k != index ==> listed[k] != listed[index]
  }

  // ----- one split -----

  lemma SplitListHas(listed: seq<Edge>, index: nat, u: string, x: Edge)
    requires index < |listed|
    ensures var e := listed[index];
      x in SplitList(listed, index, u) <==>
        x == EdgeOf(e.0, u) || x == EdgeOf(e.1, u) || (x in listed && (x != e || !OccursOnce(listed, index)))
  {
    var e, r := listed[index], SplitList(listed, index, u);
    SplitListMembers(listed, index, u, x);
    if x == e && !OccursOnce(listed, index) {
      var k :| 0 <= k < |listed| && k != index && listed[k] == e;
      assert r[k] == e;
    }
    if x == e && x in r {
      var k :| 0 <= k < |r| && r[k] == x;
      assert k != index && k < |listed| ==> listed[k] == e;
    }
  }

  /** After a split list and set hold the same edges exactly when the drawn entry occurs once
      and every other entry that the set lacked is one of the two new edges. */
  lemma SplitAgreesIff(listed: seq<Edge>, edges: set<Edge>, index: nat, u: string)
    requires index < |listed| && Covers(listed, edges) && CanSplit(edges, listed[index], u)
    ensures var e := listed[index];
      Elements(SplitList(listed, index, u)) == Split(edges, e, u) <==>
        && OccursOnce(listed, index)
        && forall x :: x in listed && x !in edges ==> x == e || x == EdgeOf(e.0, u) || x == EdgeOf(e.1, u)
  {
    var e := listed[index];
    var r, s := SplitList(listed, index, u), Split(edges, e, u);
    EdgeOfOrdered(e.0, u);
    EdgeOfOrdered(e.1, u);
    forall x ensures x in r <==>
        x == EdgeOf(e.0, u) || x == EdgeOf(e.1, u) || (x in listed && (x != e || !OccursOnce(listed, index)))
    {
      SplitListHas(listed, index, u, x);
    }
    hide SplitList, OccursOnce, EdgeOf;
    assert forall x :: x in edges ==> x in Elements(listed);
    if Elements(r) == s {
      assert e !in s;
      assert e in listed && e !in Elements(r);
      forall x | x in listed && x !in edges ensures x == e || x == EdgeOf(e.0, u) || x == EdgeOf(e.1, u) {
        assert x != e ==> x in Elements(r);
      }
    }
  }

  /** The degree of everyone but the new node stays exactly when the split edge is in the
      set; otherwise its two ends gain one each. */
  lemma SplitDegree(edges: set<Edge>, e: Edge, u: string, v: string)
    requires Ordered(edges) && Less(e.0, e.1) && CanSplit(edges, e, u)
    ensures Degree(Split(edges, e, u), v)
      == Degree(edges, v) + (if v == u then 2 else 0) + (if e !in edges && Touches(e, v) then 1 else 0)
  {
    if e in edges {
      SplitCounts(edges, e, u);
    } else {
      var f, g := EdgeOf(e.0, u), EdgeOf(e.1, u);
      StaleSplit(edges, e, u);
      hide Split, EdgeOf, Degree, Ordered;
      DegreeAdd(edges, f, v);
      DegreeAdd(edges + {f}, g, v);
    }
  }

  lemma StaleSplit(edges: set<Edge>, e: Edge, u: string)
    requires Less(e.0, e.1) && CanSplit(edges, e, u) && e !in edges
    ensures var f, g := EdgeOf(e.0, u), EdgeOf(e.1, u);
      && Split(edges, e, u) == edges + {f} + {g} && f !in edges && g !in edges + {f} && e.0 != e.1
      && (forall v :: Touches(f, v) <==> v == e.0 || v == u)
      && (forall v :: Touches(g, v) <==> v == e.1 || v == u)
  {
    EdgeOfOrdered(e.0, u);
    EdgeOfOrdered(e.1, u);
    LessIrreflexive(e.0);
  }

  lemma SplitDegreesIff(edges: set<Edge>, e: Edge, u: string)
    requires Ordered(edges) && Less(e.0, e.1) && CanSplit(edges, e, u)
    ensures (forall v :: v != u ==> Degree(Split(edges, e, u), v) == Degree(edges, v)) <==> e in edges
  {
    forall v ensures Degree(Split(edges, e, u), v)
        == Degree(edges, v) + (if v == u then 2 else 0) + (if e !in edges && Touches(e, v) then 1 else 0)
    {
      SplitDegree(edges, e, u, v);
    }
    assert Touches(e, e.0);
    hide Degree, Split;
  }

  // ----- agreement over a run -----

  /** A choice that splits an edge. */
  predicate IsSplit(newNodes: seq<string>, s: Scale, c: Choice) {
    c.Pick? && 0 < s.begun <= |newNodes| && c.index < |s.listed|
    && CanSplit(s.edges, s.listed[c.index], newNodes[s.begun - 1])
  }

  predicate SplitsRepeated(newNodes: seq<string>, s: Scale, c: Choice) {
    IsSplit(newNodes, s, c) && !OccursOnce(s.listed, c.index)
  }

  lemma AgreeStep(newNodes: seq<string>, s: Scale, c: Choice)
    requires Agree(s)
    ensures Agree(Next(newNodes, s, c)) <==> !SplitsRepeated(newNodes, s, c)
  {
    if IsSplit(newNodes, s, c) {
      assert forall x :: x in s.listed ==> x in Elements(s.listed);
      SplitAgreesIff(s.listed, s.edges, c.index, newNodes[s.begun - 1]);
      hide SplitList, Split, CanSplit, OccursOnce;
    }
  }

  lemma AfterPrefix(graph: seq<PubnetNode>, newNodes: seq<string>, cs: seq<Choice>, k: nat)
    requires k < |cs|
    ensures After(graph, newNodes, cs[..k + 1]) == Next(newNodes, After(graph, newNodes, cs[..k]), cs[k])
  {
    assert cs[..k + 1][..k] == cs[..k];
  }

  ghost predicate AgreeAt(graph: seq<PubnetNode>, newNodes: seq<string>, cs: seq<Choice>, k: nat)
    requires k <= |cs|
  {
    Agree(After(graph, newNodes, cs[..k]))
  }

  predicate RepeatedAt(graph: seq<PubnetNode>, newNodes: seq<string>, cs: seq<Choice>, k: nat)
    requires k < |cs|
  {
    SplitsRepeated(newNodes, After(graph, newNodes, cs[..k]), cs[k])
  }

  lemma {:induction false} AgreeUpTo(graph: seq<PubnetNode>, newNodes: seq<string>, cs: seq<Choice>, k: nat)
    requires k <= |cs| && forall i: nat :: i < k ==> !RepeatedAt(graph, newNodes, cs, i)
    ensures AgreeAt(graph, newNodes, cs, k)
  {
    if k > 0 {
      AgreeUpTo(graph, newNodes, cs, k - 1);
      AfterPrefix(graph, newNodes, cs, k - 1);
      assert !RepeatedAt(graph, newNodes, cs, k - 1);
      AgreeStep(newNodes, After(graph, newNodes, cs[..k - 1]), cs[k - 1]);
    } else {
      assert cs[..0] == [];
    }
  }

  /** In every run list and set agree at all times exactly when no split draws an entry that
      occurs twice in the list at that time. */
  lemma AgreesThroughoutIff(graph: seq<PubnetNode>, newNodes: seq<string>, cs: seq<Choice>)
    ensures (forall k: nat :: k <= |cs| ==> AgreeAt(graph, newNodes, cs, k))
      <==> (forall k: nat :: k < |cs| ==> !RepeatedAt(graph, newNodes, cs, k))
  {
    if forall k: nat :: k <= |cs| ==> AgreeAt(graph, newNodes, cs, k) {
      forall k: nat | k < |cs| ensures !RepeatedAt(graph, newNodes, cs, k) {
        assert AgreeAt(graph, newNodes, cs, k) && AgreeAt(graph, newNodes, cs, k + 1);
        AfterPrefix(graph, newNodes, cs, k);
        AgreeStep(newNodes, After(graph, newNodes, cs[..k]), cs[k]);
      }
    }
    if forall k: nat :: k < |cs| ==> !RepeatedAt(graph, newNodes, cs, k) {
      forall k: nat | k <= |cs| ensures AgreeAt(graph, newNodes, cs, k) { AgreeUpTo(graph, newNodes, cs, k); }
    }
  }

  // ----- agreement over all runs of a network -----

  function MinDegree(tier1: bool): int { if tier1 then MIN_PEERS_TIER1 else MIN_PEERS_NON_TIER1 }

  lemma MinDegreeIs(tier1: bool)
    ensures Drawable(MinDegree(tier1), tier1)
    ensures forall d :: Drawable(d, tier1) ==> d >= MinDegree(tier1)
  {
  }

  /** Whatever is drawn, list and set agree. */
  ghost predicate AlwaysAgree(graph: seq<PubnetNode>, newNodes: seq<string>, tier1: set<string>) {
    forall cs :: Chosen(graph, newNodes, tier1, cs) ==> Agree(After(graph, newNodes, cs))
  }

  /** No listed edge has the node as an end: it was drawn at random and has no peers. */
  predicate Fresh(graph: seq<PubnetNode>, u: string) { forall e :: e in ExtractEdges(graph) ==> !Touches(e, u) }

  /** No node gets past the guard against a small graph, or there is none to insert. */
  predicate NothingInserted(graph: seq<PubnetNode>, newNodes: seq<string>, tier1: set<string>) {
    newNodes == [] || |graph| <= MinDegree(newNodes[0] in tier1)
  }

  ghost predicate Neat(s: Scale) { NoDup(s.listed) && Agree(s) && Ordered(s.edges) }

  lemma NeatStep(newNodes: seq<string>, s: Scale, c: Choice)
    requires Neat(s)
    ensures Neat(Next(newNodes, s, c))
  {
    if IsSplit(newNodes, s, c) {
      var u := newNodes[s.begun - 1];
      SplitListAgrees(s.listed, s.edges, c.index, u);
      assert s.listed[c.index] in Elements(s.listed);
      SplitCounts(s.edges, s.listed[c.index], u);
    }
  }

  lemma NeatStart(graph: seq<PubnetNode>)
    requires ListedOnce(graph)
    ensures Neat(Begin(graph))
  {
    ExtractEdgesNoDup(graph);
    assert forall e :: e in Elements(ExtractEdges(graph)) ==> e in ExtractEdges(graph);
  }

  lemma {:induction false} NeatRun(graph: seq<PubnetNode>, newNodes: seq<string>, cs: seq<Choice>)
    requires ListedOnce(graph)
    ensures Neat(After(graph, newNodes, cs))
    decreases |cs|
  {
    if cs == [] {
      NeatStart(graph);
    } else {
      NeatRun(graph, newNodes, cs[..|cs| - 1]);
      NeatStep(newNodes, After(graph, newNodes, cs[..|cs| - 1]), cs[|cs| - 1]);
    }
  }

  lemma {:induction false} NothingHappens(graph: seq<PubnetNode>, newNodes: seq<string>, tier1: set<string>,
                                          cs: seq<Choice>)
    requires NothingInserted(graph, newNodes, tier1) && Chosen(graph, newNodes, tier1, cs)
    ensures cs == []
    decreases |cs|
  {
    if cs != [] {
      NothingHappens(graph, newNodes, tier1, cs[..|cs| - 1]);
      if newNodes != [] { MinDegreeIs(newNodes[0] in tier1); }
    }
  }

  /** The first entry that repeats an earlier one is below the number of different entries. */
  lemma {:induction false} FirstRepeat(listed: seq<Edge>) returns (i: nat, j: nat)
    requires !NoDup(listed)
    ensures i < j < |listed| && listed[i] == listed[j] && j <= |Elements(listed)|
  {
    var k := |listed| - 1;
    if NoDup(listed[..k]) {
      forall x, y | 0 <= x < y < k ensures listed[x] != listed[y] { assert listed[..k][x] != listed[..k][y]; }
      var x, y :| 0 <= x < y < |listed| && listed[x] == listed[y];
      i, j := x, y;
      NoDupSize(listed[..k]);
      assert Elements(listed[..k]) <= Elements(listed);
      SubsetSize(Elements(listed[..k]), Elements(listed));
    } else {
      i, j := FirstRepeat(listed[..k]);
      assert Elements(listed[..k]) <= Elements(listed);
      SubsetSize(Elements(listed[..k]), Elements(listed));
    }
  }

  lemma FreshSplits(graph: seq<PubnetNode>, u: string, i: nat)
    requires Fresh(graph, u) && i < |ExtractEdges(graph)|
    ensures CanSplit(Elements(ExtractEdges(graph)), ExtractEdges(graph)[i], u)
  {
    var e := ExtractEdges(graph)[i];
    assert e in ExtractEdges(graph) && !Touches(e, u);
    EdgeOfOrdered(e.0, u);
    EdgeOfOrdered(e.1, u);
    assert forall x :: x in Elements(ExtractEdges(graph)) ==> !Touches(x, u);
    assert Touches(EdgeOf(e.0, u), u) && Touches(EdgeOf(e.1, u), u);
  }

  /** The run that draws a degree for the first node and splits the entry at an index. */
  lemma DrawThenPick(graph: seq<PubnetNode>, newNodes: seq<string>, tier1: set<string>, d: int, i: nat)
    requires newNodes != [] && Drawable(d, newNodes[0] in tier1) && 0 < d < |graph|
    requires var s := Begin(graph); i < |s.edges| && i < |s.listed| && CanSplit(s.edges, s.listed[i], newNodes[0])
    ensures var s := Begin(graph);
      CameTo(graph, newNodes, tier1, [Draw(d)] + [Pick(i)],
             Scale(SplitList(s.listed, i, newNodes[0]), Split(s.edges, s.listed[i], newNodes[0]), 1, d - 2, 0))
  {
    BeginsWith(graph, newNodes, tier1);
    var s := Begin(graph);
    assert s.begun == 0 && s.remaining == 0;
    hide CameTo, Begin, CanSplit, SplitList, Split, Drawable;
    ChoosesDraw(graph, newNodes, tier1, [], s, d);
    assert [] + [Draw(d)] == [Draw(d)];
    ChoosesPick(graph, newNodes, tier1, [Draw(d)], Scale(s.listed, s.edges, 1, d, 0), i);
  }

  /** A run that draws an edge listed twice: from there on the list holds an edge more. */
  lemma RepeatedEdgeDrawn(graph: seq<PubnetNode>, newNodes: seq<string>, tier1: set<string>) returns (cs: seq<Choice>)
    requires !ListedOnce(graph) && !NothingInserted(graph, newNodes, tier1) && Fresh(graph, newNodes[0])
    ensures Chosen(graph, newNodes, tier1, cs) && !Agree(After(graph, newNodes, cs))
  {
    var listed, u := ExtractEdges(graph), newNodes[0];
    ExtractEdgesNoDup(graph);
    var i, j := FirstRepeat(listed);
    FreshSplits(graph, u, i);
    MinDegreeIs(u in tier1);
    hide ListedOnce, ExtractEdges, Fresh, CanSplit, SplitList, Split, CameTo, Chosen, After, Drawable;
    var d := MinDegree(u in tier1);
    DrawThenPick(graph, newNodes, tier1, d, i);
    cs := [Draw(d)] + [Pick(i)];
    var s := Begin(graph);
    Came(graph, newNodes, tier1, cs, Scale(SplitList(listed, i, u), Split(s.edges, listed[i], u), 1, d - 2, 0));
    SplitAgreesIff(listed, s.edges, i, u);
    assert !OccursOnce(listed, i);
  }

  /** List and set agree in every run whenever the network file gives no edge twice or no node
      is inserted at all; and, when no listed edge has the first new node as an end, only
      then. */
  lemma AlwaysAgreeIff(graph: seq<PubnetNode>, newNodes: seq<string>, tier1: set<string>)
    ensures ListedOnce(graph) || NothingInserted(graph, newNodes, tier1) ==> AlwaysAgree(graph, newNodes, tier1)
    ensures newNodes == [] || Fresh(graph, newNodes[0]) ==>
      (AlwaysAgree(graph, newNodes, tier1) <==> ListedOnce(graph) || NothingInserted(graph, newNodes, tier1))
  {
    hide ListedOnce, ExtractEdges, Fresh;
    if ListedOnce(graph) {
      forall cs ensures Agree(After(graph, newNodes, cs)) { NeatRun(graph, newNodes, cs); }
    } else if NothingInserted(graph, newNodes, tier1) {
      forall cs | Chosen(graph, newNodes, tier1, cs) ensures Agree(After(graph, newNodes, cs)) {
        NothingHappens(graph, newNodes, tier1, cs);
      }
    } else if Fresh(graph, newNodes[0]) {
      var cs := RepeatedEdgeDrawn(graph, newNodes, tier1);
    }
  }

  // ----- degrees over a run -----

  /** A choice that splits an edge which the set has already lost. */
  predicate SplitsStale(newNodes: seq<string>, s: Scale, c: Choice) {
    IsSplit(newNodes, s, c) && s.listed[c.index] !in s.edges
  }

  /** How many edges a run splits for a node. */
  function SplitsFor(graph: seq<PubnetNode>, newNodes: seq<string>, cs: seq<Choice>, v: string): nat
    decreases |cs|
  {
    if cs == [] then 0
    else
      var s := After(graph, newNodes, cs[..|cs| - 1]);
      SplitsFor(graph, newNodes, cs[..|cs| - 1], v)
      + if IsSplit(newNodes, s, cs[|cs| - 1]) && newNodes[s.begun - 1] == v then 1 else 0
  }

  /** How many edges at a node it splits after they are gone. */
  function StaleAt(graph: seq<PubnetNode>, newNodes: seq<string>, cs: seq<Choice>, v: string): nat
    decreases |cs|
  {
    if cs == [] then 0
    else
      var s, c := After(graph, newNodes, cs[..|cs| - 1]), cs[|cs| - 1];
      StaleAt(graph, newNodes, cs[..|cs| - 1], v)
      + if SplitsStale(newNodes, s, c) && Touches(s.listed[c.index], v) then 1 else 0
  }

  ghost predicate SmallerFirst(s: Scale) { Ordered(s.edges) && forall e :: e in s.listed ==> Less(e.0, e.1) }

  lemma SmallerFirstStep(newNodes: seq<string>, s: Scale, c: Choice)
    requires SmallerFirst(s)
    ensures SmallerFirst(Next(newNodes, s, c))
  {
    if IsSplit(newNodes, s, c) {
      var u, e := newNodes[s.begun - 1], s.listed[c.index];
      EdgeOfOrdered(e.0, u);
      EdgeOfOrdered(e.1, u);
      forall x | x in SplitList(s.listed, c.index, u) ensures Less(x.0, x.1) {
        SplitListMembers(s.listed, c.index, u, x);
      }
    }
  }

  /** In every run the degree of a node is the original one, plus two for each edge split for
      it, plus one for each edge at it that was split when already gone. */
  lemma {:induction false} DegreesAre(graph: seq<PubnetNode>, newNodes: seq<string>, cs: seq<Choice>, v: string)
    ensures SmallerFirst(After(graph, newNodes, cs))
    ensures Degree(After(graph, newNodes, cs).edges, v)
      == Degree(Begin(graph).edges, v) + 2 * SplitsFor(graph, newNodes, cs, v) + StaleAt(graph, newNodes, cs, v)
    decreases |cs|
  {
    if cs == [] {
      assert forall e :: e in Elements(ExtractEdges(graph)) ==> e in ExtractEdges(graph);
    } else {
      var k := |cs| - 1;
      var s := After(graph, newNodes, cs[..k]);
      DegreesAre(graph, newNodes, cs[..k], v);
      SmallerFirstStep(newNodes, s, cs[k]);
      if IsSplit(newNodes, s, cs[k]) {
        var e := s.listed[cs[k].index];
        assert e in s.listed;
        SplitDegree(s.edges, e, newNodes[s.begun - 1], v);
      }
      hide Degree, Split, SplitList, CanSplit, ExtractEdges, Ordered;
    }
  }

  predicate StaleStepAt(graph: seq<PubnetNode>, newNodes: seq<string>, cs: seq<Choice>, k: nat)
    requires k < |cs|
  {
    SplitsStale(newNodes, After(graph, newNodes, cs[..k]), cs[k])
  }

  lemma {:induction false} StaleSomewhere(graph: seq<PubnetNode>, newNodes: seq<string>, cs: seq<Choice>, k: nat)
    returns (v: string)
    requires k < |cs| && StaleStepAt(graph, newNodes, cs, k)
    ensures StaleAt(graph, newNodes, cs, v) > 0
    decreases |cs|
  {
    var n := |cs| - 1;
    if k == n {
      v := After(graph, newNodes, cs[..n]).listed[cs[n].index].0;
    } else {
      assert cs[..n][..k] == cs[..k];
      v := StaleSomewhere(graph, newNodes, cs[..n], k);
    }
  }

  lemma {:induction false} NeverStaleAt(graph: seq<PubnetNode>, newNodes: seq<string>, cs: seq<Choice>, v: string)
    requires forall k: nat :: k < |cs| ==> !StaleStepAt(graph, newNodes, cs, k)
    ensures StaleAt(graph, newNodes, cs, v) == 0
    decreases |cs|
  {
    if cs != [] {
      var n := |cs| - 1;
      assert !StaleStepAt(graph, newNodes, cs, n);
      forall k: nat | k < n ensures !StaleStepAt(graph, newNodes, cs[..n], k) {
        assert cs[..n][..k] == cs[..k] && !StaleStepAt(graph, newNodes, cs, k);
      }
      NeverStaleAt(graph, newNodes, cs[..n], v);
    }
  }

  ghost predicate DegreesKept(graph: seq<PubnetNode>, newNodes: seq<string>, cs: seq<Choice>) {
    forall v :: Degree(After(graph, newNodes, cs).edges, v)
      == Degree(Begin(graph).edges, v) + 2 * SplitsFor(graph, newNodes, cs, v)
  }

  /** A run leaves every degree alone but for the edges split for a node exactly when it
      never splits an edge that is gone. */
  lemma DegreesKeptIff(graph: seq<PubnetNode>, newNodes: seq<string>, cs: seq<Choice>)
    ensures DegreesKept(graph, newNodes, cs) <==> forall k: nat :: k < |cs| ==> !StaleStepAt(graph, newNodes, cs, k)
  {
    forall v ensures Degree(After(graph, newNodes, cs).edges, v)
      == Degree(Begin(graph).edges, v) + 2 * SplitsFor(graph, newNodes, cs, v) + StaleAt(graph, newNodes, cs, v)
    {
      DegreesAre(graph, newNodes, cs, v);
    }
    hide Degree, SplitsFor, StaleAt, After, Begin;
    if k: nat :| k < |cs| && StaleStepAt(graph, newNodes, cs, k) {
      var v := StaleSomewhere(graph, newNodes, cs, k);
    } else {
      forall v ensures StaleAt(graph, newNodes, cs, v) == 0 { NeverStaleAt(graph, newNodes, cs, v); }
    }
  }

  // ----- degrees over all runs of a network -----

  /** Whatever is drawn, degrees stay but for the edges split for a node. */
  ghost predicate AlwaysKept(graph: seq<PubnetNode>, newNodes: seq<string>, tier1: set<string>) {
    forall cs :: Chosen(graph, newNodes, tier1, cs) ==> DegreesKept(graph, newNodes, cs)
  }

  lemma OnceKept(graph: seq<PubnetNode>, newNodes: seq<string>, cs: seq<Choice>)
    requires ListedOnce(graph)
    ensures DegreesKept(graph, newNodes, cs)
  {
    forall k: nat | k < |cs| ensures !StaleStepAt(graph, newNodes, cs, k) {
      NeatRun(graph, newNodes, cs[..k]);
      var s := After(graph, newNodes, cs[..k]);
      assert forall x :: x in s.listed ==> x in Elements(s.listed);
    }
    hide StaleStepAt, ListedOnce;
    DegreesKeptIff(graph, newNodes, cs);
  }

  /** An edge that is gone was split for the only new node, which therefore is linked to its
      ends. */
  ghost predicate GoneIsLinked(s: Scale, u: string) {
    forall e :: e in s.listed ==> e in s.edges || EdgeOf(e.0, u) in s.edges
  }

  lemma GoneStep(newNodes: seq<string>, s: Scale, c: Choice, u: string)
    requires |newNodes| <= 1 && (newNodes != [] ==> newNodes[0] == u) && GoneIsLinked(s, u)
    ensures GoneIsLinked(Next(newNodes, s, c), u) && !SplitsStale(newNodes, s, c)
  {
    if IsSplit(newNodes, s, c) {
      var e, r := s.listed[c.index], Next(newNodes, s, c);
      assert newNodes[s.begun - 1] == u && e in s.listed;
      forall x | x in r.listed ensures x in r.edges || EdgeOf(x.0, u) in r.edges {
        SplitListMembers(s.listed, c.index, u, x);
        assert Touches(EdgeOf(x.0, u), u) && !Touches(e, u);
      }
    }
  }

  lemma {:induction false} GoneRun(graph: seq<PubnetNode>, newNodes: seq<string>, cs: seq<Choice>, u: string)
    requires |newNodes| <= 1 && (newNodes != [] ==> newNodes[0] == u)
    ensures GoneIsLinked(After(graph, newNodes, cs), u)
    decreases |cs|
  {
    if cs == [] {
      assert forall e :: e in ExtractEdges(graph) ==> e in Elements(ExtractEdges(graph));
    } else {
      GoneRun(graph, newNodes, cs[..|cs| - 1], u);
      GoneStep(newNodes, After(graph, newNodes, cs[..|cs| - 1]), cs[|cs| - 1], u);
    }
  }

  /** One inserted node changes nobody else's degree, whatever the file. */
  lemma OneNodeKept(graph: seq<PubnetNode>, newNodes: seq<string>, cs: seq<Choice>)
    requires |newNodes| <= 1
    ensures DegreesKept(graph, newNodes, cs)
  {
    var u := if newNodes == [] then "" else newNodes[0];
    forall k: nat | k < |cs| ensures !StaleStepAt(graph, newNodes, cs, k) {
      GoneRun(graph, newNodes, cs[..k], u);
      GoneStep(newNodes, After(graph, newNodes, cs[..k]), cs[k], u);
    }
    hide StaleStepAt;
    DegreesKeptIff(graph, newNodes, cs);
  }

  lemma SecondFresh(edges: set<Edge>, e: Edge, u: string, v: string)
    requires u != v && !Touches(e, u) && !Touches(e, v) && forall x :: x in edges ==> !Touches(x, v)
    ensures CanSplit(Split(edges, e, u), e, v)
  {
    EdgeOfOrdered(e.0, u);
    EdgeOfOrdered(e.1, u);
    EdgeOfOrdered(e.0, v);
    EdgeOfOrdered(e.1, v);
    assert forall x :: x in Split(edges, e, u) ==> !Touches(x, v);
    assert Touches(EdgeOf(e.0, v), v) && Touches(EdgeOf(e.1, v), v);
  }

  /** Two nodes, each drawing degree 1, split the two entries of an edge. */
  lemma TwoSplits(graph: seq<PubnetNode>, newNodes: seq<string>, tier1: set<string>, i: nat, j: nat)
    returns (cs: seq<Choice>)
    requires |newNodes| >= 2 && newNodes[0] !in tier1 && newNodes[1] !in tier1 && |graph| > 1
    requires var s := Begin(graph);
      && i < j < |s.listed| && s.listed[i] == s.listed[j] && j <= |s.edges| && i < |s.edges|
      && CanSplit(s.edges, s.listed[i], newNodes[0])
      && |Split(s.edges, s.listed[i], newNodes[0])| == |s.edges| + 1
      && CanSplit(Split(s.edges, s.listed[i], newNodes[0]), s.listed[i], newNodes[1])
    ensures Chosen(graph, newNodes, tier1, cs) && |cs| == 4 && StaleStepAt(graph, newNodes, cs, 3)
  {
    var s := Begin(graph);
    var e := s.listed[i];
    DrawThenPick(graph, newNodes, tier1, 1, i);
    var listed, edges := SplitList(s.listed, i, newNodes[0]), Split(s.edges, e, newNodes[0]);
    assert listed[j] == e && e !in edges;
    hide CanSplit, SplitList, Split, CameTo, Begin;
    var t := Scale(listed, edges, 1, -1, 0);
    ChoosesDraw(graph, newNodes, tier1, [Draw(1)] + [Pick(i)], t, 1);
    var three := [Draw(1)] + [Pick(i)] + [Draw(1)];
    var u := Scale(listed, edges, 2, 1, 0);
    ChoosesPick(graph, newNodes, tier1, three, u, j);
    cs := three + [Pick(j)];
    assert cs[..3] == three && cs[3] == Pick(j);
    Came(graph, newNodes, tier1, three, u);
    CameHere(graph, newNodes, tier1, cs);
    hide After, Chosen;
    assert SplitsStale(newNodes, u, Pick(j));
  }

  lemma CameHere(graph: seq<PubnetNode>, newNodes: seq<string>, tier1: set<string>, cs: seq<Choice>)
    requires exists s :: CameTo(graph, newNodes, tier1, cs, s)
    ensures Chosen(graph, newNodes, tier1, cs)
  {
  }

  lemma RepeatBreaks(graph: seq<PubnetNode>, newNodes: seq<string>, tier1: set<string>) returns (cs: seq<Choice>)
    requires !ListedOnce(graph) && |graph| > 1 && |newNodes| >= 2 && PlainPair(graph, newNodes, tier1)
    ensures Chosen(graph, newNodes, tier1, cs) && !DegreesKept(graph, newNodes, cs)
  {
    var listed, edges := ExtractEdges(graph), Elements(ExtractEdges(graph));
    ExtractEdgesNoDup(graph);
    var i, j := FirstRepeat(listed);
    FreshSplits(graph, newNodes[0], i);
    assert listed[i] in listed && listed[i] in edges;
    assert forall x :: x in edges ==> x in listed;
    SecondFresh(edges, listed[i], newNodes[0], newNodes[1]);
    SplitCounts(edges, listed[i], newNodes[0]);
    hide ListedOnce, ExtractEdges, CanSplit, SplitList, Split, StaleStepAt, DegreesKept, Chosen;
    cs := TwoSplits(graph, newNodes, tier1, i, j);
    DegreesKeptIff(graph, newNodes, cs);
  }

  /** The first two new nodes, if there are two, are different, unlinked and not tier 1. */
  predicate PlainPair(graph: seq<PubnetNode>, newNodes: seq<string>, tier1: set<string>) {
    |newNodes| >= 2 ==>
      newNodes[0] != newNodes[1] && newNodes[0] !in tier1 && newNodes[1] !in tier1
      && Fresh(graph, newNodes[0]) && Fresh(graph, newNodes[1])
  }

  /** Degrees are kept in every run whenever the file gives no edge twice, fewer than two nodes
      are inserted or none is let in; and, when the first two new nodes are plain, only then. */
  lemma AlwaysKeptIff(graph: seq<PubnetNode>, newNodes: seq<string>, tier1: set<string>)
    ensures ListedOnce(graph) || |newNodes| < 2 || NothingInserted(graph, newNodes, tier1) ==>
      AlwaysKept(graph, newNodes, tier1)
    ensures PlainPair(graph, newNodes, tier1) ==>
      (AlwaysKept(graph, newNodes, tier1) <==> ListedOnce(graph) || |newNodes| < 2 || |graph| <= 1)
  {
    hide ListedOnce, Fresh, DegreesKept, Chosen;
    if ListedOnce(graph) {
      forall cs ensures DegreesKept(graph, newNodes, cs) { OnceKept(graph, newNodes, cs); }
    } else if |newNodes| < 2 {
      forall cs ensures DegreesKept(graph, newNodes, cs) { OneNodeKept(graph, newNodes, cs); }
    } else if NothingInserted(graph, newNodes, tier1) {
      forall cs | Chosen(graph, newNodes, tier1, cs) ensures DegreesKept(graph, newNodes, cs) {
        NothingHappens(graph, newNodes, tier1, cs);
        DegreesKeptIff(graph, newNodes, []);
      }
    } else if PlainPair(graph, newNodes, tier1) {
      var cs := RepeatBreaks(graph, newNodes, tier1);
    }
  }

  // ----- a network file that gives one edge twice -----

  function RepeatedFile(): seq<PubnetNode> {
    [PubnetNode("c", []), PubnetNode("d", []), PubnetNode("b", ["a", "a"])]
  }

  lemma RepeatedFileEdges()
    ensures ExtractEdges(RepeatedFile()) == [("a", "b"), ("a", "b")]
  {
    var g := RepeatedFile();
    var e: Edge := ("a", "b");
    assert Less("a", "b");
    assert LowerPeers("b", ["a"]) == [e] by { assert ["a"][1..] == []; }
    assert LowerPeers("b", ["a", "a"]) == [e, e] by { assert ["a", "a"][1..] == ["a"]; }
    assert g[1..] == [g[1], g[2]] && g[1..][1..] == [g[2]] && g[1..][1..][1..] == [];
    assert ExtractEdges(g[1..][1..]) == [e, e] + ExtractEdges([]);
    assert ExtractEdges(g[1..]) == LowerPeers("d", []) + ExtractEdges(g[1..][1..]);
    assert ExtractEdges(g) == LowerPeers("c", []) + ExtractEdges(g[1..]);
  }

  lemma Names()
    ensures Less("a", "b") && Less("a", "c") && Less("b", "c") && Less("a", "d") && Less("b", "d")
  {
  }

  lemma FirstSplit(e: Edge)
    requires e == ("a", "b")
    ensures CanSplit({e}, e, "c")
    ensures SplitList([e, e], 0, "c") == [("a", "c"), e, ("b", "c")] && Split({e}, e, "c") == {("a", "c"), ("b", "c")}
  {
    Names();
  }

  lemma SecondSplit(e: Edge)
    requires e == ("a", "b")
    ensures CanSplit({("a", "c"), ("b", "c")}, e, "d")
    ensures Degree(Split({("a", "c"), ("b", "c")}, e, "d"), "a") == 2 && Degree({e}, "a") == 1
  {
    Names();
    var edges := Split({("a", "c"), ("b", "c")}, e, "d");
    assert edges == {("a", "c"), ("b", "c"), ("a", "d"), ("b", "d")};
    assert Incident(edges, "a") == {("a", "c"), ("a", "d")};
    assert Incident({e}, "a") == {e};
  }

  /** Without ListedOnce the accounts fail in a whole run: c and d, both drawing degree 1, are
      inserted into a network whose file lists one edge twice, and an original node ends
      with one edge more than it had. */
  lemma RepeatedEdgeGainsDegree() returns (cs: seq<Choice>)
    ensures !ListedOnce(RepeatedFile()) && Chosen(RepeatedFile(), ["c", "d"], {}, cs)
    ensures var s := After(RepeatedFile(), ["c", "d"], cs);
      && s.begun == 2 && s.remaining <= 0
      && Degree(s.edges, "a") == Degree(Begin(RepeatedFile()).edges, "a") + 1
      && SplitsFor(RepeatedFile(), ["c", "d"], cs, "a") == 0
  {
    RepeatedFileBegins();
    hide ListedOnce, RepeatedFile, CanSplit, SplitList, Split, CameTo, Begin;
    FirstSplit(("a", "b"));
    SecondSplit(("a", "b"));
    cs := RunOfTwo(RepeatedFile(), ["c", "d"], ("a", "b"), Begin(RepeatedFile()));
    Came(RepeatedFile(), ["c", "d"], {}, cs, After(RepeatedFile(), ["c", "d"], cs));
  }

  lemma RepeatedFileBegins()
    ensures !ListedOnce(RepeatedFile()) && |RepeatedFile()| == 3
    ensures Begin(RepeatedFile()) == Scale([("a", "b"), ("a", "b")], {("a", "b")}, 0, 0, 0)
    ensures CameTo(RepeatedFile(), ["c", "d"], {}, [], Begin(RepeatedFile()))
  {
    var e: Edge := ("a", "b");
    RepeatedFileEdges();
    ExtractEdgesNoDup(RepeatedFile());
    BeginsWith(RepeatedFile(), ["c", "d"], {});
    hide ListedOnce, ExtractEdges;
    assert !NoDup([e, e]) by { assert [e, e][0] == [e, e][1]; }
    assert Elements([e, e]) == {e} by { assert [e, e][0] == e; }
  }

  lemma RunOfTwo(g: seq<PubnetNode>, n: seq<string>, e: Edge, s0: Scale) returns (cs: seq<Choice>)
    requires n == ["c", "d"] && e == ("a", "b") && |g| == 3 && s0 == Scale([e, e], {e}, 0, 0, 0)
    requires CameTo(g, n, {}, [], s0)
    ensures CameTo(g, n, {}, cs, After(g, n, cs))
    ensures var s := After(g, n, cs);
      s.edges == Split({("a", "c"), ("b", "c")}, e, "d") && s.begun == 2 && s.remaining == -1
    ensures SplitsFor(g, n, cs, "a") == 0
  {
    FirstSplit(e);
    SecondSplit(e);
    hide CanSplit, SplitList, Split, CameTo;
    ChoosesDraw(g, n, {}, [], s0, 1);
    var s1 := Scale([e, e], {e}, 1, 1, 0);
    assert [] + [Draw(1)] == [Draw(1)];
    ChoosesPick(g, n, {}, [Draw(1)], s1, 0);
    var s2 := Scale([("a", "c"), e, ("b", "c")], {("a", "c"), ("b", "c")}, 1, -1, 0);
    ChoosesDraw(g, n, {}, [Draw(1)] + [Pick(0)], s2, 1);
    var s3 := Scale(s2.listed, s2.edges, 2, 1, 0);
    assert |s2.edges| == 2;
    ChoosesPick(g, n, {}, [Draw(1)] + [Pick(0)] + [Draw(1)], s3, 1);
    cs := [Draw(1)] + [Pick(0)] + [Draw(1)] + [Pick(1)];
    Came(g, n, {}, cs, Scale(SplitList(s3.listed, 1, "d"), Split(s3.edges, e, "d"), 2, -1, 0));
    NotForA(g, n, cs);
  }

  lemma {:induction false} NotForA(g: seq<PubnetNode>, n: seq<string>, cs: seq<Choice>)
    requires n == ["c", "d"]
    ensures SplitsFor(g, n, cs, "a") == 0
    decreases |cs|
  {
    if cs != [] { NotForA(g, n, cs[..|cs| - 1]); }
  }
}
