/** The default quorum set of FullPubnetCoreSets and why its quorums intersect. */
module Quorum {
  import opened Text
  import opened Thresholds

  datatype QuorumSet = QuorumSet(percent: nat, validators: set<string>, inner: seq<QuorumSet>)

  /** stellar-core's reading of a set whose threshold is given in percent of its entries. */
  predicate Satisfies(q: QuorumSet, s: set<string>)
    decreases q, 1
  {
    |q.validators * s| + SatisfiedCount(q.inner, s)
      >= ThresholdOfPercent(|q.validators| + |q.inner|, q.percent)
  }

  function SatisfiedCount(qs: seq<QuorumSet>, s: set<string>): (n: nat)
    ensures n <= |qs|
    decreases qs, 0
  {
    if qs == [] then 0 else (if Satisfies(qs[0], s) then 1 else 0) + SatisfiedCount(qs[1..], s)
  }

  // ----- building it from the tier-1 nodes -----

  datatype OrgNode = OrgNode(key: string, domain: string)

  function OrgKeys(nodes: seq<OrgNode>, domain: string): (r: set<string>)
    ensures forall k :: k in r <==> OrgNode(k, domain) in nodes
  {
    set n | n in nodes && n.domain == domain :: n.key
  }

  /** The home domains in order of first appearance. */
  function Domains(nodes: seq<OrgNode>): (r: seq<string>)
    ensures NoDup(r) && forall d :: d in r <==> exists n :: n in nodes && n.domain == d
  {
    if nodes == [] then []
    else
      var k := |nodes| - 1;
      assert nodes == nodes[..k] + [nodes[k]];
      var ds := Domains(nodes[..k]);
      if nodes[k].domain in ds then ds else ds + [nodes[k].domain]
  }

  const ORG_PERCENT := 51
  const CROSS_ORG_PERCENT := 67

  function OrgQuorum(org: set<string>): QuorumSet { QuorumSet(ORG_PERCENT, org, []) }

  function OrgQuorums(orgs: seq<set<string>>): (r: seq<QuorumSet>)
    ensures |r| == |orgs|
  {
    seq(|orgs|, i requires 0 <= i < |orgs| => OrgQuorum(orgs[i]))
  }

  function Orgs(nodes: seq<OrgNode>): (r: seq<set<string>>)
    ensures |r| == |Domains(nodes)|
  {
    var ds := Domains(nodes);
    seq(|ds|, i requires 0 <= i < |ds| => OrgKeys(nodes, ds[i]))
  }

  function DefaultQuorum(nodes: seq<OrgNode>): QuorumSet {
    QuorumSet(CROSS_ORG_PERCENT, {}, OrgQuorums(Orgs(nodes)))
  }

  ghost predicate DistinctKeys(nodes: seq<OrgNode>) {
    forall m, n :: m in nodes && n in nodes && m.key == n.key ==> m == n
  }

  /** Grouping distinct keys by domain gives nonempty, disjoint organizations that together
      hold every key. */
  lemma OrgsPartition(nodes: seq<OrgNode>)
    requires DistinctKeys(nodes)
    ensures var orgs := Orgs(nodes);
      && (forall i :: 0 <= i < |orgs| ==> orgs[i] != {})
      && (forall i, j :: 0 <= i < j < |orgs| ==> orgs[i] !! orgs[j])
      && (forall n :: n in nodes ==> exists i :: 0 <= i < |orgs| && n.key in orgs[i])
  {
    var ds, orgs := Domains(nodes), Orgs(nodes);
    forall i | 0 <= i < |orgs| ensures orgs[i] != {} {
      assert ds[i] in ds;
      var n :| n in nodes && n.domain == ds[i];
      assert n == OrgNode(n.key, ds[i]);
      assert n.key in orgs[i];
    }
    forall i, j | 0 <= i < j < |orgs| ensures orgs[i] !! orgs[j] {
      assert ds[i] != ds[j];
      forall k | k in orgs[i] ensures k !in orgs[j] { assert OrgNode(k, ds[i]) in nodes; }
    }
    forall n | n in nodes ensures exists i :: 0 <= i < |orgs| && n.key in orgs[i] {
      assert n.domain in ds;
      var i :| 0 <= i < |ds| && ds[i] == n.domain;
      assert n == OrgNode(n.key, ds[i]) && n.key in orgs[i];
    }
  }

  /** An organization is a home domain: two nodes are in one exactly when their domains are
      the same, and every member is the key of a node. */
  lemma OrgsAreDomains(nodes: seq<OrgNode>)
    requires DistinctKeys(nodes)
    ensures forall m, n :: m in nodes && n in nodes ==>
      (m.domain == n.domain <==> exists org :: org in Orgs(nodes) && m.key in org && n.key in org)
    ensures forall org, k :: org in Orgs(nodes) && k in org ==> exists n :: n in nodes && n.key == k
  {
    var ds, orgs := Domains(nodes), Orgs(nodes);
    forall org, k | org in orgs && k in org ensures exists n :: n in nodes && n.key == k {
      var i :| 0 <= i < |orgs| && orgs[i] == org;
      assert OrgNode(k, ds[i]) in nodes;
    }
    forall m, n | m in nodes && n in nodes
      ensures m.domain == n.domain <==> exists org :: org in orgs && m.key in org && n.key in org {
      SameDomain(nodes, m, n);
    }
  }

  lemma SameDomain(nodes: seq<OrgNode>, m: OrgNode, n: OrgNode)
    requires DistinctKeys(nodes) && m in nodes && n in nodes
    ensures m.domain == n.domain <==> exists org :: org in Orgs(nodes) && m.key in org && n.key in org
  {
    var ds, orgs := Domains(nodes), Orgs(nodes);
    if m.domain == n.domain {
      assert m.domain in ds;
      var i :| 0 <= i < |ds| && ds[i] == m.domain;
      assert m == OrgNode(m.key, ds[i]) && n == OrgNode(n.key, ds[i]);
      assert m.key in orgs[i] && n.key in orgs[i];
    }
    if org :| org in orgs && m.key in org && n.key in org {
      var i :| 0 <= i < |orgs| && orgs[i] == org;
      assert OrgNode(m.key, ds[i]) in nodes && OrgNode(n.key, ds[i]) in nodes;
    }
  }

  /** The organizations of which the set holds at least 51 percent. */
  function Reached(orgs: seq<set<string>>, s: set<string>): (n: nat)
    ensures n <= |orgs|
  {
    if orgs == [] then 0
    else (if 100 * |orgs[0] * s| >= 51 * |orgs[0]| then 1 else 0) + Reached(orgs[1..], s)
  }

  lemma CeilingReached(k: nat, sz: nat, pct: nat)
    requires sz > 0 && pct > 0
    ensures k >= ThresholdOfPercent(sz, pct) <==> 100 * k >= pct * sz
  {
    ThresholdIsCeiling(sz, pct);
    assert pct * sz == sz * pct;
  }

  lemma {:induction false} ReachedCounts(orgs: seq<set<string>>, s: set<string>)
    requires forall i :: 0 <= i < |orgs| ==> orgs[i] != {}
    ensures SatisfiedCount(OrgQuorums(orgs), s) == Reached(orgs, s)
  {
    if orgs != [] {
      ReachedCounts(orgs[1..], s);
      assert OrgQuorums(orgs)[1..] == OrgQuorums(orgs[1..]);
      CeilingReached(|orgs[0] * s|, |orgs[0]|, 51);
    }
  }

  /** A set satisfies the default quorum set exactly when it holds at least 51 percent of at
      least 67 percent of the organizations. */
  lemma DefaultQuorumIs(nodes: seq<OrgNode>, s: set<string>)
    requires DistinctKeys(nodes) && nodes != []
    ensures Satisfies(DefaultQuorum(nodes), s) <==> 100 * Reached(Orgs(nodes), s) >= 67 * |Orgs(nodes)|
  {
    var orgs := Orgs(nodes);
    OrgsPartition(nodes);
    assert nodes[0] in nodes;
    assert orgs != [];
    ReachedCounts(orgs, s);
    CeilingReached(Reached(orgs, s), |orgs|, 67);
    assert DefaultQuorum(nodes).validators * s == {};
  }

  // ----- intersection -----

  /** The organizations in which both sets hold a majority. */
  function Common(orgs: seq<set<string>>, s: set<string>, t: set<string>): (n: nat)
    ensures n <= |orgs|
  {
    if orgs == [] then 0
    else (if Satisfies(OrgQuorum(orgs[0]), s) && Satisfies(OrgQuorum(orgs[0]), t) then 1 else 0)
         + Common(orgs[1..], s, t)
  }

  /** The organizations in which the two sets share a validator. */
  function Shared(orgs: seq<set<string>>, s: set<string>, t: set<string>): (n: nat) {
    if orgs == [] then 0
    else (if orgs[0] * s * t != {} then 1 else 0) + Shared(orgs[1..], s, t)
  }

  lemma MajoritiesMeet(org: set<string>, s: set<string>, t: set<string>)
    requires org != {} && Satisfies(OrgQuorum(org), s) && Satisfies(OrgQuorum(org), t)
    ensures org * s * t != {}
  {
    ThresholdIsCeiling(|org|, ORG_PERCENT);
    var a, b := org * s, org * t;
    if a * b == {} {
      assert |a + b| == |a| + |b|;
      SubsetSize(a + b, org);
    }
    assert a * b == org * s * t;
  }

  lemma {:induction false} CommonCounts(orgs: seq<set<string>>, s: set<string>, t: set<string>)
    ensures Common(orgs, s, t) >= SatisfiedCount(OrgQuorums(orgs), s) + SatisfiedCount(OrgQuorums(orgs), t) - |orgs|
  {
    if orgs != [] {
      CommonCounts(orgs[1..], s, t);
      assert OrgQuorums(orgs)[1..] == OrgQuorums(orgs[1..]);
    }
  }

  lemma {:induction false} CommonIsShared(orgs: seq<set<string>>, s: set<string>, t: set<string>)
    requires forall i :: 0 <= i < |orgs| ==> orgs[i] != {}
    ensures Common(orgs, s, t) <= Shared(orgs, s, t)
  {
    if orgs != [] {
      CommonIsShared(orgs[1..], s, t);
      if Satisfies(OrgQuorum(orgs[0]), s) && Satisfies(OrgQuorum(orgs[0]), t) {
        MajoritiesMeet(orgs[0], s, t);
      }
    }
  }

  lemma {:induction false} SharedWitness(orgs: seq<set<string>>, s: set<string>, t: set<string>)
    requires Shared(orgs, s, t) > 0
    ensures s * t != {}
  {
    if orgs[0] * s * t != {} {
      var x :| x in orgs[0] * s * t;
      assert x in s * t;
    } else {
      SharedWitness(orgs[1..], s, t);
    }
  }

  /** Any two sets that satisfy the default quorum set share a validator, and with at least
      3f + 1 organizations they share one in at least f + 1 of them. */
  lemma QuorumsIntersect(nodes: seq<OrgNode>, s: set<string>, t: set<string>)
    requires DistinctKeys(nodes)
    requires Satisfies(DefaultQuorum(nodes), s) && Satisfies(DefaultQuorum(nodes), t)
    ensures s * t != {}
    ensures forall f: nat :: |Orgs(nodes)| >= 3 * f + 1 ==> Shared(Orgs(nodes), s, t) >= f + 1
  {
    var orgs := Orgs(nodes);
    var n := |orgs|;
    OrgsPartition(nodes);
    assert n > 0;
    ThresholdIsCeiling(n, CROSS_ORG_PERCENT);
    CommonCounts(orgs, s, t);
    CommonIsShared(orgs, s, t);
    SharedWitness(orgs, s, t);
  }

  // ----- the thresholds the comments promise -----

  /** The percentages are the 2f + 1 of 3f + 1 organizations and the f + 1 of 2f + 1 nodes
      that the comments name exactly up to these sizes. */
  lemma ByzantineThresholds(f: nat)
    ensures ThresholdOfPercent(3 * f + 1, CROSS_ORG_PERCENT) == 2 * f + 1 <==> f <= 33
    ensures ThresholdOfPercent(2 * f + 1, ORG_PERCENT) == f + 1 <==> f <= 24
  {
  }

  /** The next sizes are the first at which they are not. */
  lemma ByzantineFails()
    ensures ThresholdOfPercent(3 * 34 + 1, CROSS_ORG_PERCENT) == 2 * 34 + 2
    ensures ThresholdOfPercent(2 * 25 + 1, ORG_PERCENT) == 25 + 2
  {
    ThresholdIsCeiling(103, CROSS_ORG_PERCENT);
    ThresholdIsCeiling(51, ORG_PERCENT);
  }

  /** The organizations that are not wholly in the set. */
  function Failing(orgs: seq<set<string>>, s: set<string>): nat {
    if orgs == [] then 0 else (if orgs[0] <= s then 0 else 1) + Failing(orgs[1..], s)
  }

  lemma WholeOrg(org: set<string>, s: set<string>)
    requires org != {}
    ensures org <= s ==> Satisfies(OrgQuorum(org), s)
    ensures org !! s ==> !Satisfies(OrgQuorum(org), s)
  {
    ThresholdIsCeiling(|org|, ORG_PERCENT);
    assert org <= s ==> org * s == org;
    assert org !! s ==> org * s == {};
  }

  lemma {:induction false} FailingCounts(orgs: seq<set<string>>, s: set<string>)
    requires forall i :: 0 <= i < |orgs| ==> orgs[i] != {}
    ensures SatisfiedCount(OrgQuorums(orgs), s) + Failing(orgs, s) >= |orgs|
    ensures (forall i :: 0 <= i < |orgs| ==> orgs[i] <= s || orgs[i] !! s) ==>
      SatisfiedCount(OrgQuorums(orgs), s) + Failing(orgs, s) == |orgs|
  {
    if orgs != [] {
      FailingCounts(orgs[1..], s);
      assert OrgQuorums(orgs)[1..] == OrgQuorums(orgs[1..]);
      WholeOrg(orgs[0], s);
    }
  }

  /** Availability: with 3f + 1 organizations, f of which have failed, the rest still
      satisfy the set when f is at most 33; when the failed ones are down entirely, then
      only when f is at most 33. */
  lemma QuorumAvailable(nodes: seq<OrgNode>, s: set<string>, f: nat)
    requires DistinctKeys(nodes) && |Orgs(nodes)| == 3 * f + 1 && Failing(Orgs(nodes), s) == f
    ensures f <= 33 ==> Satisfies(DefaultQuorum(nodes), s)
    ensures (forall i :: 0 <= i < |Orgs(nodes)| ==> Orgs(nodes)[i] <= s || Orgs(nodes)[i] !! s) ==>
      (Satisfies(DefaultQuorum(nodes), s) <==> f <= 33)
  {
    OrgsPartition(nodes);
    FailingCounts(Orgs(nodes), s);
    assert nodes != [];
    DefaultQuorumIs(nodes, s);
    ReachedCounts(Orgs(nodes), s);
    hide Satisfies, Orgs, Failing, Reached, SatisfiedCount;
  }
}
