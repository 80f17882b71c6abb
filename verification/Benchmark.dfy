/** Which node of a link runs its throughput test, and how the measured traffic is credited
    to the nodes. Throughput is an exact real number. */
module Benchmark {
  import opened Text

  // ----- one initiator per link -----

  function Hash(name: string): nat {
    if name == "" then 0 else name[0] as int + Hash(name[1..])
  }

  /** Bitwise exclusive or. */
  function Xor(a: nat, b: nat): nat {
    if a == 0 && b == 0 then 0
    else (if a % 2 == b % 2 then 0 else 1) + 2 * Xor(a / 2, b / 2)
  }

  predicate ShouldInitiate(node1: string, node2: string) {
    var h1, h2 := Hash(node1), Hash(node2);
    if h1 == h2 then Less(node1, node2)
    else if Xor(h1, h2) % 2 == 0 then h1 < h2
    else h1 > h2
  }

  lemma {:induction false} XorCommutes(a: nat, b: nat)
    ensures Xor(a, b) == Xor(b, a)
    decreases a + b
  {
    if a != 0 || b != 0 { XorCommutes(a / 2, b / 2); }
  }

  /** Of two different nodes exactly one initiates; a node never tests itself. */
  lemma OneInitiator(a: string, b: string)
    ensures a != b ==> (ShouldInitiate(a, b) <==> !ShouldInitiate(b, a))
    ensures !ShouldInitiate(a, a)
  {
    XorCommutes(Hash(a), Hash(b));
    LessIrreflexive(a);
    if a != b {
      LessTotal(a, b);
      if Less(a, b) { LessAsymmetric(a, b); }
    }
  }

  /** The hash is the sum of the character codes. */
  lemma {:induction false} HashIsSum(a: string, b: string)
    ensures Hash(a + b) == Hash(a) + Hash(b)
    ensures forall c: char :: Hash([c]) == c as int
    ensures Hash("") == 0
  {
    if a == "" {
      assert a + b == b;
    } else {
      HashIsSum(a[1..], b);
      assert (a + b)[1..] == a[1..] + b;
    }
    forall c: char ensures Hash([c]) == c as int { assert [c][1..] == ""; }
  }

  /** Of two names whose hashes are both even or both odd the one with the lower hash
      initiates, otherwise the one with the higher hash; on a collision the name that sorts
      first. */
  lemma InitiatorIs(a: string, b: string)
    ensures Hash(a) == Hash(b) ==> (ShouldInitiate(a, b) <==> Less(a, b))
    ensures Hash(a) < Hash(b) ==> (ShouldInitiate(a, b) <==> (Hash(a) % 2 == 0 <==> Hash(b) % 2 == 0))
    ensures Hash(a) > Hash(b) ==> (ShouldInitiate(a, b) <==> (Hash(a) % 2 == 0 <==> Hash(b) % 2 == 1))
  {
    assert Xor(Hash(a), Hash(b)) % 2 == 0 <==> Hash(a) % 2 == Hash(b) % 2;
    hide Xor, Hash, Less;
  }

  /** The part of a name before its first dot. */
  function ShortName(fqdn: string): string {
    if fqdn == "" || fqdn[0] == '.' then "" else [fqdn[0]] + ShortName(fqdn[1..])
  }

  lemma {:induction false} ShortNameIs(fqdn: string)
    ensures ShortName(fqdn) <= fqdn && '.' !in ShortName(fqdn)
    ensures ShortName(fqdn) == fqdn || fqdn[|ShortName(fqdn)|] == '.'
  {
    if fqdn != "" && fqdn[0] != '.' { ShortNameIs(fqdn[1..]); }
  }

  type Topology = map<string, seq<string>>

  function Peers(topology: Topology, node: string): seq<string> {
    if node in topology then topology[node] else []
  }

  function Initiated(node: string, peers: seq<string>): (r: seq<string>)
    ensures forall p :: p in r ==> p in peers && ShouldInitiate(node, ShortName(p))
  {
    if peers == [] then []
    else (if ShouldInitiate(node, ShortName(peers[0])) then [peers[0]] else []) + Initiated(node, peers[1..])
  }

  function TestedPeers(topology: Topology, node: string): seq<string> { Initiated(node, Peers(topology, node)) }

  /** How often a list of peers names a node. */
  function Times(peers: seq<string>, node: string): nat {
    if peers == [] then 0 else (if ShortName(peers[0]) == node then 1 else 0) + Times(peers[1..], node)
  }

  /** Each peer of a node lists the node as well, and nobody is listed twice. */
  ghost predicate Symmetric(topology: Topology) {
    && (forall a, b :: Times(Peers(topology, a), b) == Times(Peers(topology, b), a))
    && (forall a, b :: Times(Peers(topology, a), b) <= 1)
  }

  lemma {:induction false} InitiatedTimes(node: string, peers: seq<string>, peer: string)
    ensures Times(Initiated(node, peers), peer) == if ShouldInitiate(node, peer) then Times(peers, peer) else 0
  {
    if peers != [] {
      InitiatedTimes(node, peers[1..], peer);
      var rest := Initiated(node, peers[1..]);
      assert ([peers[0]] + rest)[1..] == rest && [] + rest == rest;
    }
  }

  /** Over a symmetric topology the lists of tested peers together contain every link once
      and nothing else. */
  lemma LinkTestedOnce(topology: Topology, a: string, b: string)
    requires Symmetric(topology) && a != b
    ensures Times(TestedPeers(topology, a), b) + Times(TestedPeers(topology, b), a) == Times(Peers(topology, a), b)
    ensures Times(TestedPeers(topology, a), a) == 0
  {
    OneInitiator(a, b);
    InitiatedTimes(a, Peers(topology, a), b);
    InitiatedTimes(b, Peers(topology, b), a);
    InitiatedTimes(a, Peers(topology, a), a);
  }

  // ----- results and the tests they belong to -----

  datatype TestResult = TestResult(send: real, reverseRecv: real, reverseSend: real, hasRtt: bool, retransmits: int)

  /** started: the output holds at least one result with a start section. */
  datatype Pod = Pod(node: string, started: bool, results: seq<TestResult>)

  /** A result and the peer it is credited to, by its position. */
  datatype Test = Test(initiator: string, peer: string, result: TestResult)

  function Usable(results: seq<TestResult>): seq<TestResult> {
    if results == [] then []
    else
      var r := results[0];
      (if r.send > 0.0 || r.reverseRecv > 0.0 || r.hasRtt then [r] else []) + Usable(results[1..])
  }

  lemma {:induction false} UsableConcat(a: seq<TestResult>, b: seq<TestResult>)
    ensures Usable(a + b) == Usable(a) + Usable(b)
  {
    if a == [] {
      assert a + b == b;
    } else {
      UsableConcat(a[1..], b);
      assert (a + b)[1..] == a[1..] + b;
    }
  }

  /** A result counts exactly when something was sent, something came back or a round trip was
      timed; those that count stay in the order in which they come. */
  lemma UsableIs(before: seq<TestResult>, r: TestResult)
    ensures Usable([]) == []
    ensures Usable(before + [r])
      == if r.send > 0.0 || r.reverseRecv > 0.0 || r.hasRtt then Usable(before) + [r] else Usable(before)
  {
    UsableConcat(before, [r]);
    assert [r][1..] == [];
  }

  lemma {:induction false} InitiatedConcat(node: string, a: seq<string>, b: seq<string>)
    ensures Initiated(node, a + b) == Initiated(node, a) + Initiated(node, b)
  {
    hide ShouldInitiate, ShortName;
    if a == [] {
      assert a + b == b;
    } else {
      assert (a + b)[0] == a[0] && (a + b)[1..] == a[1..] + b;
      InitiatedConcat(node, a[1..], b);
      var first := if ShouldInitiate(node, ShortName(a[0])) then [a[0]] else [];
      assert first + Initiated(node, a[1..]) == Initiated(node, a);
    }
  }

  /** A node initiates to the peers it should, in the order in which they are listed. */
  lemma InitiatedIs(node: string, before: seq<string>, p: string)
    ensures Initiated(node, []) == []
    ensures Initiated(node, before + [p])
      == if ShouldInitiate(node, ShortName(p)) then Initiated(node, before) + [p] else Initiated(node, before)
  {
    InitiatedConcat(node, before, [p]);
    assert [p][1..] == [];
  }

  function Reverse(r: TestResult): real { if r.reverseRecv != 0.0 then r.reverseRecv else r.reverseSend }

  function Min(a: int, b: int): int { if a <= b then a else b }

  /** The i-th usable result is credited to the i-th tested peer; surplus results are dropped. */
  function Matched(node: string, tested: seq<string>, results: seq<TestResult>): seq<Test> {
    seq(Min(|tested|, |results|), i requires 0 <= i < Min(|tested|, |results|) =>
      Test(node, ShortName(tested[i]), results[i]))
  }

  function TestsOf(topology: Topology, pod: Pod): seq<Test> {
    if !pod.started then [] else Matched(pod.node, TestedPeers(topology, pod.node), Usable(pod.results))
  }

  function Tests(topology: Topology, pods: seq<Pod>): seq<Test> {
    if pods == [] then []
    else Tests(topology, pods[..|pods| - 1]) + TestsOf(topology, pods[|pods| - 1])
  }

  // ----- what each node is credited with -----

  datatype Metrics = Metrics(send: real, recv: real, retransmits: int)

  function When(c: bool, x: real): real { if c then x else 0.0 }

  /** What one test makes a node send and receive; known holds the nodes that have a pod. */
  function SentIn(t: Test, node: string): real {
    When(t.initiator == node, t.result.send) + When(t.peer == node && Reverse(t.result) > 0.0, Reverse(t.result))
  }

  function ReceivedIn(t: Test, known: set<string>, node: string): real {
    When(t.peer == node, t.result.send)
    + When(t.initiator == node && t.peer in known && Reverse(t.result) > 0.0, Reverse(t.result))
  }

  function Sent(ts: seq<Test>, node: string): real {
    if ts == [] then 0.0 else Sent(ts[..|ts| - 1], node) + SentIn(ts[|ts| - 1], node)
  }

  function Received(ts: seq<Test>, known: set<string>, node: string): real {
    if ts == [] then 0.0 else Received(ts[..|ts| - 1], known, node) + ReceivedIn(ts[|ts| - 1], known, node)
  }

  function Retransmits(ts: seq<Test>, node: string): int {
    if ts == [] then 0
    else
      var t := ts[|ts| - 1];
      Retransmits(ts[..|ts| - 1], node) + if t.initiator == node then t.result.retransmits else 0
  }

  function Credit(ts: seq<Test>, known: set<string>, node: string): Metrics {
    Metrics(Sent(ts, node), Received(ts, known, node), Retransmits(ts, node))
  }

  /** One test credits what was sent forward to the initiator as sent and to the peer as
      received; what came back, as the initiator received it or else as the peer sent it, to
      the peer as sent and, if the peer has a pod, to the initiator as received; and nothing
      to anybody else. */
  lemma OneTestCredits(t: Test, known: set<string>, node: string)
    requires t.initiator != t.peer
    ensures var back := if t.result.reverseRecv != 0.0 then t.result.reverseRecv else t.result.reverseSend;
      && SentIn(t, node) == (if node == t.initiator then t.result.send
                             else if node == t.peer && back > 0.0 then back else 0.0)
      && ReceivedIn(t, known, node) == (if node == t.peer then t.result.send
                                        else if node == t.initiator && t.peer in known && back > 0.0 then back
                                        else 0.0)
  {
  }

  /** The dictionary of a run: exactly the pods' nodes, each credited with its tests. */
  ghost predicate Credited(m: map<string, Metrics>, known: set<string>, ts: seq<Test>) {
    && m.Keys == known
    && (forall n :: n in known ==> m[n] == Credit(ts, known, n))
  }

  lemma CreditNext(ts: seq<Test>, t: Test, known: set<string>, node: string)
    ensures Credit(ts + [t], known, node)
      == Metrics(Sent(ts, node) + SentIn(t, node), Received(ts, known, node) + ReceivedIn(t, known, node),
                 Retransmits(ts, node) + if t.initiator == node then t.result.retransmits else 0)
  {
    assert (ts + [t])[..|ts|] == ts;
  }

  function Flow(v: Metrics, sends: bool, receives: bool, x: real): Metrics {
    v.(send := v.send + When(sends, x), recv := v.recv + When(receives, x))
  }

  /** Traffic from one node to another, who may have no pod. */
  method CreditFlow(m0: map<string, Metrics>, from: string, to: string, x: real) returns (m: map<string, Metrics>)
    requires from in m0 && from != to
    ensures m.Keys == m0.Keys
    ensures forall n :: n in m0 ==> m[n] == Flow(m0[n], n == from, n == to, x)
  {
    m := m0[from := m0[from].(send := m0[from].send + x)];
    if to in m { m := m[to := m[to].(recv := m[to].recv + x)]; }
  }

  /** What the updates for one test make of a node's metrics. */
  function AfterTest(v: Metrics, t: Test, known: set<string>, node: string): Metrics {
    var w := Flow(v, node == t.initiator, node == t.peer, t.result.send);
    var u := if t.peer in known && Reverse(t.result) > 0.0
             then Flow(w, node == t.peer, node == t.initiator, Reverse(t.result)) else w;
    if node == t.initiator then u.(retransmits := u.retransmits + t.result.retransmits) else u
  }

  lemma AfterTestIsCredit(ts: seq<Test>, t: Test, known: set<string>, node: string)
    requires node in known
    ensures AfterTest(Credit(ts, known, node), t, known, node) == Credit(ts + [t], known, node)
  {
    CreditNext(ts, t, known, node);
    hide Sent, Received, Retransmits;
  }

  lemma CreditedNext(m0: map<string, Metrics>, m: map<string, Metrics>, t: Test, known: set<string>, ts: seq<Test>)
    requires Credited(m0, known, ts) && m.Keys == known
    requires forall n :: n in known ==> m[n] == AfterTest(m0[n], t, known, n)
    ensures Credited(m, known, ts + [t])
  {
    hide Credit, AfterTest;
    forall n | n in known ensures m[n] == Credit(ts + [t], known, n) { AfterTestIsCredit(ts, t, known, n); }
  }

  /** One result, credited update by update. */
  method CreditTest(m0: map<string, Metrics>, t: Test, ghost ts: seq<Test>) returns (m: map<string, Metrics>)
    requires Credited(m0, m0.Keys, ts) && t.initiator in m0 && t.peer != t.initiator
    ensures m.Keys == m0.Keys && Credited(m, m0.Keys, ts + [t])
  {
    hide Credited, Flow, Reverse;
    m := CreditFlow(m0, t.initiator, t.peer, t.result.send);
    var reverse := Reverse(t.result);
    if t.peer in m && reverse > 0.0 {
      m := CreditFlow(m, t.peer, t.initiator, reverse);
    }
    var a := m[t.initiator];
    m := m[t.initiator := a.(retransmits := a.retransmits + t.result.retransmits)];
    CreditedNext(m0, m, t, m0.Keys, ts);
  }

  lemma TestAt(topology: Topology, pod: Pod, i: nat)
    requires pod.started
    ensures var tested, results, all := TestedPeers(topology, pod.node), Usable(pod.results), TestsOf(topology, pod);
      && |all| == Min(|tested|, |results|)
      && (i < |all| ==> all[i] == Test(pod.node, ShortName(tested[i]), results[i]) && all[i].peer != pod.node)
  {
    var tested := TestedPeers(topology, pod.node);
    if i < |TestsOf(topology, pod)| {
      assert tested[i] in tested;
      OneInitiator(pod.node, pod.node);
    }
  }

  function FirstTests(all: seq<Test>, i: nat): seq<Test> { all[..Min(i, |all|)] }

  lemma FirstTestsNext(ts: seq<Test>, all: seq<Test>, i: nat)
    ensures i < |all| ==> (ts + FirstTests(all, i)) + [all[i]] == ts + FirstTests(all, i + 1)
    ensures i >= |all| ==> FirstTests(all, i + 1) == FirstTests(all, i) == all
    ensures ts + FirstTests(all, 0) == ts
  {
  }

  /** The results of one pod. */
  method CreditPod(m0: map<string, Metrics>, topology: Topology, pod: Pod, ghost ts: seq<Test>)
    returns (m: map<string, Metrics>)
    requires Credited(m0, m0.Keys, ts) && pod.node in m0
    ensures m.Keys == m0.Keys && Credited(m, m0.Keys, ts + TestsOf(topology, pod))
  {
    m := m0;
    ghost var all, known := TestsOf(topology, pod), m0.Keys;
    FirstTestsNext(ts, all, 0);
    if !pod.started { assert all == []; return; }
    var tested := TestedPeers(topology, pod.node);
    var results := Usable(pod.results);
    hide Credited, Credit, TestedPeers, Usable, TestsOf, ShortName, FirstTests;
    TestAt(topology, pod, 0);
    for i := 0 to |results|
      invariant m.Keys == known && Credited(m, known, ts + FirstTests(all, i))
    {
      TestAt(topology, pod, i);
      FirstTestsNext(ts, all, i);
      if i < |tested| {
        m := CreditTest(m, Test(pod.node, ShortName(tested[i]), results[i]), ts + FirstTests(all, i));
      }
    }
    FirstTestsNext(ts, all, |results|);
  }

  function Nodes(pods: seq<Pod>): set<string> { set p | p in pods :: p.node }

  /** The nodes in the order in which the dictionary meets them first. */
  function Listed(pods: seq<Pod>): (r: seq<string>)
    ensures Elements(r) == Nodes(pods) && NoDup(r)
  {
    if pods == [] then []
    else
      var k := |pods| - 1;
      var before := Listed(pods[..k]);
      assert pods == pods[..k] + [pods[k]];
      assert Nodes(pods) == Nodes(pods[..k]) + {pods[k].node};
      if pods[k].node in before then before else before + [pods[k].node]
  }

  method InitialMetrics(pods: seq<Pod>) returns (m: map<string, Metrics>)
    ensures m.Keys == Nodes(pods) && Credited(m, Nodes(pods), [])
  {
    m := map[];
    for i := 0 to |pods|
      invariant m.Keys == Nodes(pods[..i])
      invariant forall n :: n in m ==> m[n] == Metrics(0.0, 0.0, 0)
    {
      assert pods[..i + 1] == pods[..i] + [pods[i]];
      if pods[i].node !in m { m := m[pods[i].node := Metrics(0.0, 0.0, 0)]; }
    }
    assert pods[..|pods|] == pods;
  }

  lemma TestsNext(topology: Topology, pods: seq<Pod>, i: nat)
    requires i < |pods|
    ensures Tests(topology, pods[..i + 1]) == Tests(topology, pods[..i]) + TestsOf(topology, pods[i])
    ensures pods[i].node in Nodes(pods)
  {
    assert pods[..i + 1][..i] == pods[..i];
    assert pods[i] in pods;
  }

  lemma ListedAreNodes(pods: seq<Pod>)
    ensures forall n :: n in Listed(pods) ==> n in Nodes(pods)
  {
    assert forall n :: n in Listed(pods) ==> n in Elements(Listed(pods));
  }

  /** Every node is credited with exactly the traffic of its tests. */
  method Aggregate(pods: seq<Pod>, topology: Topology) returns (m: map<string, Metrics>, warned: bool)
    ensures Credited(m, Nodes(pods), Tests(topology, pods))
    ensures forall n :: n in Listed(pods) ==> n in m
    ensures warned == Unbalanced(Listed(pods), m)
  {
    m := InitialMetrics(pods);
    hide Credited, Nodes, Tests, TestsOf, Unbalanced, Listed;
    ghost var known := Nodes(pods);
    assert Tests(topology, pods[..0]) == [] by { NoPods(topology, pods); }
    for i := 0 to |pods|
      invariant m.Keys == known && Credited(m, known, Tests(topology, pods[..i]))
    {
      TestsNext(topology, pods, i);
      m := CreditPod(m, topology, pods[i], Tests(topology, pods[..i]));
    }
    assert pods[..|pods|] == pods;
    ListedAreNodes(pods);
    warned := ValidateNetworkBalance(Listed(pods), m);
  }

  lemma NoPods(topology: Topology, pods: seq<Pod>)
    ensures Tests(topology, pods[..0]) == []
  {
  }

  // ----- conservation -----

  function TotalSend(names: seq<string>, m: map<string, Metrics>): real
    requires forall n :: n in names ==> n in m
  {
    if names == [] then 0.0 else m[names[0]].send + TotalSend(names[1..], m)
  }

  function TotalRecv(names: seq<string>, m: map<string, Metrics>): real
    requires forall n :: n in names ==> n in m
  {
    if names == [] then 0.0 else m[names[0]].recv + TotalRecv(names[1..], m)
  }

  function Abs(x: real): real { if x < 0.0 then -x else x }

  /** The totals differ by more than five percent of what was sent. */
  predicate Unbalanced(names: seq<string>, m: map<string, Metrics>)
    requires forall n :: n in names ==> n in m
  {
    TotalSend(names, m) > 0.0 && Abs(TotalSend(names, m) - TotalRecv(names, m)) > 0.05 * TotalSend(names, m)
  }

  method ValidateNetworkBalance(names: seq<string>, m: map<string, Metrics>) returns (warned: bool)
    requires forall n :: n in names ==> n in m
    ensures warned == Unbalanced(names, m)
  {
    var totalSend, totalRecv := 0.0, 0.0;
    for i := 0 to |names|
      invariant totalSend + TotalSend(names[i..], m) == TotalSend(names, m)
      invariant totalRecv + TotalRecv(names[i..], m) == TotalRecv(names, m)
    {
      totalSend, totalRecv := totalSend + m[names[i]].send, totalRecv + m[names[i]].recv;
      assert names[i..][1..] == names[i + 1..];
    }
    if totalSend > 0.0 {
      var imbalance := Abs(totalSend - totalRecv) / totalSend * 100.0;
      Percent(Abs(totalSend - totalRecv), totalSend);
      return imbalance > 5.0;
    }
    return false;
  }

  lemma Percent(x: real, y: real)
    requires y > 0.0
    ensures x / y * 100.0 > 5.0 <==> x > 0.05 * y
  {
    assert x == (x / y) * y;
  }

  /** Forward traffic towards peers without a pod: sent, but credited to no receiver. */
  function Leak(ts: seq<Test>, known: set<string>): real {
    if ts == [] then 0.0
    else Leak(ts[..|ts| - 1], known) + When(ts[|ts| - 1].peer !in known, ts[|ts| - 1].result.send)
  }

  function SumSentIn(names: seq<string>, t: Test): real {
    if names == [] then 0.0 else SentIn(t, names[0]) + SumSentIn(names[1..], t)
  }

  function SumReceivedIn(names: seq<string>, known: set<string>, t: Test): real {
    if names == [] then 0.0 else ReceivedIn(t, known, names[0]) + SumReceivedIn(names[1..], known, t)
  }

  function SumSent(names: seq<string>, ts: seq<Test>): real {
    if names == [] then 0.0 else Sent(ts, names[0]) + SumSent(names[1..], ts)
  }

  function SumReceived(names: seq<string>, known: set<string>, ts: seq<Test>): real {
    if names == [] then 0.0 else Received(ts, known, names[0]) + SumReceived(names[1..], known, ts)
  }

  lemma {:induction false} TestSums(names: seq<string>, known: set<string>, t: Test)
    requires NoDup(names) && t.initiator != t.peer
    ensures var back := When(Reverse(t.result) > 0.0, Reverse(t.result));
      && SumSentIn(names, t) == When(t.initiator in names, t.result.send) + When(t.peer in names, back)
      && SumReceivedIn(names, known, t)
        == When(t.peer in names, t.result.send) + When(t.initiator in names && t.peer in known, back)
  {
    if names != [] {
      NoDupTail(names);
      TestSums(names[1..], known, t);
      assert names == [names[0]] + names[1..];
      assert names[0] !in names[1..];
    }
  }

  lemma {:induction false} SumsNext(names: seq<string>, known: set<string>, ts: seq<Test>, t: Test)
    ensures SumSent(names, ts + [t]) == SumSent(names, ts) + SumSentIn(names, t)
    ensures SumReceived(names, known, ts + [t]) == SumReceived(names, known, ts) + SumReceivedIn(names, known, t)
  {
    if names != [] {
      CreditNext(ts, t, known, names[0]);
      SumsNext(names[1..], known, ts, t);
    }
  }

  lemma {:induction false} NoTests(names: seq<string>, known: set<string>)
    ensures SumSent(names, []) == 0.0 && SumReceived(names, known, []) == 0.0
  {
    if names != [] { NoTests(names[1..], known); }
  }

  ghost predicate Proper(ts: seq<Test>, known: set<string>) {
    forall t :: t in ts ==> t.initiator in known && t.initiator != t.peer
  }

  lemma {:induction false} SumsDiffer(names: seq<string>, known: set<string>, ts: seq<Test>)
    requires NoDup(names) && Elements(names) == known && Proper(ts, known)
    ensures SumSent(names, ts) - SumReceived(names, known, ts) == Leak(ts, known)
    decreases |ts|
  {
    if ts == [] {
      NoTests(names, known);
    } else {
      var k := |ts| - 1;
      assert ts == ts[..k] + [ts[k]] && ts[k] in ts;
      SumsDiffer(names, known, ts[..k]);
      SumsNext(names, known, ts[..k], ts[k]);
      TestSums(names, known, ts[k]);
      assert ts[k].initiator in Elements(names);
      assert ts[k].peer in names <==> ts[k].peer in known;
    }
  }

  lemma {:induction false} TestsProper(topology: Topology, pods: seq<Pod>, known: set<string>)
    requires Nodes(pods) <= known
    ensures Proper(Tests(topology, pods), known)
    decreases |pods|
  {
    if pods != [] {
      var k := |pods| - 1;
      assert pods[k] in pods && pods[k].node in Nodes(pods);
      assert Nodes(pods[..k]) <= Nodes(pods);
      TestsProper(topology, pods[..k], known);
      var tested := TestedPeers(topology, pods[k].node);
      forall t | t in TestsOf(topology, pods[k]) ensures t.initiator in known && t.initiator != t.peer {
        var i :| 0 <= i < |tested| && t.peer == ShortName(tested[i]);
        assert tested[i] in tested;
        OneInitiator(pods[k].node, pods[k].node);
      }
    }
  }

  lemma {:induction false} TotalsAre(names: seq<string>, m: map<string, Metrics>, known: set<string>, ts: seq<Test>)
    requires Credited(m, known, ts) && forall n :: n in names ==> n in known
    ensures TotalSend(names, m) == SumSent(names, ts) && TotalRecv(names, m) == SumReceived(names, known, ts)
  {
    if names != [] {
      assert names[0] in names;
      TotalsAre(names[1..], m, known, ts);
    }
  }

  /** All that is sent and not received is forward traffic of tests whose peer has no pod. */
  lemma TrafficConserved(pods: seq<Pod>, topology: Topology, m: map<string, Metrics>)
    requires Credited(m, Nodes(pods), Tests(topology, pods))
    ensures forall n :: n in Listed(pods) ==> n in m
    ensures TotalSend(Listed(pods), m) - TotalRecv(Listed(pods), m) == Leak(Tests(topology, pods), Nodes(pods))
  {
    var names := Listed(pods);
    forall n | n in names ensures n in Nodes(pods) { assert n in Elements(names); }
    TestsProper(topology, pods, Nodes(pods));
    TotalsAre(names, m, Nodes(pods), Tests(topology, pods));
    SumsDiffer(names, Nodes(pods), Tests(topology, pods));
  }

  lemma {:induction false} NoLeak(ts: seq<Test>, known: set<string>)
    requires forall t :: t in ts ==> t.peer in known
    ensures Leak(ts, known) == 0.0
    decreases |ts|
  {
    if ts != [] {
      assert ts[|ts| - 1] in ts;
      NoLeak(ts[..|ts| - 1], known);
    }
  }

  /** The balance check warns about exactly the leak, so never when every tested peer is the
      node of a pod. */
  lemma WarnsAboutLeak(pods: seq<Pod>, topology: Topology, m: map<string, Metrics>)
    requires Credited(m, Nodes(pods), Tests(topology, pods))
    ensures forall n :: n in Listed(pods) ==> n in m
    ensures var sent, leak := TotalSend(Listed(pods), m), Leak(Tests(topology, pods), Nodes(pods));
      Unbalanced(Listed(pods), m) <==> sent > 0.0 && Abs(leak) > 0.05 * sent
    ensures (forall t :: t in Tests(topology, pods) ==> t.peer in Nodes(pods)) ==> !Unbalanced(Listed(pods), m)
  {
    TrafficConserved(pods, topology, m);
    if forall t :: t in Tests(topology, pods) ==> t.peer in Nodes(pods) { NoLeak(Tests(topology, pods), Nodes(pods)); }
  }
}
