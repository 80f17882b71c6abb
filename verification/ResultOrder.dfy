/** Whether the benchmark's results are credited to the peers that they were measured with:
    the client measures every peer of its node, while results are matched by position to the
    peers that the node initiates to. */
module ResultOrder {
  import opened Text
  import opened Benchmark

  /** Every result of a measurement is usable. */
  ghost predicate AllUsable(results: seq<TestResult>) {
    forall r :: r in results ==> r.send > 0.0 || r.reverseRecv > 0.0 || r.hasRtt
  }

  lemma {:induction false} UsableAll(results: seq<TestResult>)
    requires AllUsable(results)
    ensures Usable(results) == results
  {
    if results != [] {
      assert results[0] in results;
      assert forall r :: r in results[1..] ==> r in results;
      UsableAll(results[1..]);
    }
  }

  function ShortNames(peers: seq<string>): (r: seq<string>)
    ensures |r| == |peers|
    ensures forall i :: 0 <= i < |peers| ==> r[i] == ShortName(peers[i])
  {
    if peers == [] then [] else [ShortName(peers[0])] + ShortNames(peers[1..])
  }

  /** Wherever both lists go, they name the same. */
  ghost predicate Alike(t: seq<string>, m: seq<string>) {
    forall i :: 0 <= i < Min(|t|, |m|) ==> t[i] == m[i]
  }

  /** The client measures every peer of its node. Given the peers in the order in which their
      results are read, each credited result is credited to the peer it was measured with. */
  ghost predicate CreditedRightly(topology: Topology, node: string, measured: seq<string>) {
    Alike(ShortNames(TestedPeers(topology, node)), measured)
  }

  /** That is what the predicate says about the tests of a pod. */
  lemma CreditedRightlyIs(topology: Topology, node: string, measured: seq<string>, results: seq<TestResult>)
    requires |results| == |measured| && AllUsable(results)
    ensures var ts := TestsOf(topology, Pod(node, true, results));
      && |ts| <= |measured|
      && (forall i :: 0 <= i < |ts| ==> ts[i].result == results[i])
      && ((forall i :: 0 <= i < |ts| ==> ts[i].peer == measured[i]) <==> CreditedRightly(topology, node, measured))
  {
    UsableAll(results);
    hide Usable, TestedPeers, ShortName, AllUsable;
  }

  /** No peer that the node initiates to comes after one that it does not. */
  ghost predicate InitiatedFirst(node: string, peers: seq<string>) {
    forall i, k :: 0 <= i < k < |peers| && ShouldInitiate(node, ShortName(peers[k])) ==>
      ShouldInitiate(node, ShortName(peers[i]))
  }

  lemma AlikeCons(x: string, t: seq<string>, m: seq<string>)
    ensures Alike([x] + t, [x] + m) <==> Alike(t, m)
  {
    if Alike([x] + t, [x] + m) {
      forall i | 0 <= i < Min(|t|, |m|) ensures t[i] == m[i] {
        assert ([x] + t)[i + 1] == ([x] + m)[i + 1];
      }
    }
  }

  lemma {:induction false} InitiatedIsPrefix(node: string, peers: seq<string>)
    ensures |Initiated(node, peers)| <= |peers|
    ensures InitiatedFirst(node, peers) <==> Alike(ShortNames(Initiated(node, peers)), ShortNames(peers))
  {
    hide ShouldInitiate, ShortName, InitiatedFirst;
    if peers == [] {
      assert InitiatedFirst(node, peers) by { NoneFirst(node); }
    } else {
      InitiatedIsPrefix(node, peers[1..]);
      var rest, x := Initiated(node, peers[1..]), ShortName(peers[0]);
      assert ShortNames(peers) == [x] + ShortNames(peers[1..]);
      if ShouldInitiate(node, x) {
        FirstInitiates(node, peers);
        assert ([peers[0]] + rest)[1..] == rest;
        assert ShortNames([peers[0]] + rest) == [x] + ShortNames(rest);
        AlikeCons(x, ShortNames(rest), ShortNames(peers[1..]));
      } else {
        assert [] + rest == rest;
        NoneInitiates(node, peers);
        if rest != [] {
          assert rest[0] in rest && ShortNames(rest)[0] == ShortName(rest[0]);
          assert ShortNames(rest)[0] != x;
        }
      }
      hide Initiated, ShortNames;
    }
  }

  lemma NoneFirst(node: string)
    ensures InitiatedFirst(node, [])
  {
  }

  lemma FirstInitiates(node: string, peers: seq<string>)
    requires peers != [] && ShouldInitiate(node, ShortName(peers[0]))
    ensures InitiatedFirst(node, peers) <==> InitiatedFirst(node, peers[1..])
  {
    hide ShouldInitiate, ShortName;
    if InitiatedFirst(node, peers) {
      forall i, k | 0 <= i < k < |peers[1..]| && ShouldInitiate(node, ShortName(peers[1..][k]))
        ensures ShouldInitiate(node, ShortName(peers[1..][i]))
      {
        assert peers[1..][i] == peers[i + 1] && peers[1..][k] == peers[k + 1];
      }
    }
    if InitiatedFirst(node, peers[1..]) {
      forall i, k | 0 <= i < k < |peers| && ShouldInitiate(node, ShortName(peers[k]))
        ensures ShouldInitiate(node, ShortName(peers[i]))
      {
        if i > 0 { assert peers[1..][i - 1] == peers[i] && peers[1..][k - 1] == peers[k]; }
      }
    }
  }

  lemma NoneInitiates(node: string, peers: seq<string>)
    requires peers != [] && !ShouldInitiate(node, ShortName(peers[0]))
    ensures InitiatedFirst(node, peers) <==> Initiated(node, peers[1..]) == []
  {
    InitiatedNoneIff(node, peers[1..]);
    hide ShouldInitiate, ShortName, Initiated;
    if InitiatedFirst(node, peers) {
      forall p | p in peers[1..] ensures !ShouldInitiate(node, ShortName(p)) {
        var k :| 0 <= k < |peers[1..]| && peers[1..][k] == p;
        assert peers[k + 1] == p;
      }
    }
    if forall p :: p in peers[1..] ==> !ShouldInitiate(node, ShortName(p)) {
      forall k | 0 <= k < |peers| ensures !ShouldInitiate(node, ShortName(peers[k])) {
        if k > 0 { assert peers[k] == peers[1..][k - 1]; }
      }
    }
  }

  lemma {:induction false} InitiatedNoneIff(node: string, peers: seq<string>)
    ensures Initiated(node, peers) == [] <==> forall p :: p in peers ==> !ShouldInitiate(node, ShortName(p))
  {
    hide ShouldInitiate, ShortName;
    if peers != [] {
      InitiatedNoneIff(node, peers[1..]);
      assert forall p :: p in peers <==> p == peers[0] || p in peers[1..];
    }
  }

  /** With one usable result for each listed peer, in list order, every credited result belongs
      to its peer exactly when the list has the initiated peers first. */
  lemma ListOrderIff(topology: Topology, node: string)
    ensures CreditedRightly(topology, node, ShortNames(Peers(topology, node)))
      <==> InitiatedFirst(node, Peers(topology, node))
  {
    hide Initiated, InitiatedFirst, Alike, ShortNames;
    InitiatedIsPrefix(node, Peers(topology, node));
  }

  // The results are files named after the peers, read in the order of the file names.

  function FileName(peer: string): string { "result-" + peer + "-bidir.json" }

  lemma FileNameInjective(a: string, b: string)
    requires FileName(a) == FileName(b)
    ensures a == b
  {
    assert |FileName(a)| == |a| + 18 && |FileName(b)| == |b| + 18;
    assert FileName(a)[7..|a| + 7] == a && FileName(b)[7..|b| + 7] == b;
  }

  function FileNames(names: seq<string>): (r: seq<string>)
    ensures |r| == |names|
    ensures forall i :: 0 <= i < |names| ==> r[i] == FileName(names[i])
  {
    if names == [] then [] else [FileName(names[0])] + FileNames(names[1..])
  }

  lemma FilesAreNamed(names: seq<string>, i: nat)
    requires i < |names|
    ensures FileNames(names)[i] == "result-" + names[i] + "-bidir.json"
  {
  }

  function PeerFiles(topology: Topology, node: string): set<string> {
    Elements(FileNames(ShortNames(Peers(topology, node))))
  }

  /** The files of the peers that the node initiates to, in list order. */
  function InitiatedFiles(topology: Topology, node: string): seq<string> {
    FileNames(ShortNames(TestedPeers(topology, node)))
  }

  /** The listed names sort before all the others. */
  ghost predicate SortsFirst(t: seq<string>, names: set<string>) {
    forall x, y :: x in t && y in names && y !in t ==> Less(x, y)
  }

  /** Two ascending listings of the same names are the same. */
  lemma {:induction false} AscendingUnique(p: seq<string>, q: seq<string>)
    requires Ascending(p) && Ascending(q) && Elements(p) == Elements(q)
    ensures p == q
    decreases |p|
  {
    assert (p == [] <==> q == []) by {
      assert p != [] ==> p[0] in Elements(q);
      assert q != [] ==> q[0] in Elements(p);
    }
    if p != [] {
      FirstIsLeast(p, q[0]);
      FirstIsLeast(q, p[0]);
      assert p[0] in Elements(q) && q[0] in Elements(p);
      if Less(p[0], q[0]) { LessAsymmetric(p[0], q[0]); }
      TailOf(p);
      TailOf(q);
      AscendingUnique(p[1..], q[1..]);
    }
  }

  lemma FirstIsLeast(q: seq<string>, x: string)
    requires Ascending(q) && q != [] && x in q
    ensures q[0] == x || Less(q[0], x)
  {
  }

  lemma TailOf(q: seq<string>)
    requires Ascending(q) && q != []
    ensures Ascending(q[1..]) && Elements(q[1..]) == Elements(q) - {q[0]}
  {
    forall i, j | 0 <= i < j < |q[1..]| ensures Less(q[1..][i], q[1..][j]) {
      assert q[1..][i] == q[i + 1] && q[1..][j] == q[j + 1];
    }
    LessIrreflexive(q[0]);
    forall x ensures x in q[1..] <==> x in q && x != q[0] {
      if x in q[1..] {
        var k :| 0 <= k < |q[1..]| && q[1..][k] == x;
        assert q[k + 1] == x;
      }
      if x in q && x != q[0] {
        var k :| 0 <= k < |q| && q[k] == x;
        assert q[1..][k - 1] == x;
      }
    }
  }

  /** A listing is a prefix of the sorted names exactly when it ascends and its names sort
      before all the others. */
  lemma PrefixOfSortedIff(t: seq<string>, names: set<string>)
    requires Elements(t) <= names && NoDup(t)
    ensures |t| <= |Sorted(names)|
    ensures t == Sorted(names)[..|t|] <==> Ascending(t) && SortsFirst(t, names)
  {
    var q := Sorted(names);
    NoDupSize(t);
    SubsetSize(Elements(t), names);
    if t == q[..|t|] { PrefixSortsFirst(t, names); }
    if Ascending(t) && SortsFirst(t, names) { SortsFirstIsPrefix(t, names); }
    hide Ascending, Sorted;
  }

  lemma PrefixSortsFirst(t: seq<string>, names: set<string>)
    requires |t| <= |Sorted(names)| && t == Sorted(names)[..|t|]
    ensures Ascending(t) && SortsFirst(t, names)
  {
    var q := Sorted(names);
    hide Sorted, Less;
    assert forall i :: 0 <= i < |t| ==> t[i] == q[i];
    forall x, y | x in t && y in names && y !in t ensures Less(x, y) {
      var i :| 0 <= i < |t| && t[i] == x;
      var k :| 0 <= k < |q| && q[k] == y;
      assert k < |t| ==> t[k] == y;
      assert q[i] == x;
    }
  }

  lemma SortsFirstIsPrefix(t: seq<string>, names: set<string>)
    requires Elements(t) <= names && Ascending(t) && SortsFirst(t, names)
    ensures t <= Sorted(names)
  {
    var rest := Sorted(names - Elements(t));
    var p := t + rest;
    hide Sorted, Less;
    assert forall x :: x in t <==> x in Elements(t);
    assert forall x :: x in p <==> x in t || x in rest;
    assert Elements(p) == names;
    forall i, j | 0 <= i < j < |p| ensures Less(p[i], p[j]) {
      if i < |t| && |t| <= j { assert p[i] in t && p[j] in rest; }
    }
    assert Elements(Sorted(names)) == names;
    AscendingUnique(p, Sorted(names));
  }

  lemma InitiatedAreFiles(topology: Topology, node: string)
    ensures Elements(InitiatedFiles(topology, node)) <= PeerFiles(topology, node)
  {
    var t, tested, peers := InitiatedFiles(topology, node), TestedPeers(topology, node), Peers(topology, node);
    hide ShortName, ShouldInitiate, FileName;
    forall x | x in t ensures x in PeerFiles(topology, node) {
      var i :| 0 <= i < |t| && t[i] == x;
      assert tested[i] in tested;
      var k :| 0 <= k < |peers| && peers[k] == tested[i];
      assert FileNames(ShortNames(peers))[k] == x;
    }
  }

  lemma SameFiles(t: seq<string>, m: seq<string>)
    requires |t| <= |m|
    ensures Alike(t, m) <==> FileNames(t) == FileNames(m)[..|t|]
  {
    var f, g := FileNames(t), FileNames(m);
    forall i | 0 <= i < |t| ensures f[i] == g[i] <==> t[i] == m[i] {
      if f[i] == g[i] { FileNameInjective(t[i], m[i]); }
    }
    hide FileNames;
    assert f == g[..|t|] ==> forall i :: 0 <= i < |t| ==> f[i] == g[..|t|][i];
  }

  lemma RightlyIsPrefix(topology: Topology, node: string, measured: seq<string>)
    requires |InitiatedFiles(topology, node)| <= |measured|
    ensures var t := InitiatedFiles(topology, node);
      CreditedRightly(topology, node, measured) <==> t == FileNames(measured)[..|t|]
  {
    hide Alike, TestedPeers, FileNames, ShortNames;
    SameFiles(ShortNames(TestedPeers(topology, node)), measured);
  }

  /** With one usable result for each of different peers, read by file name, every credited
      result belongs to its peer exactly when the initiated peers' files are listed by name and
      sort before all others. */
  lemma FileOrderIff(topology: Topology, node: string, measured: seq<string>)
    requires NoDup(InitiatedFiles(topology, node))
    requires FileNames(measured) == Sorted(PeerFiles(topology, node))
    ensures CreditedRightly(topology, node, measured) <==>
      Ascending(InitiatedFiles(topology, node))
      && SortsFirst(InitiatedFiles(topology, node), PeerFiles(topology, node))
  {
    InitiatedAreFiles(topology, node);
    hide PeerFiles, InitiatedFiles, Sorted, CreditedRightly, Ascending, SortsFirst, Elements, NoDup;
    PrefixOfSortedIff(InitiatedFiles(topology, node), PeerFiles(topology, node));
    RightlyIsPrefix(topology, node, measured);
  }

  lemma LowBit(bit: nat, rest: nat)
    requires bit < 2
    ensures (bit + 2 * rest) % 2 == bit
  {
  }

  lemma XorParity(a: nat, b: nat)
    ensures Xor(a, b) % 2 == if a % 2 == b % 2 then 0 else 1
  {
    if a != 0 || b != 0 {
      var bit := if a % 2 == b % 2 then 0 else 1;
      var rest := Xor(a / 2, b / 2);
      assert Xor(a, b) == bit + 2 * rest;
      hide Xor;
      LowBit(bit, rest);
    }
  }

  lemma LetterHashes()
    ensures Hash("a") == 97 && Hash("b") == 98 && Hash("c") == 99
  {
    assert "a"[1..] == "" && "b"[1..] == "" && "c"[1..] == "";
  }

  function TwoPeers(): Topology { map["a" := ["b", "c"]] }

  lemma ToCNotB()
    ensures !ShouldInitiate("a", "b") && ShouldInitiate("a", "c")
  {
    LetterHashes();
    XorParity(97, 98);
    XorParity(97, 99);
    hide Hash, Xor;
  }

  lemma OnlyToC()
    ensures TestedPeers(TwoPeers(), "a") == ["c"] && ShortName("b") == "b" && ShortName("c") == "c"
  {
    ToCNotB();
    assert ShortName("b") == "b" && ShortName("c") == "c" by { assert "b"[1..] == "" && "c"[1..] == ""; }
    hide ShortName;
    assert ["b", "c"][1..] == ["c"] && ["c"][1..] == [];
    hide ShouldInitiate;
    assert Initiated("a", ["c"]) == ["c"];
  }

  lemma AscendingIsSorted(q: seq<string>)
    requires Ascending(q)
    ensures q == Sorted(Elements(q))
  {
    var p := Sorted(Elements(q));
    assert forall x :: x in p <==> x in Elements(q);
    assert Elements(p) == Elements(q);
    hide Sorted, Ascending;
    AscendingUnique(p, q);
  }

  lemma FilesOfTwo()
    ensures FileNames(["b", "c"]) == Sorted(Elements(FileNames(["b", "c"])))
  {
    CommonPrefixLess("result-", "b-bidir.json", "c-bidir.json");
    assert FileName("b") == "result-" + "b-bidir.json" && FileName("c") == "result-" + "c-bidir.json";
    var q := FileNames(["b", "c"]);
    assert q[0] == FileName("b") && q[1] == FileName("c");
    hide FileName, Less, FileNames;
    AscendingIsSorted(q);
  }

  lemma NamesOfTwo()
    ensures ShortNames(Peers(TwoPeers(), "a")) == ["b", "c"]
  {
    assert ShortName("b") == "b" && ShortName("c") == "c" by { assert "b"[1..] == "" && "c"[1..] == ""; }
    hide ShortName;
    assert ShortNames(["b", "c"]) == ["b", "c"];
  }

  lemma {:induction false} CommonPrefixLess(p: string, a: string, b: string)
    requires Less(a, b)
    ensures Less(p + a, p + b)
  {
    if p == "" {
      assert p + a == a && p + b == b;
    } else {
      CommonPrefixLess(p[1..], a, b);
      assert (p + a)[1..] == p[1..] + a && (p + b)[1..] == p[1..] + b;
    }
  }

  /** A node with peers b and c that initiates only to c: the result measured with b is
      credited to c, and the one measured with c is dropped; list order and the order of the
      files agree here. */
  lemma ResultCreditedToWrongPeer(rb: TestResult, rc: TestResult)
    requires AllUsable([rb, rc])
    ensures TestsOf(TwoPeers(), Pod("a", true, [rb, rc])) == [Test("a", "c", rb)]
    ensures !CreditedRightly(TwoPeers(), "a", ["b", "c"])
    ensures ShortNames(Peers(TwoPeers(), "a")) == ["b", "c"]
    ensures FileNames(["b", "c"]) == Sorted(PeerFiles(TwoPeers(), "a"))
  {
    OnlyToC();
    FilesOfTwo();
    NamesOfTwo();
    UsableAll([rb, rc]);
    hide TestedPeers, Usable, ShortName, AllUsable, FileNames, ShortNames, Sorted, Elements;
  }
}
