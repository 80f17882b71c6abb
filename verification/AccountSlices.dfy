/** How the block-time test splits the genesis accounts over the nodes that generate load. */
module AccountSlices {
  import opened Text
  import opened Thresholds

  /** name stands for everything else in a core set. */
  datatype Node = Node(name: string, tier1: bool, generatesLoad: bool)

  datatype Mode = Mode(mixed: bool, classicTxRate: Option<int>, sorobanTxRate: Option<int>)

  /** The transactions a node prepares, and the accounts it signs them for. */
  datatype Slice = Slice(txs: int, accounts: int, offset: int)

  datatype Result<T> = Success(value: T) | DivideByZero

  const SMALL_NETWORK := 10

  function Max(a: int, b: int): int { if a >= b then a else b }

  function Min(a: int, b: int): int { if a <= b then a else b }

  function Default(o: Option<int>): int { if o.Some? then o.value else 0 }

  function Filter(p: Node -> bool, q: seq<Node>): (r: seq<Node>)
    ensures forall x :: x in r <==> x in q && p(x)
  {
    if q == [] then [] else (if p(q[0]) then [q[0]] else []) + Filter(p, q[1..])
  }

  function Generates(n: Node): bool { n.generatesLoad }

  function IsTier1(n: Node): bool { n.tier1 }

  function LoadGenNodes(all: seq<Node>): seq<Node> {
    if Filter(Generates, all) != [] then Filter(Generates, all)
    else if |all| > SMALL_NETWORK then Filter(IsTier1, all)
    else all
  }

  function RequestedCount(mode: Mode): int { Max(Default(mode.classicTxRate), Default(mode.sorobanTxRate)) }

  function ActiveLoadGenNodes(all: seq<Node>, mode: Mode): seq<Node> {
    var lg := LoadGenNodes(all);
    if mode.mixed then lg[..Min(|lg|, Max(1, RequestedCount(mode)))] else lg
  }

  function PartitionCount(all: seq<Node>, mode: Mode): nat {
    if mode.mixed then |ActiveLoadGenNodes(all, mode)| else |LoadGenNodes(all)|
  }

  /** How many load generators stand before a position in the list. */
  function Rank(all: seq<Node>, lg: seq<Node>, i: nat): nat
    requires i <= |all|
  {
    if i == 0 then 0 else Rank(all, lg, i - 1) + if all[i - 1] in lg then 1 else 0
  }

  function SliceOf(all: seq<Node>, mode: Mode, accounts: int, txs: int, i: nat): Slice
    requires i < |all| && PartitionCount(all, mode) > 0
  {
    var lg, count := LoadGenNodes(all), PartitionCount(all, mode);
    var perNode := Quotient(accounts, count);
    if all[i] !in lg then Slice(0, 1, 0)
    else Slice(txs, perNode, perNode * if mode.mixed then Rank(all, lg, i) % count else Rank(all, lg, i))
  }

  method Partition(all: seq<Node>, mode: Mode, accounts: int, txs: int) returns (r: Result<seq<Slice>>)
    ensures r.DivideByZero? <==> LoadGenNodes(all) == []
    ensures r.Success? ==> |r.value| == |all|
    ensures r.Success? ==> forall i :: 0 <= i < |all| ==> r.value[i] == SliceOf(all, mode, accounts, txs, i)
  {
    var lg := LoadGenNodes(all);
    var active := ActiveLoadGenNodes(all, mode);
    var count := if mode.mixed then |active| else |lg|;
    if count == 0 { return DivideByZero; }
    var perNode := Quotient(accounts, count);
    var j := 0;
    var slices: seq<Slice> := [];
    for k := 0 to |all|
      invariant |slices| == k && j == Rank(all, lg, k)
      invariant forall i :: 0 <= i < k ==> slices[i] == SliceOf(all, mode, accounts, txs, i)
    {
      if all[k] in lg {
        var i := if mode.mixed then j % count else j;
        j := j + 1;
        slices := slices + [Slice(txs, perNode, perNode * i)];
      } else {
        slices := slices + [Slice(0, 1, 0)];
      }
    }
    r := Success(slices);
  }

  // ----- who generates load -----

  lemma FilterNone(p: Node -> bool, q: seq<Node>)
    ensures Filter(p, q) == [] <==> forall n :: n in q ==> !p(n)
  {
    if Filter(p, q) != [] {
      assert Filter(p, q)[0] in Filter(p, q);
    } else {
      assert forall n :: n in q && p(n) ==> n in Filter(p, q);
    }
  }

  /** The load generators are the nodes that are to generate load if there are any; without
      any they are the tier-1 nodes of a network of more than ten nodes, or all the nodes of
      a smaller one. */
  lemma LoadGenNodesAre(all: seq<Node>, n: Node)
    ensures n in LoadGenNodes(all) <==>
      n in all
      && (if exists m :: m in all && m.generatesLoad then n.generatesLoad
          else if |all| > 10 then n.tier1
          else true)
  {
    FilterNone(Generates, all);
    assert forall m :: Generates(m) == m.generatesLoad && IsTier1(m) == m.tier1;
  }

  /** In mixed mode as many of the first load generators are active as the larger of the two
      rates says, an absent one counting as zero, but at least one, and no more than there
      are; in the other modes all are. */
  lemma ActiveLoadGenNodesAre(all: seq<Node>, mode: Mode)
    ensures var lg, active := LoadGenNodes(all), ActiveLoadGenNodes(all, mode);
      && active <= lg
      && (!mode.mixed || |active| == |lg| ==> active == lg)
      && (mode.mixed && lg != [] ==>
            && |active| >= 1
            && (|active| == |lg| || |active| == 1 || Some(|active|) in {mode.classicTxRate, mode.sorobanTxRate})
            && (forall rate :: Some(rate) in {mode.classicTxRate, mode.sorobanTxRate} ==>
                  |active| >= rate || |active| == |lg|)
            && (|active| > 1 ==>
                  exists rate :: Some(rate) in {mode.classicTxRate, mode.sorobanTxRate} && |active| <= rate))
  {
    hide LoadGenNodes;
    var active := ActiveLoadGenNodes(all, mode);
    if mode.mixed && |active| > 1 {
      assert Some(RequestedCount(mode)) in {mode.classicTxRate, mode.sorobanTxRate} && |active| <= RequestedCount(mode);
    }
  }

  /** A load generator prepares all the transactions for its even share of the accounts; any
      other node prepares none, for one account. */
  lemma SliceSizes(all: seq<Node>, mode: Mode, accounts: nat, txs: int, i: nat)
    requires i < |all| && LoadGenNodes(all) != []
    ensures |ActiveLoadGenNodes(all, mode)| > 0 && PartitionCount(all, mode) > 0
    ensures var s := SliceOf(all, mode, accounts, txs, i);
      if all[i] in LoadGenNodes(all) then s.txs == txs && s.accounts == accounts / |ActiveLoadGenNodes(all, mode)|
      else s == Slice(0, 1, 0)
  {
    hide LoadGenNodes, Rank;
  }

  // ----- ranks are positions among the load generators -----

  lemma {:induction false} FilterAppend(p: Node -> bool, a: seq<Node>, b: seq<Node>)
    ensures Filter(p, a + b) == Filter(p, a) + Filter(p, b)
  {
    if a == [] {
      assert a + b == b;
    } else {
      assert (a + b)[1..] == a[1..] + b;
      FilterAppend(p, a[1..], b);
    }
  }

  /** The load generators are chosen by a test on the node alone. */
  function Chosen(all: seq<Node>): Node -> bool {
    if Filter(Generates, all) != [] then Generates
    else if |all| > SMALL_NETWORK then IsTier1
    else (n: Node) => true
  }

  lemma {:induction false} FilterAll(q: seq<Node>)
    ensures Filter((n: Node) => true, q) == q
  {
    if q != [] { FilterAll(q[1..]); }
  }

  lemma ChosenIs(all: seq<Node>)
    ensures LoadGenNodes(all) == Filter(Chosen(all), all)
  {
    FilterAll(all);
  }

  lemma {:induction false} RankIs(all: seq<Node>, lg: seq<Node>, p: Node -> bool, i: nat)
    requires i <= |all| && lg == Filter(p, all)
    ensures Rank(all, lg, i) == |Filter(p, all[..i])|
  {
    if i > 0 {
      RankIs(all, lg, p, i - 1);
      assert all[..i] == all[..i - 1] + [all[i - 1]];
      FilterAppend(p, all[..i - 1], [all[i - 1]]);
      assert all[i - 1] in all;
      assert Filter(p, [all[i - 1]]) == if p(all[i - 1]) then [all[i - 1]] else [] by {
        assert [all[i - 1]][1..] == [];
      }
    }
  }

  /** The rank of a load generator is its index in the list of load generators. */
  lemma RankIndexes(all: seq<Node>, i: nat)
    requires i < |all| && all[i] in LoadGenNodes(all)
    ensures var lg := LoadGenNodes(all); Rank(all, lg, i) < |lg| && lg[Rank(all, lg, i)] == all[i]
  {
    var lg, p := LoadGenNodes(all), Chosen(all);
    ChosenIs(all);
    RankIs(all, lg, p, i);
    var n := all[i];
    assert all == all[..i] + ([n] + all[i + 1..]);
    FilterAppend(p, all[..i], [n] + all[i + 1..]);
    assert ([n] + all[i + 1..])[1..] == all[i + 1..];
    assert lg == Filter(p, all[..i]) + ([n] + Filter(p, all[i + 1..]));
  }

  lemma {:induction false} RankGrows(all: seq<Node>, lg: seq<Node>, i: nat, k: nat)
    requires i < k <= |all| && all[i] in lg
    ensures Rank(all, lg, i) < Rank(all, lg, k)
    decreases k
  {
    if k > i + 1 { RankGrows(all, lg, i, k - 1); }
  }

  // ----- slices -----

  /** The active nodes are the load generators of the first ranks. */
  predicate Active(all: seq<Node>, mode: Mode, i: nat)
    requires i < |all|
  {
    all[i] in LoadGenNodes(all) && Rank(all, LoadGenNodes(all), i) < |ActiveLoadGenNodes(all, mode)|
  }

  lemma ActiveIsFirst(all: seq<Node>, mode: Mode, i: nat)
    requires i < |all| && Active(all, mode, i)
    ensures ActiveLoadGenNodes(all, mode)[Rank(all, LoadGenNodes(all), i)] == all[i]
  {
    RankIndexes(all, i);
  }

  /** Ledger accounts offset .. offset + accounts - 1 of a slice. */
  predicate Holds(s: Slice, account: int) { s.offset <= account < s.offset + s.accounts }

  /** The slice of one share. */
  function ShareSlice(txs: int, perNode: int, share: int): Slice { Slice(txs, perNode, perNode * share) }

  lemma SharesPart(txs: int, perNode: nat, x: nat, y: nat, a: int)
    requires x < y
    ensures !(Holds(ShareSlice(txs, perNode, x), a) && Holds(ShareSlice(txs, perNode, y), a))
  {
    SharesStep(perNode, x, y);
  }

  lemma SharesStep(perNode: nat, x: nat, y: nat)
    requires x < y
    ensures perNode * x + perNode <= perNode * y
  {
    MulMonotone(x + 1, y, perNode);
  }

  /** Which share of the accounts a load generator signs for. */
  function Share(all: seq<Node>, mode: Mode, i: nat): nat
    requires i < |all| && PartitionCount(all, mode) > 0
  {
    var rank := Rank(all, LoadGenNodes(all), i);
    if mode.mixed then rank % PartitionCount(all, mode) else rank
  }

  lemma ActiveCount(all: seq<Node>, mode: Mode)
    ensures |ActiveLoadGenNodes(all, mode)| == PartitionCount(all, mode)
  {
  }

  lemma ModSmall(r: nat, n: nat)
    requires n > 0
    ensures r % n < n && (r < n ==> r % n == r)
  {
  }

  lemma ShareInRange(all: seq<Node>, mode: Mode, i: nat)
    requires i < |all| && all[i] in LoadGenNodes(all) && PartitionCount(all, mode) > 0
    ensures Share(all, mode, i) < PartitionCount(all, mode)
    ensures Active(all, mode, i) ==> Share(all, mode, i) == Rank(all, LoadGenNodes(all), i)
  {
    RankIndexes(all, i);
    ActiveCount(all, mode);
    ModSmall(Rank(all, LoadGenNodes(all), i), PartitionCount(all, mode));
    hide ActiveLoadGenNodes, LoadGenNodes, Rank;
  }

  lemma SliceIs(all: seq<Node>, mode: Mode, accounts: nat, txs: int, i: nat)
    requires i < |all| && all[i] in LoadGenNodes(all) && PartitionCount(all, mode) > 0
    ensures var perNode := accounts / PartitionCount(all, mode);
      SliceOf(all, mode, accounts, txs, i) == ShareSlice(txs, perNode, Share(all, mode, i))
  {
    hide PartitionCount, LoadGenNodes, Rank;
  }

  /** A load generator's slice lies inside the accounts. */
  lemma SliceInRange(all: seq<Node>, mode: Mode, accounts: nat, txs: int, i: nat)
    requires i < |all| && all[i] in LoadGenNodes(all) && PartitionCount(all, mode) > 0
    ensures var s := SliceOf(all, mode, accounts, txs, i); 0 <= s.offset && s.offset + s.accounts <= accounts
  {
    ShareInRange(all, mode, i);
    SliceIs(all, mode, accounts, txs, i);
    hide SliceOf, Share, PartitionCount, LoadGenNodes;
    var count := PartitionCount(all, mode);
    InShare(accounts, count, Share(all, mode, i));
  }

  lemma InShare(accounts: nat, count: nat, k: nat)
    requires k < count
    ensures 0 <= (accounts / count) * k && (accounts / count) * k + accounts / count <= accounts
  {
    var perNode := accounts / count;
    DivBounds(accounts, count);
    SharesStep(perNode, k, count);
    MulMonotone(0, k, perNode);
  }

  /** Two load generators sign for the same accounts if their shares agree, and otherwise
      for none in common; in mixed mode that is when their ranks agree modulo the number of
      active nodes. */
  lemma SlicesAgreeOrPart(all: seq<Node>, mode: Mode, accounts: nat, txs: int, i: nat, k: nat)
    requires i < |all| && k < |all| && all[i] in LoadGenNodes(all) && all[k] in LoadGenNodes(all)
    requires PartitionCount(all, mode) > 0
    ensures var s, t := SliceOf(all, mode, accounts, txs, i), SliceOf(all, mode, accounts, txs, k);
      if Share(all, mode, i) == Share(all, mode, k) then s == t
      else forall a :: !(Holds(s, a) && Holds(t, a))
  {
    hide SliceOf, Share, PartitionCount, LoadGenNodes, Holds, ShareSlice;
    SliceIs(all, mode, accounts, txs, i);
    SliceIs(all, mode, accounts, txs, k);
    PartAll(txs, accounts / PartitionCount(all, mode), Share(all, mode, i), Share(all, mode, k));
  }

  lemma PartAll(txs: int, perNode: nat, x: nat, y: nat)
    ensures x != y ==> forall a :: !(Holds(ShareSlice(txs, perNode, x), a) && Holds(ShareSlice(txs, perNode, y), a))
  {
    forall a | x != y ensures !(Holds(ShareSlice(txs, perNode, x), a) && Holds(ShareSlice(txs, perNode, y), a)) {
      if x < y { SharesPart(txs, perNode, x, y, a); } else { SharesPart(txs, perNode, y, x, a); }
      hide Holds, ShareSlice;
    }
  }

  /** No two active nodes sign for the same account. */
  lemma ActiveSlicesDisjoint(all: seq<Node>, mode: Mode, accounts: nat, txs: int, i: nat, k: nat, a: int)
    requires i < k < |all| && Active(all, mode, i) && Active(all, mode, k)
    ensures var s, t := SliceOf(all, mode, accounts, txs, i), SliceOf(all, mode, accounts, txs, k);
      !(Holds(s, a) && Holds(t, a))
  {
    RankGrows(all, LoadGenNodes(all), i, k);
    ShareInRange(all, mode, i);
    ShareInRange(all, mode, k);
    SlicesAgreeOrPart(all, mode, accounts, txs, i, k);
  }

  /** Every rank is taken, so the active nodes together sign for all accounts but a
      remainder smaller than their number. */
  lemma {:induction false} RankTaken(all: seq<Node>, lg: seq<Node>, n: nat, rank: nat) returns (i: nat)
    requires n <= |all| && rank < Rank(all, lg, n)
    ensures i < n && all[i] in lg && Rank(all, lg, i) == rank
  {
    if rank < Rank(all, lg, n - 1) { i := RankTaken(all, lg, n - 1, rank); } else { i := n - 1; }
  }

  lemma ActiveSlicesCover(all: seq<Node>, mode: Mode, accounts: nat, txs: int, a: nat)
    requires LoadGenNodes(all) != []
    ensures var count := PartitionCount(all, mode);
      && count > 0 && accounts - count < count * (accounts / count)
      && (a < count * (accounts / count) ==>
          exists i: nat :: i < |all| && Active(all, mode, i) && Holds(SliceOf(all, mode, accounts, txs, i), a))
  {
    var count, lg := PartitionCount(all, mode), LoadGenNodes(all);
    var perNode := accounts / count;
    DivBounds(accounts, count);
    if a < count * perNode {
      var rank := a / perNode;
      DivBounds(a, perNode);
      assert rank < count by { if rank >= count { MulMonotone(count, rank, perNode); } }
      ChosenIs(all);
      RankIs(all, lg, Chosen(all), |all|);
      assert all[..|all|] == all;
      var i := RankTaken(all, lg, |all|, rank);
      ShareInRange(all, mode, i);
      ActiveCount(all, mode);
      SliceIs(all, mode, accounts, txs, i);
      hide SliceOf, PartitionCount, LoadGenNodes, ActiveLoadGenNodes;
      assert Active(all, mode, i) && Holds(SliceOf(all, mode, accounts, txs, i), a);
    }
  }
}
