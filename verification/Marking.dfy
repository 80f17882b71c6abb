/** Which idle workers a monitor pass marks as retiring. */
module Marking {
  import opened Text
  import opened JobStore

  datatype Fleet = Fleet(prefix: string, workerCount: nat, minUnmarked: int)

  function WorkerName(fleet: Fleet, i: nat): Pod { fleet.prefix + "-" + Decimal(i) }

  lemma WorkerNamesDistinct(fleet: Fleet, i: nat, j: nat)
    requires i != j
    ensures WorkerName(fleet, i) != WorkerName(fleet, j)
  {
    DecimalValue(i);
    DecimalValue(j);
    var k := |fleet.prefix| + 1;
    assert WorkerName(fleet, i)[k..] == Decimal(i) && WorkerName(fleet, j)[k..] == Decimal(j);
  }

  function Workers(fleet: Fleet): set<Pod> { set i: nat | i < fleet.workerCount :: WorkerName(fleet, i) }

  predicate Named(fleet: Fleet, w: Pod, i: nat) { w == fleet.prefix + "-" + Decimal(i) }

  lemma WorkerIff(fleet: Fleet, w: Pod)
    ensures w in Workers(fleet) <==> exists i: nat :: i < fleet.workerCount && Named(fleet, w, i)
  {
    forall i: nat ensures Named(fleet, w, i) <==> w == WorkerName(fleet, i) {}
    hide Named, WorkerName;
  }

  lemma NextWorker(fleet: Fleet, fewer: Fleet)
    requires fleet.workerCount > 0 && fewer == fleet.(workerCount := fleet.workerCount - 1)
    ensures var name := WorkerName(fleet, fleet.workerCount - 1);
      Workers(fleet) == Workers(fewer) + {name} && name !in Workers(fewer)
  {
    var k := fleet.workerCount - 1;
    forall i: nat
      ensures WorkerName(fewer, i) == WorkerName(fleet, i)
      ensures i < k ==> WorkerName(fleet, i) != WorkerName(fleet, k)
    {
      if i < k { WorkerNamesDistinct(fleet, i, k); }
    }
    hide WorkerName;
  }

  /** The fleet has as many workers as it counts, named by the prefix, a dash and the index. */
  lemma {:induction false} WorkersAre(fleet: Fleet)
    ensures |Workers(fleet)| == fleet.workerCount
    ensures forall w :: w in Workers(fleet) <==> exists i: nat :: i < fleet.workerCount && Named(fleet, w, i)
    decreases fleet.workerCount
  {
    hide WorkerName, Named;
    forall w ensures w in Workers(fleet) <==> exists i: nat :: i < fleet.workerCount && Named(fleet, w, i) {
      WorkerIff(fleet, w);
    }
    if fleet.workerCount == 0 {
      assert Workers(fleet) == {};
    } else {
      var fewer := fleet.(workerCount := fleet.workerCount - 1);
      WorkersAre(fewer);
      NextWorker(fleet, fewer);
    }
  }

  function Existing(q: seq<Pod>, exists_: set<Pod>): (r: seq<Pod>)
    ensures |r| <= |q|
    ensures forall w :: w in r <==> w in q && w in exists_
  {
    if q == [] then []
    else (if q[0] in exists_ then [q[0]] else []) + Existing(q[1..], exists_)
  }

  /** What a pass knows: the workers that own jobs, those of them that did not answer, the
      workers already marked, the jobs not yet finished, and which pods resolve. */
  datatype View = View(active: set<Pod>, down: set<Pod>, retiring: set<Pod>, outstanding: nat,
                       resolves: set<Pod>)

  function LiveBusy(v: View): set<Pod> { v.active - v.retiring - v.down }

  function Candidates(fleet: Fleet, v: View): seq<Pod> {
    Sorted(Workers(fleet) - v.active - v.retiring)
  }

  function UnmarkedIdle(fleet: Fleet, v: View): seq<Pod> { Existing(Candidates(fleet, v), v.resolves) }

  function Max(a: int, b: int): int { if a >= b then a else b }

  function Min(a: int, b: int): int { if a <= b then a else b }

  function Keep(fleet: Fleet, v: View): int { Max(v.outstanding, fleet.minUnmarked) }

  /** q[:n] for a possibly too large n. */
  function Prefix(q: seq<Pod>, n: int): seq<Pod> { q[..Min(|q|, Max(0, n))] }

  /** The choice without the guard that saves pod lookups. */
  function Surplus(fleet: Fleet, v: View): seq<Pod> {
    var idle := UnmarkedIdle(fleet, v);
    Prefix(idle, |LiveBusy(v)| + |idle| - Keep(fleet, v))
  }

  function ToMark(fleet: Fleet, v: View): seq<Pod> {
    if |LiveBusy(v)| + |Candidates(fleet, v)| > Keep(fleet, v) then Surplus(fleet, v) else []
  }

  /** Skipping the lookups never changes the outcome. */
  lemma GuardIsHarmless(fleet: Fleet, v: View)
    ensures ToMark(fleet, v) == Surplus(fleet, v)
  {
  }

  lemma {:induction false} ExistingNoDup(q: seq<Pod>, e: set<Pod>)
    requires NoDup(q)
    ensures NoDup(Existing(q, e))
  {
    if q != [] {
      NoDupTail(q);
      ExistingNoDup(q[1..], e);
    }
  }

  /** The unmarked live workers: those that own a job and answered, and those that own none
      and resolve. */
  function Claimable(fleet: Fleet, v: View): set<Pod> {
    (v.active - v.retiring - v.down) + ((Workers(fleet) - v.active - v.retiring) * v.resolves)
  }

  lemma TakeFromIdle(busy: set<Pod>, idle: seq<Pod>, n: nat)
    requires NoDup(idle) && Elements(idle) !! busy && n <= |idle|
    ensures |busy + Elements(idle)| == |busy| + |idle|
    ensures |busy + Elements(idle) - Elements(idle[..n])| == |busy| + |idle| - n
    ensures |Elements(idle[..n])| == n
    ensures Elements(idle[..n]) <= Elements(idle)
  {
    assert idle == idle[..n] + idle[n..];
    NoDupParts(idle[..n], idle[n..]);
    NoDupSize(idle);
    NoDupSize(idle[..n]);
    NoDupSize(idle[n..]);
    hide NoDup, Elements;
    assert busy + Elements(idle) - Elements(idle[..n]) == busy + Elements(idle[n..]);
  }

  lemma IdleIs(fleet: Fleet, v: View)
    ensures var idle := UnmarkedIdle(fleet, v);
      && NoDup(idle)
      && Elements(idle) == (Workers(fleet) - v.active - v.retiring) * v.resolves
  {
    SortedNoDup(Workers(fleet) - v.active - v.retiring);
    ExistingNoDup(Candidates(fleet, v), v.resolves);
  }

  /** A pass marks no active or already marked worker and none that does not exist. */
  lemma MarksOnlyIdle(fleet: Fleet, v: View)
    ensures var marked := Elements(ToMark(fleet, v));
      marked <= Workers(fleet) * v.resolves && marked !! v.active && marked !! v.retiring
  {
    IdleIs(fleet, v);
    GuardIsHarmless(fleet, v);
    var idle := UnmarkedIdle(fleet, v);
    assert forall w :: w in ToMark(fleet, v) ==> w in idle && w in Elements(idle);
  }

  lemma {:induction false} ExistingAscending(q: seq<Pod>, e: set<Pod>)
    requires Ascending(q)
    ensures Ascending(Existing(q, e))
  {
    if q != [] {
      var rest := Existing(q[1..], e);
      assert Ascending(q[1..]) by {
        forall i, j | 0 <= i < j < |q[1..]| ensures Less(q[1..][i], q[1..][j]) {
          assert q[1..][i] == q[i + 1] && q[1..][j] == q[j + 1];
        }
      }
      ExistingAscending(q[1..], e);
      forall w | w in rest ensures Less(q[0], w) {
        assert w in q[1..];
        var k :| 0 <= k < |q[1..]| && q[1..][k] == w;
        assert q[k + 1] == w;
      }
    }
  }

  /** Of the idle workers a pass marks those whose names sort first. */
  lemma MarksFirstNames(fleet: Fleet, v: View, w: Pod, u: Pod)
    requires w in ToMark(fleet, v)
    requires u in Workers(fleet) * v.resolves && u !in v.active && u !in v.retiring && u !in ToMark(fleet, v)
    ensures Less(w, u)
  {
    assert u in UnmarkedIdle(fleet, v) by {
      IdleIs(fleet, v);
      assert u in Elements(UnmarkedIdle(fleet, v));
    }
    GuardIsHarmless(fleet, v);
    ExistingAscending(Candidates(fleet, v), v.resolves);
    var idle, marked := UnmarkedIdle(fleet, v), ToMark(fleet, v);
    hide UnmarkedIdle, Candidates, Keep, LiveBusy, Less;
    var i :| 0 <= i < |marked| && marked[i] == w;
    var j :| 0 <= j < |idle| && idle[j] == u;
    assert marked <= idle && idle[i] == w;
  }

  /** How many of the idle candidates a pass marks. */
  function MarkCount(busy: nat, idle: nat, keep: int): (n: nat)
    ensures n <= idle
  {
    Min(idle, Max(0, busy + idle - keep))
  }

  lemma ClaimableIs(fleet: Fleet, v: View)
    ensures Claimable(fleet, v) == LiveBusy(v) + Elements(UnmarkedIdle(fleet, v))
    ensures NoDup(UnmarkedIdle(fleet, v)) && Elements(UnmarkedIdle(fleet, v)) !! LiveBusy(v)
    ensures |UnmarkedIdle(fleet, v)| == |(Workers(fleet) - v.active - v.retiring) * v.resolves|
  {
    IdleIs(fleet, v);
    NoDupSize(UnmarkedIdle(fleet, v));
    hide UnmarkedIdle, Elements, NoDup;
  }

  /** How many of the idle ones a pass marks, and how many unmarked live workers that leaves. */
  lemma LeftAfterMarking(fleet: Fleet, v: View)
    ensures var busy := |v.active - v.retiring - v.down|;
      var idle := |(Workers(fleet) - v.active - v.retiring) * v.resolves|;
      var marked := Elements(ToMark(fleet, v));
      && |Claimable(fleet, v)| == busy + idle
      && |marked| == Min(idle, Max(0, busy + idle - Max(v.outstanding, fleet.minUnmarked)))
      && |Claimable(fleet, v) - marked| == busy + idle - |marked|
  {
    var busy, idle := LiveBusy(v), UnmarkedIdle(fleet, v);
    var n := MarkCount(|busy|, |idle|, Keep(fleet, v));
    GuardIsHarmless(fleet, v);
    assert ToMark(fleet, v) == idle[..n];
    ClaimableIs(fleet, v);
    hide UnmarkedIdle, ToMark, NoDup, Elements, Claimable;
    TakeFromIdle(busy, idle, n);
  }

  /** A pass leaves at least as many unmarked live workers as there are outstanding jobs, and
      at least the configured minimum, or else all of them. It marks some exactly when there
      are more than either number, besides an idle one, and then leaves exactly the larger of
      them, or those that own a job if they are more. */
  lemma MarkingKeepsFloor(fleet: Fleet, v: View)
    ensures var left, all := |Claimable(fleet, v) - Elements(ToMark(fleet, v))|, |Claimable(fleet, v)|;
      var busy := |v.active - v.retiring - v.down|;
      && (left >= v.outstanding || left == all) && (left >= fleet.minUnmarked || left == all)
      && left >= busy
      && (left < all <==> all > v.outstanding && all > fleet.minUnmarked && all > busy)
      && (left < all ==> left == v.outstanding || left == fleet.minUnmarked || left == busy)
  {
    LeftAfterMarking(fleet, v);
    hide Claimable, ToMark, UnmarkedIdle, Elements;
  }
}
