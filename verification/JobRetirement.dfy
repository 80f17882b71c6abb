/** The two-pass handshake by which the job monitor retires idle workers. */
module JobRetirement {
  import opened Text
  import opened JobStore
  import opened Marking
  import opened JobMonitor

  ghost predicate Owns(s: State, w: Pod) { w in s.store.owners.Values }

  predicate MidClaim(s: State, w: Pod) { w in s.workers && s.workers[w].Checked? }

  /** Marked, owning nothing, and not about to claim. */
  ghost predicate Retired(s: State, w: Pod) { w in s.store.retiring && !Owns(s, w) && !MidClaim(s, w) }

  /** Only a claim adds an owner. */
  lemma OwnersStep(fleet: Fleet, s: State, e: Event, j: Job)
    requires j in Apply(fleet, s, e).store.owners
    ensures var w := Apply(fleet, s, e).store.owners[j];
      || (j in s.store.owners && s.store.owners[j] == w)
      || (e == Claim(w) && MidClaim(s, w) && s.store.queue != [])
  {
    hide MonitorLocals, MonitorPc, RemoveLast, Elements;
  }

  lemma OwnsAfter(fleet: Fleet, s: State, e: Event, w: Pod)
    requires Owns(Apply(fleet, s, e), w)
    ensures Owns(s, w) || (e == Claim(w) && MidClaim(s, w) && s.store.queue != [])
  {
    hide Apply;
    var r := Apply(fleet, s, e);
    var j :| j in r.store.owners && r.store.owners[j] == w;
    OwnersStep(fleet, s, e, j);
  }

  lemma RetiringGrows(fleet: Fleet, s: State, e: Event, w: Pod)
    requires w in s.store.retiring
    ensures w in Apply(fleet, s, e).store.retiring
    ensures !MidClaim(s, w) ==> !MidClaim(Apply(fleet, s, e), w)
  {
    hide MonitorLocals, MonitorPc, RemoveLast;
  }

  /** Once retired a worker stays so, whatever happens. */
  lemma RetiredStep(fleet: Fleet, s: State, e: Event, w: Pod)
    requires Retired(s, w)
    ensures Retired(Apply(fleet, s, e), w)
  {
    hide Apply;
    RetiringGrows(fleet, s, e, w);
    if Owns(Apply(fleet, s, e), w) { OwnsAfter(fleet, s, e, w); }
  }

  lemma {:induction false} RetiredForever(fleet: Fleet, s: State, es: seq<Event>, w: Pod)
    requires Retired(s, w)
    ensures Retired(Run(fleet, s, es), w)
    decreases es
  {
    if es != [] {
      RetiredStep(fleet, s, es[0], w);
      RetiredForever(fleet, Apply(fleet, s, es[0]), es[1..], w);
    }
  }

  ghost predicate NeverOwns(fleet: Fleet, s: State, w: Pod) {
    forall es :: !Owns(Run(fleet, s, es), w)
  }

  /** The assumption about time: when a pass takes its owner snapshot, no worker marked in
      an earlier pass is still between its check and its claim. */
  ghost predicate TimelyAt(s: State, e: Event) {
    e.Monitor? && s.pc.ReadOwners? ==> forall w :: w in s.store.retiring ==> !MidClaim(s, w)
  }

  ghost predicate Timely(fleet: Fleet, s: State, es: seq<Event>)
    decreases es
  {
    es == [] || (TimelyAt(s, es[0]) && Timely(fleet, Apply(fleet, s, es[0]), es[1..]))
  }

  predicate SnapshotTaken(pc: Pc) {
    pc in {OrphanLrem, OrphanLpush, OrphanHdel, RereadProgress, RereadQueue, ReadRetiring}
  }

  predicate RetiringRead(pc: Pc) { pc in {Mark, RetryTest, RetryMove, DropOwners, Publish} }

  ghost predicate MarkedBefore(s: State, w: Pod, pass: nat) { w in s.marked && s.marked[w] < pass }

  /** What the marks say in every run: a pass publishes only workers marked before it. */
  ghost predicate MarkInv(s: State) {
    && s.marked.Keys == s.store.retiring
    && s.status.pass < s.pass
    && (forall w :: w in s.marked ==> s.marked[w] <= s.pass)
    && (!RetiringRead(s.pc) || s.pc.Mark? ==> forall w :: w in s.marked ==> MarkedBefore(s, w, s.pass))
    && (RetiringRead(s.pc) ==> forall w :: w in s.l.retiring ==> MarkedBefore(s, w, s.pass))
    && (s.pc.Mark? ==> forall w :: w in s.l.toMark ==> w !in s.store.retiring)
    && (forall w :: w in s.status.retirable ==> MarkedBefore(s, w, s.status.pass))
  }

  lemma MarkedStep(fleet: Fleet, s: State, e: Event, w: Pod)
    requires w in s.marked && (e.Monitor? && s.pc.Mark? ==> w !in s.l.toMark)
    ensures var r := Apply(fleet, s, e); w in r.marked && r.marked[w] == s.marked[w]
  {
    hide MonitorStore, MonitorPc;
    if !e.Monitor? { WorkerStep(fleet, s, e); }
  }

  /** What a step keeps about marks. */
  ghost predicate KeepsMarks(s: State, r: State) {
    forall w :: w in s.marked ==> w in r.marked && r.marked[w] == s.marked[w]
  }

  lemma MarkStep(fleet: Fleet, s: State, e: Event)
    requires MarkInv(s)
    ensures MarkInv(Apply(fleet, s, e))
  {
    var r := Apply(fleet, s, e);
    assert KeepsMarks(s, r) by {
      forall w | w in s.marked ensures w in r.marked && r.marked[w] == s.marked[w] { MarkedStep(fleet, s, e, w); }
    }
    if e.Monitor? {
      MarkMonitor(fleet, s, e, r);
    } else {
      WorkerStep(fleet, s, e);
      hide Apply;
    }
  }

  lemma MarkMonitor(fleet: Fleet, s: State, e: Event, r: State)
    requires e.Monitor? && MarkInv(s)
    requires r == MonitorStep(fleet, s, e) && KeepsMarks(s, r)
    ensures MarkInv(r)
  {
    hide ViewOf, ToMark, Sorted, Orphans, Lrem, Lpush, Lmove, Hdel, Active;
    if s.pc.ReadRetiring? {
      hide MonitorStep;
      ReadRetiringIs(fleet, s, e, r);
    } else if s.pc.Mark? {
      hide MonitorStep;
      MarkIs(fleet, s, e, r);
    } else if s.pc.Publish? {
      MarkPublish(fleet, s, e, r);
    } else {
      MarkOther(fleet, s, e, r);
    }
  }

  lemma MarkOther(fleet: Fleet, s: State, e: Event, r: State)
    requires e.Monitor? && MarkInv(s) && s.pc !in {ReadRetiring, Mark, Publish}
    requires r == MonitorStep(fleet, s, e) && KeepsMarks(s, r)
    ensures MarkInv(r)
  {
    hide ViewOf, ToMark, Sorted, Orphans, Active;
  }

  lemma StatusAtPublish(fleet: Fleet, s: State, e: Event)
    requires e.Monitor? && s.pc.Publish?
    ensures var r := Apply(fleet, s, e);
      r.status.pass == s.pass && r.status.retirable == Sorted(s.l.retiring - Active(s.l))
  {
    assert MonitorLocals(fleet, s, e) == s.l by { hide ToMark, ViewOf, Sorted, Orphans, Active; }
    hide MonitorLocals, MonitorStore, MonitorPc, Sorted, Active;
  }

  lemma StatusElse(fleet: Fleet, s: State, e: Event)
    requires !(e.Monitor? && s.pc.Publish?)
    ensures Apply(fleet, s, e).status == s.status
  {
    hide MonitorLocals, MonitorStore, MonitorPc, Sorted, Active, ClaimScript, FinishTransaction;
  }

  lemma StatusStep(fleet: Fleet, s: State, e: Event)
    ensures var r := Apply(fleet, s, e);
      if e.Monitor? && s.pc.Publish? then
        && r.status.pass == s.pass
        && Elements(r.status.retirable) == s.l.retiring - s.l.owners.Values
        && forall w :: w in r.status.retirable ==> w in s.l.retiring && w !in s.l.owners.Values
      else r.status == s.status
  {
    hide Apply, Sorted;
    if e.Monitor? && s.pc.Publish? {
      StatusAtPublish(fleet, s, e);
      SortedIsSet(s.l.retiring - Active(s.l));
    } else {
      StatusElse(fleet, s, e);
    }
  }

  lemma PublishIs(fleet: Fleet, s: State, e: Event)
    requires e.Monitor? && s.pc.Publish?
    ensures var r := Apply(fleet, s, e); r == s.(pc := ReadQueue, pass := s.pass + 1, status := r.status)
  {
    hide ViewOf, ToMark, Orphans, Sorted, Active;
    ReadsOnly(s);
    hide MonitorStore;
  }

  lemma MarkPublish(fleet: Fleet, s: State, e: Event, r: State)
    requires e.Monitor? && MarkInv(s) && s.pc.Publish? && r == Apply(fleet, s, e)
    ensures MarkInv(r)
  {
    PublishIs(fleet, s, e);
    StatusStep(fleet, s, e);
    hide Apply;
  }

  lemma {:induction false} MarkRun(fleet: Fleet, s: State, es: seq<Event>)
    requires MarkInv(s)
    ensures MarkInv(Run(fleet, s, es))
    decreases es
  {
    if es != [] {
      MarkStep(fleet, s, es[0]);
      MarkRun(fleet, Apply(fleet, s, es[0]), es[1..]);
    }
  }

  // ----- what a pass saw -----

  /** The k-th event is the owner snapshot of a pass, with what it finds in the store. */
  ghost predicate SnapshotAt(fleet: Fleet, s: State, es: seq<Event>, k: nat, pass: nat,
                             owners: map<Job, Pod>, retiring: set<Pod>)
  {
    k < |es| && es[k].Monitor?
    && var p := Run(fleet, s, es[..k]);
       p.pc.ReadOwners? && p.pass == pass && p.store.owners == owners && p.store.retiring == retiring
  }

  ghost predicate TookSnapshot(fleet: Fleet, s: State, es: seq<Event>, pass: nat,
                               owners: map<Job, Pod>, retiring: set<Pod>)
  {
    exists k: nat :: SnapshotAt(fleet, s, es, k, pass, owners, retiring)
  }

  /** At the owner snapshot of that pass the worker was marked and owned nothing. */
  ghost predicate IdleAtSnapshot(fleet: Fleet, s: State, es: seq<Event>, pass: nat, w: Pod) {
    exists k: nat, owners, retiring ::
      SnapshotAt(fleet, s, es, k, pass, owners, retiring) && w in retiring && w !in owners.Values
  }

  /** These workers are those that were marked and owned nothing at that snapshot. */
  ghost predicate IdleThen(fleet: Fleet, s: State, es: seq<Event>, pass: nat, idle: set<Pod>) {
    exists k: nat, owners, retiring ::
      SnapshotAt(fleet, s, es, k, pass, owners, retiring) && idle == retiring - owners.Values
  }

  ghost predicate SnapshotInv(fleet: Fleet, s: State, es: seq<Event>) {
    var r := Run(fleet, s, es);
    && (SnapshotTaken(r.pc) ==> TookSnapshot(fleet, s, es, r.pass, r.l.owners, r.store.retiring))
    && (RetiringRead(r.pc) ==> TookSnapshot(fleet, s, es, r.pass, r.l.owners, r.l.retiring))
    && (forall w :: w in r.status.retirable ==> IdleAtSnapshot(fleet, s, es, r.status.pass, w))
    && (r.status.pass > 0 ==> IdleThen(fleet, s, es, r.status.pass, Elements(r.status.retirable)))
  }

  lemma SnapshotStays(fleet: Fleet, s: State, es: seq<Event>, e: Event, k: nat, pass: nat,
                      owners: map<Job, Pod>, retiring: set<Pod>)
    requires SnapshotAt(fleet, s, es, k, pass, owners, retiring)
    ensures SnapshotAt(fleet, s, es + [e], k, pass, owners, retiring)
  {
    assert (es + [e])[..k] == es[..k];
  }

  lemma TookStays(fleet: Fleet, s: State, es: seq<Event>, e: Event, pass: nat,
                  owners: map<Job, Pod>, retiring: set<Pod>)
    ensures TookSnapshot(fleet, s, es, pass, owners, retiring) ==>
      TookSnapshot(fleet, s, es + [e], pass, owners, retiring)
  {
    hide SnapshotAt;
    if TookSnapshot(fleet, s, es, pass, owners, retiring) {
      var k: nat :| SnapshotAt(fleet, s, es, k, pass, owners, retiring);
      SnapshotStays(fleet, s, es, e, k, pass, owners, retiring);
    }
  }

  lemma IdleStays(fleet: Fleet, s: State, es: seq<Event>, e: Event, pass: nat, w: Pod)
    requires IdleAtSnapshot(fleet, s, es, pass, w)
    ensures IdleAtSnapshot(fleet, s, es + [e], pass, w)
  {
    hide SnapshotAt;
    var k: nat, owners, retiring :|
      SnapshotAt(fleet, s, es, k, pass, owners, retiring) && w in retiring && w !in owners.Values;
    SnapshotStays(fleet, s, es, e, k, pass, owners, retiring);
  }

  lemma IdleThenStays(fleet: Fleet, s: State, es: seq<Event>, e: Event, pass: nat, idle: set<Pod>)
    requires IdleThen(fleet, s, es, pass, idle)
    ensures IdleThen(fleet, s, es + [e], pass, idle)
  {
    hide SnapshotAt;
    var k: nat, owners, retiring :|
      SnapshotAt(fleet, s, es, k, pass, owners, retiring) && idle == retiring - owners.Values;
    SnapshotStays(fleet, s, es, e, k, pass, owners, retiring);
  }

  /** What the owner snapshot and the read of the marks remember. */
  lemma SnapshotPhase(fleet: Fleet, s: State, e: Event)
    ensures var r := Apply(fleet, s, e);
      if e.Monitor? && s.pc.ReadOwners? then
        && r.l.owners == s.store.owners && r.store.retiring == s.store.retiring && r.pass == s.pass
        && !RetiringRead(r.pc)
      else
        SnapshotTaken(r.pc) ==>
          && SnapshotTaken(s.pc)
          && r.l.owners == s.l.owners && r.store.retiring == s.store.retiring && r.pass == s.pass
  {
    hide Sorted, Orphans, ToMark, ViewOf, Active, Elements, RemoveLast;
    if !e.Monitor? { WorkerStep(fleet, s, e); }
  }

  lemma PcPhase(s: State, l: Locals, recovered: bool)
    requires RetiringRead(MonitorPc(s, l, recovered))
    ensures RetiringRead(s.pc) || s.pc.ReadRetiring?
  {
  }

  lemma LateLocals(fleet: Fleet, s: State, e: Event)
    requires e.Monitor? && RetiringRead(s.pc)
    ensures var l := MonitorLocals(fleet, s, e); l.owners == s.l.owners && l.retiring == s.l.retiring
  {
    hide Sorted, Orphans, ToMark, ViewOf, Active;
  }

  lemma ReadingLocals(fleet: Fleet, s: State, e: Event)
    requires e.Monitor? && s.pc.ReadRetiring?
    ensures var l := MonitorLocals(fleet, s, e); l.owners == s.l.owners && l.retiring == s.store.retiring
  {
    hide Sorted, Orphans, ToMark, ViewOf, Active;
  }

  lemma MarksMonitor(fleet: Fleet, s: State, e: Event)
    requires e.Monitor?
    ensures var l := MonitorLocals(fleet, s, e);
      if s.pc.ReadRetiring? then l.owners == s.l.owners && l.retiring == s.store.retiring
      else RetiringRead(MonitorPc(s, l, e.recovered)) ==>
        RetiringRead(s.pc) && l.owners == s.l.owners && l.retiring == s.l.retiring
  {
    hide MonitorLocals, MonitorPc;
    if s.pc.ReadRetiring? { ReadingLocals(fleet, s, e); }
    if RetiringRead(s.pc) { LateLocals(fleet, s, e); }
    var l := MonitorLocals(fleet, s, e);
    if RetiringRead(MonitorPc(s, l, e.recovered)) { PcPhase(s, l, e.recovered); }
  }

  lemma PassStays(fleet: Fleet, s: State, e: Event)
    ensures Apply(fleet, s, e).pass == if e.Monitor? && s.pc.Publish? then s.pass + 1 else s.pass
    ensures RetiringRead(Apply(fleet, s, e).pc) ==> !(e.Monitor? && s.pc.Publish?)
  {
    hide MonitorLocals, MonitorStore, ClaimScript, FinishTransaction, Sorted, Active;
  }

  lemma MarksPhase(fleet: Fleet, s: State, e: Event)
    ensures var r := Apply(fleet, s, e);
      if e.Monitor? && s.pc.ReadRetiring? then
        r.l.owners == s.l.owners && r.l.retiring == s.store.retiring && r.pass == s.pass
      else
        RetiringRead(r.pc) ==>
          RetiringRead(s.pc) && r.l.owners == s.l.owners && r.l.retiring == s.l.retiring && r.pass == s.pass
  {
    PassStays(fleet, s, e);
    hide Sorted, Active, MonitorStore, MonitorLocals, MonitorPc;
    if e.Monitor? { MarksMonitor(fleet, s, e); } else { WorkerStep(fleet, s, e); }
  }

  /** How a step moves between the phases of a pass. */
  lemma PhaseStep(fleet: Fleet, s: State, e: Event)
    ensures var r := Apply(fleet, s, e);
      && (SnapshotTaken(r.pc) && !(e.Monitor? && s.pc.ReadOwners?) ==>
            SnapshotTaken(s.pc) && r.l.owners == s.l.owners && r.store.retiring == s.store.retiring && r.pass == s.pass)
      && (RetiringRead(r.pc) && !(e.Monitor? && s.pc.ReadRetiring?) ==>
            RetiringRead(s.pc) && r.l.owners == s.l.owners && r.l.retiring == s.l.retiring && r.pass == s.pass)
      && (RetiringRead(r.pc) && e.Monitor? && s.pc.ReadRetiring? ==>
            r.l.owners == s.l.owners && r.l.retiring == s.store.retiring && r.pass == s.pass)
      && (e.Monitor? && s.pc.ReadOwners? ==>
            r.l.owners == s.store.owners && r.store.retiring == s.store.retiring && r.pass == s.pass
            && !RetiringRead(r.pc))
  {
    hide Apply;
    SnapshotPhase(fleet, s, e);
    MarksPhase(fleet, s, e);
  }

  lemma SnapshotStep(fleet: Fleet, s: State, es: seq<Event>, e: Event)
    requires SnapshotInv(fleet, s, es)
    ensures SnapshotInv(fleet, s, es + [e])
  {
    var p, r := Run(fleet, s, es), Run(fleet, s, es + [e]);
    RunAppend(fleet, s, es, e);
    PhaseStep(fleet, p, e);
    StatusStep(fleet, p, e);
    TookStays(fleet, s, es, e, p.pass, p.l.owners, p.store.retiring);
    TookStays(fleet, s, es, e, p.pass, p.l.owners, p.l.retiring);
    if e.Monitor? && p.pc.ReadOwners? {
      assert (es + [e])[..|es|] == es;
      assert SnapshotAt(fleet, s, es + [e], |es|, p.pass, p.store.owners, p.store.retiring);
    }
    hide Run, Apply, SnapshotAt, Start;
    forall w | w in r.status.retirable ensures IdleAtSnapshot(fleet, s, es + [e], r.status.pass, w) {
      if e.Monitor? && p.pc.Publish? {
        var k: nat :| SnapshotAt(fleet, s, es + [e], k, p.pass, p.l.owners, p.l.retiring);
      } else {
        IdleStays(fleet, s, es, e, p.status.pass, w);
      }
    }
    if e.Monitor? && p.pc.Publish? {
      var k: nat :| SnapshotAt(fleet, s, es + [e], k, p.pass, p.l.owners, p.l.retiring);
      assert IdleThen(fleet, s, es + [e], p.pass, p.l.retiring - p.l.owners.Values);
    } else if p.status.pass > 0 {
      IdleThenStays(fleet, s, es, e, p.status.pass, Elements(p.status.retirable));
    }
  }

  lemma {:induction false} SnapshotRun(jobs: seq<Job>, pods: set<Pod>, fleet: Fleet, es: seq<Event>)
    ensures SnapshotInv(fleet, Start(jobs, pods), es)
    decreases |es|
  {
    if es == [] {
      assert Run(fleet, Start(jobs, pods), []) == Start(jobs, pods);
    } else {
      var k := |es| - 1;
      SnapshotRun(jobs, pods, fleet, es[..k]);
      SnapshotStep(fleet, Start(jobs, pods), es[..k], es[k]);
      assert es == es[..k] + [es[k]];
    }
  }

  /** In every interleaving a worker that a pass publishes as retirable was marked in an
      earlier pass, and at the owner snapshot of the publishing pass it was marked already
      and owned nothing. */
  lemma RetirableWasMarked(jobs: seq<Job>, pods: set<Pod>, fleet: Fleet, es: seq<Event>, w: Pod)
    requires w in Run(fleet, Start(jobs, pods), es).status.retirable
    ensures var s := Run(fleet, Start(jobs, pods), es);
      && w in s.marked && s.marked[w] < s.status.pass && w in s.store.retiring
      && IdleAtSnapshot(fleet, Start(jobs, pods), es, s.status.pass, w)
  {
    MarkRun(fleet, Start(jobs, pods), es);
    SnapshotRun(jobs, pods, fleet, es);
  }

  /** In every interleaving a pass publishes as retirable exactly the workers that were marked
      and owned nothing at its owner snapshot. */
  lemma RetirablesAre(jobs: seq<Job>, pods: set<Pod>, fleet: Fleet, es: seq<Event>)
    ensures var s := Run(fleet, Start(jobs, pods), es);
      s.status.pass > 0 ==> IdleThen(fleet, Start(jobs, pods), es, s.status.pass, Elements(s.status.retirable))
  {
    SnapshotRun(jobs, pods, fleet, es);
  }

  // ----- never owning again -----

  /** With timely claims: whoever the snapshot does not list is retired. */
  ghost predicate RetireInv(s: State) {
    && (SnapshotTaken(s.pc) ==> forall w :: w in s.store.retiring && w !in Active(s.l) ==> Retired(s, w))
    && (RetiringRead(s.pc) ==> forall w :: w in s.l.retiring && w !in Active(s.l) ==> Retired(s, w))
    && (forall w :: w in s.status.retirable ==> Retired(s, w))
  }

  lemma RetireStep(fleet: Fleet, s: State, e: Event)
    requires RetireInv(s) && TimelyAt(s, e)
    ensures RetireInv(Apply(fleet, s, e))
  {
    var r := Apply(fleet, s, e);
    forall w | Retired(s, w) ensures Retired(r, w) { RetiredStep(fleet, s, e, w); }
    PhaseStep(fleet, s, e);
    StatusStep(fleet, s, e);
    if e.Monitor? && s.pc.ReadOwners? {
      forall w | w in r.store.retiring && w !in Active(r.l) ensures Retired(r, w) {
        assert w in s.store.retiring && !Owns(s, w) && !MidClaim(s, w);
      }
    }
    hide Apply, Retired;
  }

  lemma ReadRetiringIs(fleet: Fleet, s: State, e: Event, r: State)
    requires e.Monitor? && s.pc.ReadRetiring? && r == MonitorStep(fleet, s, e)
    ensures r == s.(pc := Mark, l := r.l) && Active(r.l) == Active(s.l) && r.l.retiring == s.store.retiring
    ensures forall w :: w in r.l.toMark ==> w !in s.store.retiring
  {
    var v := ViewOf(s.l, e.down, s.store.retiring, e.resolves);
    MarksNothingTwice(fleet, v);
    hide ToMark;
  }

  lemma MarksNothingTwice(fleet: Fleet, v: View)
    ensures forall w :: w in ToMark(fleet, v) ==> w !in v.retiring
  {
    MarksOnlyIdle(fleet, v);
    hide ToMark;
    forall w | w in ToMark(fleet, v) ensures w !in v.retiring { assert w in Elements(ToMark(fleet, v)); }
  }

  lemma MarkIs(fleet: Fleet, s: State, e: Event, r: State)
    requires e.Monitor? && s.pc.Mark? && r == MonitorStep(fleet, s, e)
    ensures r.l == s.l.(toDrop := r.l.toDrop) && r.status == s.status && r.pass == s.pass
    ensures RetiringRead(r.pc) && !r.pc.Mark?
    ensures r.marked.Keys == s.marked.Keys + Elements(s.l.toMark)
    ensures r.store.retiring == s.store.retiring + Elements(s.l.toMark)
    ensures forall w :: w in r.marked ==> r.marked[w] == s.pass || (w in s.marked && r.marked[w] == s.marked[w])
    ensures Active(r.l) == Active(s.l)
  {
    hide Sorted;
    var m := map w | w in s.l.toMark :: s.pass;
    assert r.marked == s.marked + m;
    assert m.Keys == Elements(s.l.toMark);
  }

  lemma SortedIsSet(s: set<Pod>)
    ensures forall w :: w in Sorted(s) ==> w in s
  {
  }

  lemma {:induction false} RetireRun(fleet: Fleet, s: State, es: seq<Event>)
    requires RetireInv(s) && Timely(fleet, s, es)
    ensures RetireInv(Run(fleet, s, es))
    decreases es
  {
    if es != [] {
      RetireStep(fleet, s, es[0]);
      RetireRun(fleet, Apply(fleet, s, es[0]), es[1..]);
    }
  }

  /** In every timely interleaving a worker that a pass publishes as retirable, marked in an
      earlier pass, owns no job and never owns one again, so deleting its pod interrupts no
      owner. */
  lemma RetirementIsSafe(jobs: seq<Job>, pods: set<Pod>, fleet: Fleet, es: seq<Event>, later: seq<Event>, w: Pod)
    requires Timely(fleet, Start(jobs, pods), es)
    requires w in Run(fleet, Start(jobs, pods), es).status.retirable
    ensures var s := Run(fleet, Start(jobs, pods), es);
      && w in s.marked && s.marked[w] < s.status.pass
      && !Owns(s, w) && !Owns(Run(fleet, s, later), w)
  {
    RetirableWasMarked(jobs, pods, fleet, es, w);
    RetireRun(fleet, Start(jobs, pods), es);
    RetiredForever(fleet, Run(fleet, Start(jobs, pods), es), later, w);
  }

  /** Every check is followed by the same worker's claim at once. */
  predicate ClaimsAtOnce(es: seq<Event>)
    decreases |es|
  {
    es == []
    || (if es[0].Check? then |es| > 1 && es[1] == Claim(es[0].w) && ClaimsAtOnce(es[2..]) else ClaimsAtOnce(es[1..]))
  }

  lemma {:induction false} AtOnceIsTimely(fleet: Fleet, s: State, es: seq<Event>)
    requires ClaimsAtOnce(es) && forall w :: !MidClaim(s, w)
    ensures Timely(fleet, s, es)
    decreases |es|
  {
    if es != [] {
      var r := Apply(fleet, s, es[0]);
      if es[0].Check? {
        var t := Apply(fleet, r, es[1]);
        forall v ensures !MidClaim(t, v) { CheckThenClaim(fleet, s, es[0].w, v); }
        AtOnceIsTimely(fleet, t, es[2..]);
        assert es[1..][1..] == es[2..] && es[1..][0] == es[1];
        assert Timely(fleet, r, es[1..]);
      } else {
        forall w ensures !MidClaim(r, w) { OnlyChecksBegin(fleet, s, es[0], w); }
        AtOnceIsTimely(fleet, r, es[1..]);
      }
    }
  }

  lemma OnlyChecksBegin(fleet: Fleet, s: State, e: Event, w: Pod)
    requires !e.Check? && !MidClaim(s, w)
    ensures !MidClaim(Apply(fleet, s, e), w)
  {
    hide MonitorStore, MonitorLocals, MonitorPc, ClaimScript, FinishTransaction;
  }

  lemma CheckThenClaim(fleet: Fleet, s: State, w: Pod, v: Pod)
    requires !MidClaim(s, v)
    ensures !MidClaim(Apply(fleet, Apply(fleet, s, Check(w)), Claim(w)), v)
  {
    hide ClaimScript;
    var r := Apply(fleet, s, Check(w));
    assert v != w ==> !MidClaim(r, v);
  }

  /** If every worker claims at once after its check, so that no marked worker claims, then
      retirement is safe in every interleaving. */
  lemma RetirementIsSafeAtOnce(jobs: seq<Job>, pods: set<Pod>, fleet: Fleet, es: seq<Event>, later: seq<Event>, w: Pod)
    requires ClaimsAtOnce(es)
    requires w in Run(fleet, Start(jobs, pods), es).status.retirable
    ensures var s := Run(fleet, Start(jobs, pods), es);
      && w in s.marked && s.marked[w] < s.status.pass
      && !Owns(s, w) && !Owns(Run(fleet, s, later), w)
  {
    AtOnceIsTimely(fleet, Start(jobs, pods), es);
    RetirementIsSafe(jobs, pods, fleet, es, later, w);
  }
}
