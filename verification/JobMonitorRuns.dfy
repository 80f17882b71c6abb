/** Runs of the job monitor that show where its promises stop: a job that is queued again
    after it was finished, a pass with orphans that reports completion too early, a status
    that hides a failure, and a retirable worker that still claims. */
module JobMonitorRuns {
  import opened Text
  import opened JobStore
  import opened Marking
  import opened JobMonitor
  import opened JobCompletion
  import opened JobRetirement

  /** A free worker checks and claims the next job. */
  lemma Claims(fleet: Fleet, s: State, r: State, w: Pod) returns (t: State)
    requires Reaches(fleet, s, r) && w in r.workers && r.workers[w].Idle? && w !in r.store.retiring
    requires r.store.queue != []
    ensures Reaches(fleet, s, t)
    ensures t == r.(store := ClaimScript(r.store, w), workers := r.workers[w := Running(r.store.queue[0])])
  {
    var c := Apply(fleet, r, Check(w));
    Then(fleet, s, r, Check(w));
    t := Apply(fleet, c, Claim(w));
    Then(fleet, s, c, Claim(w));
    assert t.workers == r.workers[w := Running(r.store.queue[0])];
  }

  /** What the four opening reads of a pass remember when nothing happens between them. */
  function Opened(r: State): Locals {
    var orphans := Orphans(r.store.progress, r.store.owners);
    r.l.(remain := |r.store.queue|, failed := r.store.failed, clean := true, inProgress := r.store.progress,
         owners := r.store.owners, orphans := orphans, hadOrphans := orphans != [])
  }

  /** The reads that open a pass. */
  lemma Opens(fleet: Fleet, s: State, r: State) returns (t: State)
    requires Reaches(fleet, s, r) && r.pc.ReadQueue?
    ensures Reaches(fleet, s, t)
    ensures t == r.(pc := if Opened(r).orphans == [] then ReadRetiring else OrphanLrem, l := Opened(r))
  {
    hide Orphans, ToMark, ViewOf, Sorted, Active;
    var e := Monitor({}, {}, false, []);
    var a := Apply(fleet, r, e);
    var b := Apply(fleet, a, e);
    var c := Apply(fleet, b, e);
    Then(fleet, s, r, e);
    Then(fleet, s, a, e);
    Then(fleet, s, b, e);
    t := Apply(fleet, c, e);
    Then(fleet, s, c, e);
    hide Reaches;
  }

  lemma NoElements(q: seq<Pod>)
    ensures Elements(q) == {} ==> q == []
  {
    if q != [] { assert q[0] in Elements(q); }
  }

  lemma NothingToMark(fleet: Fleet, v: View)
    requires v.resolves == {}
    ensures ToMark(fleet, v) == []
  {
    MarksOnlyIdle(fleet, v);
    var q := ToMark(fleet, v);
    NoElements(q);
  }

  predicate Stuck(l: Locals, down: set<Pod>) { Active(l) != {} && Active(l) <= down }

  function AfterReading(r: State, down: set<Pod>): Locals {
    r.l.(retiring := r.store.retiring, toMark := [], allDown := Stuck(r.l, down))
  }

  lemma ReadsLocals(fleet: Fleet, r: State, down: set<Pod>)
    requires r.pc.ReadRetiring?
    ensures MonitorLocals(fleet, r, Monitor(down, {}, false, [])) == AfterReading(r, down)
  {
    hide ToMark, Active, Sorted, Orphans, ViewOf;
    var v := ViewOf(r.l, down, r.store.retiring, {});
    assert v.resolves == {} by { NoneResolve(r, down); }
    NothingToMark(fleet, v);
  }

  lemma NoneResolve(r: State, down: set<Pod>)
    ensures ViewOf(r.l, down, r.store.retiring, {}).resolves == {}
  {
  }

  lemma ReadsMarks(fleet: Fleet, r: State, down: set<Pod>)
    requires r.pc.ReadRetiring?
    ensures Apply(fleet, r, Monitor(down, {}, false, [])) == r.(pc := Mark, l := AfterReading(r, down))
  {
    ReadsLocals(fleet, r, down);
    ReadsOnly(r);
    hide MonitorLocals, MonitorStore, AfterReading;
  }

  lemma NoOrder(keys: set<Job>)
    ensures Listing(keys, []) == Sorted(keys)
  {
    if keys == {} { assert Sorted(keys) == []; }
  }

  function AfterMarking(r: State): Locals { r.l.(toDrop := Sorted(r.l.owners.Keys)) }

  lemma MarksNoneLocals(fleet: Fleet, r: State, down: set<Pod>)
    requires r.pc.Mark?
    ensures MonitorLocals(fleet, r, Monitor(down, {}, false, [])) == AfterMarking(r)
  {
    NoOrder(r.l.owners.Keys);
    hide Sorted, ToMark, ViewOf, Orphans, Listing, Active;
  }

  lemma MarksNone(fleet: Fleet, r: State, down: set<Pod>)
    requires r.pc.Mark? && r.l.toMark == []
    ensures Apply(fleet, r, Monitor(down, {}, false, []))
      == r.(pc := if r.l.allDown && r.l.inProgress != [] then RetryTest else Publish, l := AfterMarking(r))
  {
    hide MonitorLocals, Sorted, Active;
    MarksNoneLocals(fleet, r, down);
    assert MonitorStore(r) == r.store by { assert r.store.retiring + Elements(r.l.toMark) == r.store.retiring; }
    assert r.marked + (map w | w in r.l.toMark :: r.pass) == r.marked;
    hide MonitorStore;
  }

  /** The marking phase when no pod resolves: nothing is marked. */
  lemma MarksNothing(fleet: Fleet, s: State, r: State, down: set<Pod>) returns (t: State)
    requires Reaches(fleet, s, r) && r.pc.ReadRetiring?
    ensures Reaches(fleet, s, t)
    ensures t == r.(pc := if Stuck(r.l, down) && r.l.inProgress != [] then RetryTest else Publish,
                    l := AfterReading(r, down).(toDrop := Sorted(r.l.owners.Keys)))
  {
    var e := Monitor(down, {}, false, []);
    hide Apply, Sorted, Stuck, Reaches;
    var a := Apply(fleet, r, e);
    Then(fleet, s, r, e);
    ReadsMarks(fleet, r, down);
    t := Apply(fleet, a, e);
    Then(fleet, s, a, e);
    MarksNone(fleet, a, down);
  }

  function OneJob(): Job { "63/64" }

  /** With its only owner down for good in the monitor's eyes, the job goes back to the
      queue while its owner record still stands. */
  lemma Retries(fleet: Fleet, s: State, w: Pod) returns (t: State)
    requires s == Start([OneJob()], s.workers.Keys) && w in s.workers
    ensures Reaches(fleet, s, t)
    ensures t.pc.RetryTest? && t.store == Store([OneJob()], [], {}, {}, map[OneJob() := w], {})
    ensures t.workers == s.workers[w := Running(OneJob())] && t.l.toDrop == [OneJob()] && t.l.orphans == []
  {
    Begins(fleet, s);
    var a := Claims(fleet, s, s, w);
    assert a.store == Store([], [OneJob()], {}, {}, map[OneJob() := w], {});
    assert Orphans(a.store.progress, a.store.owners) == [] by { assert [OneJob()][1..] == []; }
    var b := Opens(fleet, s, a);
    assert Active(b.l) == {w};
    assert b.l.owners.Keys == {OneJob()};
    hide Apply, Active, Sorted;
    var c := MarksNothing(fleet, s, b, {w});
    t := RetriesOne(fleet, s, c, OneJob());
    SortedOne(OneJob());
  }

  lemma RetriesOne(fleet: Fleet, s: State, r: State, job: Job) returns (t: State)
    requires Reaches(fleet, s, r) && r.pc.RetryTest? && r.store.queue == [] && r.store.progress == [job]
    ensures Reaches(fleet, s, t) && t == r.(store := r.store.(queue := [job], progress := []))
  {
    hide Sorted, ViewOf, Active, ToMark, Orphans;
    var e := Monitor({}, {}, false, []);
    var a := Apply(fleet, r, e);
    Then(fleet, s, r, e);
    t := Apply(fleet, a, e);
    Then(fleet, s, a, e);
    assert [job] + [] == [job] && [job][..0] == [];
  }

  lemma SortedOne(x: string)
    ensures Sorted({x}) == [x]
  {
    var q := Sorted({x});
    SortedNoDup({x});
    assert Elements(q) == {x};
    NoDupSize(q);
  }

  /** The owner was alive after all: it finishes a job that is queued again, so the job is
      in two places and will be run once more. */
  lemma RetryDoublesFinish(fleet: Fleet, w: Pod)
    ensures exists r :: Reaches(fleet, Start([OneJob()], {w}), r) && Places(r, OneJob()) == 2
  {
    var s := Start([OneJob()], {w});
    assert s.workers.Keys == {w};
    var t := Retries(fleet, s, w);
    var r := Apply(fleet, t, Finish(w, true));
    Then(fleet, s, t, Finish(w, true));
    assert OneJob() in r.store.succeeded && r.store.queue == [OneJob()];
    assert Places(r, OneJob()) == 2;
  }

  /** A pass that finds the job without an owner puts it back into the queue. */
  lemma Requeues(fleet: Fleet, s: State, r: State, job: Job) returns (t: State)
    requires Reaches(fleet, s, r) && r.pc.ReadQueue?
    requires r.store.queue == [] && r.store.progress == [job] && r.store.owners == map[]
    ensures Reaches(fleet, s, t)
    ensures t.pc.RereadProgress? && t.store == r.store.(queue := [job], progress := [])
    ensures t.workers == r.workers && t.l.hadOrphans
  {
    assert Orphans([job], map[]) == [job] by { assert Orphans([job][1..], map[]) == []; }
    var c := Opens(fleet, s, r);
    t := RequeuesOrphan(fleet, s, c, job);
  }

  lemma RequeuesOrphan(fleet: Fleet, s: State, r: State, job: Job) returns (t: State)
    requires Reaches(fleet, s, r) && r.pc.OrphanLrem? && r.l.orphans == [job] && r.l.hadOrphans
    requires r.store.queue == [] && r.store.progress == [job] && r.store.owners == map[]
    ensures Reaches(fleet, s, t)
    ensures t == r.(pc := RereadProgress, store := r.store.(queue := [job], progress := []),
                    l := r.l.(orphans := []))
  {
    var e := Monitor({}, {}, false, []);
    var a, b := Apply(fleet, r, e), Apply(fleet, Apply(fleet, r, e), e);
    Then(fleet, s, r, e);
    Then(fleet, s, a, e);
    t := Apply(fleet, b, e);
    Then(fleet, s, b, e);
    assert [job][..0] == [] && [job][1..] == [];
    assert r.store.owners - {job} == r.store.owners;
  }

  /** After a retry the owner records of the snapshot are dropped one by one; if a claim of
      the requeued job comes first, its fresh record is dropped and the job looks orphaned. */
  lemma Orphaned(fleet: Fleet, s: State, w: Pod, v: Pod) returns (t: State)
    requires s == Start([OneJob()], {w, v}) && w != v
    ensures Reaches(fleet, s, t)
    ensures t.pc.ReadQueue? && t.store == Store([], [OneJob()], {}, {}, map[], {})
    ensures t.workers == map[w := Idle, v := Running(OneJob())]
  {
    assert s.workers.Keys == {w, v};
    hide Apply, Reaches, ClaimScript, Hdel;
    var a := Retries(fleet, s, w);
    var c := CrashAndTest(fleet, s, a, w);
    assert v in c.workers && c.workers[v].Idle?;
    var d := Claims(fleet, s, c, v);
    t := DropsOwner(fleet, s, d);
    ClaimedThenDropped(w, v);
    assert t.workers == map[w := Idle, v := Running(OneJob())];
  }

  lemma ClaimedThenDropped(w: Pod, v: Pod)
    ensures Hdel(ClaimScript(Store([OneJob()], [], {}, {}, map[OneJob() := w], {}), v), OneJob())
      == Store([], [OneJob()], {}, {}, map[], {})
  {
  }

  lemma CrashAndTest(fleet: Fleet, s: State, r: State, w: Pod) returns (t: State)
    requires Reaches(fleet, s, r) && r.pc.RetryTest? && r.store.progress == [] && w in r.workers
    ensures Reaches(fleet, s, t)
    ensures t == r.(pc := DropOwners, workers := r.workers[w := Idle])
  {
    hide Sorted, Orphans, ViewOf, ToMark, Active;
    var e := Monitor({}, {}, false, []);
    var a := Apply(fleet, r, Crash(w));
    Then(fleet, s, r, Crash(w));
    t := Apply(fleet, a, e);
    Then(fleet, s, a, e);
  }

  lemma DropStep(fleet: Fleet, r: State, e: Event)
    requires e.Monitor? && r.pc.DropOwners?
    ensures Apply(fleet, r, e)
      == if r.l.toDrop == [] then r.(pc := Publish)
         else r.(store := Hdel(r.store, r.l.toDrop[0]), l := r.l.(toDrop := r.l.toDrop[1..]))
  {
    hide Sorted, Orphans, ViewOf, ToMark, Active, Hdel;
  }

  lemma PublishStep(fleet: Fleet, r: State, e: Event)
    requires e.Monitor? && r.pc.Publish?
    ensures Apply(fleet, r, e)
      == r.(pc := ReadQueue, pass := r.pass + 1,
            status := Status(r.l.remain, r.l.failed, r.l.inProgress, Sorted(r.l.retiring - Active(r.l)),
                             r.l.hadOrphans, r.l.clean, r.l.settled, r.pass))
  {
    hide Sorted, Orphans, ViewOf, ToMark, Active;
  }

  lemma DropsOwner(fleet: Fleet, s: State, r: State) returns (t: State)
    requires Reaches(fleet, s, r) && r.pc.DropOwners? && |r.l.toDrop| == 1
    ensures Reaches(fleet, s, t)
    ensures t.pc.ReadQueue? && t.store == Hdel(r.store, r.l.toDrop[0]) && t.workers == r.workers
  {
    hide Apply, Reaches, Sorted, Active, Hdel;
    var e := Monitor({}, {}, false, []);
    var a, b := Apply(fleet, r, e), Apply(fleet, Apply(fleet, r, e), e);
    Then(fleet, s, r, e);
    DropStep(fleet, r, e);
    Then(fleet, s, a, e);
    DropStep(fleet, a, e);
    t := Apply(fleet, b, e);
    Then(fleet, s, b, e);
    PublishStep(fleet, b, e);
  }

  /** A pass that requeued an orphan reads the progress list before the queue: a claim in
      between hides the job from both reads, and the pass publishes that nothing is left. */
  lemma OrphanPassReportsEarly(fleet: Fleet, w: Pod, v: Pod)
    requires w != v
    ensures exists r :: (
      Reaches(fleet, Start([OneJob()], {w, v}), r)
      && LooksComplete(r.status) && r.status.hadOrphans && Finished(r.store) == {})
  {
    var s := Start([OneJob()], {w, v});
    var e := Monitor({}, {}, false, []);
    var a := Orphaned(fleet, s, w, v);
    var b := Requeues(fleet, s, a, OneJob());
    var c := Apply(fleet, b, e);
    Then(fleet, s, b, e);
    assert c == b.(pc := RereadQueue, l := b.l.(inProgress := []));
    var d := Claims(fleet, s, c, w);
    var f := Apply(fleet, d, e);
    Then(fleet, s, d, e);
    assert f == d.(pc := ReadRetiring, l := d.l.(remain := 0, settled := false, clean := d.store.failed <= d.l.failed));
    var r := PublishesUnmarked(fleet, s, f);
    assert LooksComplete(r.status) && r.status.hadOrphans;
    assert Finished(r.store) == {};
  }

  lemma PublishesUnmarked(fleet: Fleet, s: State, r: State) returns (t: State)
    requires Reaches(fleet, s, r) && r.pc.ReadRetiring? && r.l.inProgress == []
    ensures Reaches(fleet, s, t)
    ensures t.store == r.store && t.status.remain == r.l.remain && t.status.inProgress == []
    ensures t.status.hadOrphans == r.l.hadOrphans && t.status.failed == r.l.failed
  {
    hide Apply, Reaches, Sorted, Active;
    var e := Monitor({}, {}, false, []);
    var a := MarksNothing(fleet, s, r, {});
    t := Apply(fleet, a, e);
    Then(fleet, s, a, e);
    PublishStep(fleet, a, e);
  }

  lemma TwoFree(fleet: Fleet, v: View)
    requires fleet.workerCount == 2 && fleet.minUnmarked <= 1
    requires v == View({}, {}, {}, 1, Workers(fleet))
    ensures LiveBusy(v) == {} && Keep(fleet, v) == 1 && Claimable(fleet, v) == Workers(fleet)
  {
    hide UnmarkedIdle, Workers, Elements;
    IdleIs(fleet, v);
  }

  /** Of two idle workers facing one job, the pass marks one. */
  lemma MarksOneOfTwo(fleet: Fleet, v: View) returns (x: Pod)
    requires fleet.workerCount == 2 && fleet.minUnmarked <= 1
    requires v == View({}, {}, {}, 1, Workers(fleet))
    ensures x in ToMark(fleet, v) && x in Workers(fleet)
  {
    hide ToMark, UnmarkedIdle, Candidates, Keep, LiveBusy, Claimable, Workers;
    MarkingKeepsFloor(fleet, v);
    MarksOnlyIdle(fleet, v);
    WorkersAre(fleet);
    TwoFree(fleet, v);
    var q := ToMark(fleet, v);
    assert q == [] ==> Workers(fleet) - Elements(q) == Workers(fleet);
    x := q[0];
    assert x in Elements(q);
  }

  lemma NoOwnersView(l: Locals, down: set<Pod>, resolves: set<Pod>)
    requires l.owners == map[]
    ensures Active(l) == {}
    ensures ViewOf(l, down, {}, resolves) == View({}, {}, {}, l.remain + |l.inProgress|, resolves)
  {
  }

  lemma ReadsView(fleet: Fleet, r: State, e: Event)
    requires e.Monitor? && r.pc.ReadRetiring? && r.l.owners == map[] && r.store.retiring == {}
    ensures var v, t := View({}, {}, {}, r.l.remain + |r.l.inProgress|, e.resolves), Apply(fleet, r, e);
      && t == r.(pc := Mark, l := t.l)
      && t.l == r.l.(retiring := {}, toMark := ToMark(fleet, v), allDown := false)
  {
    hide ToMark, Sorted, Orphans, Active, ViewOf;
    NoOwnersView(r.l, e.down, e.resolves);
    ReadsOnly(r);
    hide MonitorStore;
  }

  lemma MarksFree(fleet: Fleet, r: State, e: Event)
    requires e.Monitor? && r.pc.Mark? && !r.l.allDown
    ensures var t := Apply(fleet, r, e);
      && t.pc.Publish? && t.l == r.l.(toDrop := t.l.toDrop) && t.workers == r.workers
      && t.store == r.store.(retiring := r.store.retiring + Elements(r.l.toMark))
  {
    hide ToMark, Sorted, Orphans, ViewOf, Active, Elements;
  }

  /** A first pass over a waiting job while every worker has passed its check marks one of
      the workers. */
  lemma FirstPass(fleet: Fleet, s: State, r: State) returns (t: State, x: Pod)
    requires fleet.workerCount == 2 && fleet.minUnmarked <= 1
    requires Reaches(fleet, s, r) && r.pc.ReadQueue? && r.store == Store([OneJob()], [], {}, {}, map[], {})
    ensures Reaches(fleet, s, t) && t.pc.ReadQueue? && t.workers == r.workers
    ensures t.store == r.store.(retiring := t.store.retiring)
    ensures x in Workers(fleet) && x in t.store.retiring
  {
    var e := Monitor({}, Workers(fleet), false, []);
    hide Apply, Reaches, Sorted, Active, Workers, ToMark;
    var a := Opens(fleet, s, r);
    var b := Apply(fleet, a, e);
    Then(fleet, s, a, e);
    ReadsView(fleet, a, e);
    x := MarksOneOfTwo(fleet, View({}, {}, {}, 1, Workers(fleet)));
    var c := Apply(fleet, b, e);
    Then(fleet, s, b, e);
    MarksFree(fleet, b, e);
    t := Apply(fleet, c, e);
    Then(fleet, s, c, e);
    PublishStep(fleet, c, e);
  }

  /** The second pass finds the marked workers without a job and publishes them. */
  lemma SecondPass(fleet: Fleet, s: State, r: State) returns (t: State)
    requires Reaches(fleet, s, r) && r.pc.ReadQueue?
    requires r.store.progress == [] && r.store.owners == map[]
    ensures Reaches(fleet, s, t) && t.workers == r.workers && t.store == r.store
    ensures forall x :: x in r.store.retiring ==> x in t.status.retirable
  {
    var e := Monitor({}, {}, false, []);
    hide Apply, Reaches, Sorted;
    var a := Opens(fleet, s, r);
    var b := MarksNothing(fleet, s, a, {});
    t := Apply(fleet, b, e);
    Then(fleet, s, b, e);
    PublishStep(fleet, b, e);
  }

  /** Without the timing assumption retirement is not safe: a worker that passed its check
      before it was marked can own a job after it was published as retirable. */
  lemma SlowClaimOwnsAfterRetirable(fleet: Fleet)
    requires fleet.workerCount == 2 && fleet.minUnmarked <= 1
    ensures exists r, x :: (
      Reaches(fleet, Start([OneJob()], Workers(fleet)), r) && x in r.status.retirable && Owns(r, x))
  {
    var s := Start([OneJob()], Workers(fleet));
    var p, q := WorkerName(fleet, 0), WorkerName(fleet, 1);
    assert Workers(fleet) == {p, q};
    WorkerNamesDistinct(fleet, 0, 1);
    Begins(fleet, s);
    var a := Apply(fleet, s, Check(p));
    Then(fleet, s, s, Check(p));
    var b := Apply(fleet, a, Check(q));
    Then(fleet, s, a, Check(q));
    assert b == s.(workers := map[p := Checked, q := Checked]);
    var c, x := FirstPass(fleet, s, b);
    var d := SecondPass(fleet, s, c);
    var r := Apply(fleet, d, Claim(x));
    Then(fleet, s, d, Claim(x));
    assert r.store.owners[OneJob()] == x;
    assert Owns(r, x) && x in r.status.retirable;
  }

  /** The failed set is read before the progress list: a job that fails in between is named
      by neither, and the pass publishes a complete status without a failure although no job
      succeeded. */
  lemma FailureBetweenReadsIsHidden(fleet: Fleet, w: Pod)
    ensures exists r :: (
      Reaches(fleet, Start([OneJob()], {w}), r)
      && r.store.failed == {(OneJob(), w)} && r.store.succeeded == {}
      && LooksSuccessful(r.status) && !r.status.hadOrphans)
  {
    var s, e := Start([OneJob()], {w}), Monitor({}, {}, false, []);
    Begins(fleet, s);
    var a := Claims(fleet, s, s, w);
    assert a.store == Store([], [OneJob()], {}, {}, map[OneJob() := w], {});
    var b := FailsBetween(fleet, s, a, w);
    var r := PublishesUnmarked(fleet, s, b);
    assert LooksSuccessful(r.status);
  }

  lemma FailsBetween(fleet: Fleet, s: State, r: State, w: Pod) returns (t: State)
    requires Reaches(fleet, s, r) && r.pc.ReadQueue?
    requires r.store == Store([], [OneJob()], {}, {}, map[OneJob() := w], {})
    requires w in r.workers && r.workers[w] == Running(OneJob())
    ensures t.store.succeeded == {} && t.store.failed == {(OneJob(), w)} && t.l.failed == {}
    ensures Reaches(fleet, s, t) && t.pc.ReadRetiring? && LooksDone(t.l) && !t.l.hadOrphans
  {
    hide ToMark, ViewOf, Sorted, Active;
    var e := Monitor({}, {}, false, []);
    var a := Apply(fleet, r, e);
    var b := Apply(fleet, a, e);
    Then(fleet, s, r, e);
    Then(fleet, s, a, e);
    var c := Apply(fleet, b, Finish(w, false));
    Then(fleet, s, b, Finish(w, false));
    assert c.store.failed == {(OneJob(), w)} && c.store.progress == [] by {
      assert [OneJob()][..0] == [];
    }
    hide Reaches;
    var d := Apply(fleet, c, e);
    Then(fleet, s, c, e);
    t := Apply(fleet, d, e);
    Then(fleet, s, d, e);
    assert t.l.orphans == [];
  }
}
