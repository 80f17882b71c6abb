/** What the shared data and the workers show after a run, told by the events of the run
    alone: who claimed, who finished, and what the monitor decided on what it saw. */
module JobHistory {
  import opened Text
  import opened JobStore
  import opened Marking
  import opened JobMonitor

  // ----- events that matter to a job -----

  /** A worker that has checked its mark claims the first job of the queue. */
  predicate Claims(s: State, e: Event, w: Pod, job: Job) {
    e == Claim(w) && w in s.workers && s.workers[w].Checked? && s.store.queue != [] && s.store.queue[0] == job
  }

  predicate Finishes(s: State, e: Event, w: Pod, job: Job, ok: bool) {
    e == Finish(w, ok) && w in s.workers && s.workers[w] == Running(job)
  }

  /** The monitor drops the owner of a job, as an orphan's or after a retry. */
  predicate Drops(s: State, e: Event, job: Job) {
    e.Monitor? && ((s.pc.OrphanHdel? && [job] <= s.l.orphans) || (s.pc.DropOwners? && [job] <= s.l.toDrop))
  }

  /** The state before the k-th event of a run. */
  ghost function StateAt(fleet: Fleet, s: State, es: seq<Event>, k: nat): State
    requires k <= |es|
  {
    Run(fleet, s, es[..k])
  }

  ghost predicate ClaimedAt(fleet: Fleet, s: State, es: seq<Event>, k: nat, w: Pod, job: Job) {
    k < |es| && Claims(StateAt(fleet, s, es, k), es[k], w, job)
  }

  ghost predicate FinishedAt(fleet: Fleet, s: State, es: seq<Event>, k: nat, w: Pod, job: Job, ok: bool) {
    k < |es| && Finishes(StateAt(fleet, s, es, k), es[k], w, job, ok)
  }

  // ----- what one event does -----

  lemma MonitorRecords(fleet: Fleet, s: State, e: Event)
    requires e.Monitor?
    ensures var r := Apply(fleet, s, e);
      && r.store.succeeded == s.store.succeeded && r.store.failed == s.store.failed && r.workers == s.workers
  {
    MonitorFinished(s);
    hide MonitorStore, MonitorLocals, MonitorPc, Sorted;
  }

  lemma SucceededStep(fleet: Fleet, s: State, e: Event, job: Job)
    ensures job in Apply(fleet, s, e).store.succeeded <==>
      job in s.store.succeeded || (e.Finish? && Finishes(s, e, e.w, job, true))
  {
    if e.Monitor? { MonitorRecords(fleet, s, e); }
    hide MonitorStep, RemoveLast;
  }

  lemma FailedStep(fleet: Fleet, s: State, e: Event, job: Job, w: Pod)
    ensures (job, w) in Apply(fleet, s, e).store.failed <==>
      (job, w) in s.store.failed || Finishes(s, e, w, job, false)
  {
    if e.Monitor? { MonitorRecords(fleet, s, e); }
    hide MonitorStep, RemoveLast;
  }

  predicate OwnedBy(s: State, job: Job, w: Pod) { job in s.store.owners && s.store.owners[job] == w }

  /** A claim gives the job an owner; its end, by whoever, and the monitor take the owner. */
  predicate ChangesOwner(s: State, e: Event, job: Job) {
    || (e.Claim? && Claims(s, e, e.w, job))
    || (e.Finish? && (Finishes(s, e, e.w, job, true) || Finishes(s, e, e.w, job, false)))
    || Drops(s, e, job)
  }

  lemma MonitorOwners(s: State, job: Job)
    ensures var r := MonitorStore(s).owners;
      r == if (s.pc.OrphanHdel? && s.l.orphans != []) then s.store.owners - {s.l.orphans[0]}
           else if (s.pc.DropOwners? && s.l.toDrop != []) then s.store.owners - {s.l.toDrop[0]}
           else s.store.owners
  {
    hide RemoveLast, Elements;
  }

  lemma OwnedStep(fleet: Fleet, s: State, e: Event, job: Job, w: Pod)
    ensures OwnedBy(Apply(fleet, s, e), job, w) <==>
      Claims(s, e, w, job) || (OwnedBy(s, job, w) && !ChangesOwner(s, e, job))
  {
    if e.Monitor? { MonitorOwners(s, job); }
    hide MonitorStore, MonitorLocals, MonitorPc, RemoveLast, Sorted;
  }

  /** A claim takes the first job, puts it first in progress and makes the worker its owner
      and its runner. */
  lemma ClaimStep(fleet: Fleet, s: State, e: Event, w: Pod, job: Job)
    requires Claims(s, e, w, job)
    ensures var r := Apply(fleet, s, e);
      && s.store.queue == [job] + r.store.queue && r.store.progress == [job] + s.store.progress
      && r.store.owners == s.store.owners[job := w] && r.workers == s.workers[w := Running(job)]
  {
  }

  /** What frees a worker of its job. */
  predicate Frees(e: Event, w: Pod) { (e.Finish? || e.Crash?) && e.w == w }

  predicate Runs(s: State, w: Pod, job: Job) { w in s.workers && s.workers[w] == Running(job) }

  lemma RunsStep(fleet: Fleet, s: State, e: Event, w: Pod, job: Job)
    ensures Runs(Apply(fleet, s, e), w, job) <==> Claims(s, e, w, job) || (Runs(s, w, job) && !Frees(e, w))
  {
    if e.Monitor? { MonitorRecords(fleet, s, e); }
    hide MonitorStep, ClaimScript, FinishTransaction;
  }

  // ----- what a run leaves -----

  lemma Earlier(fleet: Fleet, s: State, es: seq<Event>, e: Event)
    ensures forall k: nat :: k <= |es| ==> StateAt(fleet, s, es + [e], k) == StateAt(fleet, s, es, k)
    ensures StateAt(fleet, s, es, |es|) == Run(fleet, s, es)
    ensures Run(fleet, s, es + [e]) == Apply(fleet, Run(fleet, s, es), e)
  {
    RunAppend(fleet, s, es, e);
    assert es[..|es|] == es;
    forall k: nat | k <= |es| ensures (es + [e])[..k] == es[..k] {}
    hide Apply, Run;
  }

  lemma Last(es: seq<Event>) returns (before: seq<Event>, e: Event)
    requires es != []
    ensures es == before + [e]
  {
    before, e := es[..|es| - 1], es[|es| - 1];
  }

  // ----- verdicts -----

  ghost predicate Succeeded(fleet: Fleet, s: State, es: seq<Event>, job: Job) {
    exists k: nat, w :: FinishedAt(fleet, s, es, k, w, job, true)
  }

  ghost predicate Failed(fleet: Fleet, s: State, es: seq<Event>, job: Job, w: Pod) {
    exists k: nat :: FinishedAt(fleet, s, es, k, w, job, false)
  }

  lemma FinishedNext(fleet: Fleet, s: State, es: seq<Event>, e: Event, w: Pod, job: Job, ok: bool)
    ensures forall k: nat :: FinishedAt(fleet, s, es + [e], k, w, job, ok) <==>
      FinishedAt(fleet, s, es, k, w, job, ok) || (k == |es| && Finishes(Run(fleet, s, es), e, w, job, ok))
  {
    Earlier(fleet, s, es, e);
    hide Apply, Run, Finishes, StateAt;
  }

  lemma Verdict(s: State, e: Event, w: Pod, job: Job, ok: bool)
    ensures Finishes(s, e, w, job, ok) ==> e == Finish(w, ok)
  {
  }

  lemma SucceededNext(fleet: Fleet, s: State, es: seq<Event>, e: Event, job: Job)
    ensures Succeeded(fleet, s, es + [e], job) <==>
      Succeeded(fleet, s, es, job) || (e.Finish? && Finishes(Run(fleet, s, es), e, e.w, job, true))
  {
    hide Run, Finishes, FinishedAt;
    var next := es + [e];
    if k: nat, w :| FinishedAt(fleet, s, es, k, w, job, true) {
      FinishedNext(fleet, s, es, e, w, job, true);
      assert FinishedAt(fleet, s, next, k, w, job, true);
    }
    if e.Finish? && Finishes(Run(fleet, s, es), e, e.w, job, true) {
      FinishedNext(fleet, s, es, e, e.w, job, true);
      assert FinishedAt(fleet, s, next, |es|, e.w, job, true);
    }
    if k: nat, w :| FinishedAt(fleet, s, next, k, w, job, true) {
      FinishedNext(fleet, s, es, e, w, job, true);
      Verdict(Run(fleet, s, es), e, w, job, true);
    }
  }

  lemma FailedNext(fleet: Fleet, s: State, es: seq<Event>, e: Event, job: Job, w: Pod)
    ensures Failed(fleet, s, es + [e], job, w) <==>
      Failed(fleet, s, es, job, w) || Finishes(Run(fleet, s, es), e, w, job, false)
  {
    FinishedNext(fleet, s, es, e, w, job, false);
    hide Run, Finishes, FinishedAt;
    if k: nat :| FinishedAt(fleet, s, es, k, w, job, false) { assert FinishedAt(fleet, s, es + [e], k, w, job, false); }
    assert Finishes(Run(fleet, s, es), e, w, job, false) ==> FinishedAt(fleet, s, es + [e], |es|, w, job, false);
  }

  /** In every run a job is in the succeeded set exactly when a worker that ran it ended it
      well, and in the failed set with a worker exactly when that worker ended it badly. */
  lemma {:induction false} RecordedIff(jobs: seq<Job>, pods: set<Pod>, fleet: Fleet, es: seq<Event>, job: Job, w: Pod)
    ensures job in Run(fleet, Start(jobs, pods), es).store.succeeded <==> Succeeded(fleet, Start(jobs, pods), es, job)
    ensures (job, w) in Run(fleet, Start(jobs, pods), es).store.failed <==>
      Failed(fleet, Start(jobs, pods), es, job, w)
    decreases |es|
  {
    var s := Start(jobs, pods);
    if es != [] {
      var before, e := Last(es);
      RecordedIff(jobs, pods, fleet, before, job, w);
      RunAppend(fleet, s, before, e);
      SucceededStep(fleet, Run(fleet, s, before), e, job);
      FailedStep(fleet, Run(fleet, s, before), e, job, w);
      SucceededNext(fleet, s, before, e, job);
      FailedNext(fleet, s, before, e, job, w);
      hide Apply, Run, Succeeded, Failed, Finishes;
    }
  }

  /** As a worker ends its job, well or badly, the job loses its owner. */
  lemma EndDropsOwner(fleet: Fleet, s: State, es: seq<Event>, k: nat, w: Pod, job: Job, ok: bool)
    requires FinishedAt(fleet, s, es, k, w, job, ok)
    ensures job !in Run(fleet, s, es[..k + 1]).store.owners
  {
    var p, r := StateAt(fleet, s, es, k), Run(fleet, s, es[..k + 1]);
    assert es[..k + 1] == es[..k] + [es[k]];
    RunAppend(fleet, s, es[..k], es[k]);
    hide Apply, Run;
    forall v ensures !OwnedBy(r, job, v) { OwnedStep(fleet, p, es[k], job, v); }
    assert job in r.store.owners ==> OwnedBy(r, job, r.store.owners[job]);
  }

  // ----- owners and runners -----

  /** The worker claimed the job at k and nothing has changed the owner since. */
  ghost predicate HeldFrom(fleet: Fleet, s: State, es: seq<Event>, k: nat, w: Pod, job: Job) {
    ClaimedAt(fleet, s, es, k, w, job)
    && forall i: nat :: k < i < |es| ==> !ChangesOwner(StateAt(fleet, s, es, i), es[i], job)
  }

  ghost predicate Held(fleet: Fleet, s: State, es: seq<Event>, w: Pod, job: Job) {
    exists k: nat :: HeldFrom(fleet, s, es, k, w, job)
  }

  lemma HeldFromNext(fleet: Fleet, s: State, es: seq<Event>, e: Event, k: nat, w: Pod, job: Job)
    ensures HeldFrom(fleet, s, es + [e], k, w, job) <==>
      || (k == |es| && Claims(Run(fleet, s, es), e, w, job))
      || (HeldFrom(fleet, s, es, k, w, job) && !ChangesOwner(Run(fleet, s, es), e, job))
  {
    Earlier(fleet, s, es, e);
    hide Apply, Run, Claims, StateAt, ChangesOwner;
    if HeldFrom(fleet, s, es + [e], k, w, job) && k < |es| {
      forall i: nat | k < i < |es| ensures !ChangesOwner(StateAt(fleet, s, es, i), es[i], job) {
        assert (es + [e])[i] == es[i];
      }
    }
  }

  lemma HeldNext(fleet: Fleet, s: State, es: seq<Event>, e: Event, w: Pod, job: Job)
    ensures Held(fleet, s, es + [e], w, job) <==>
      || Claims(Run(fleet, s, es), e, w, job)
      || (Held(fleet, s, es, w, job) && !ChangesOwner(Run(fleet, s, es), e, job))
  {
    forall k: nat { HeldFromNext(fleet, s, es, e, k, w, job); }
    hide Run, Claims, HeldFrom, ChangesOwner;
    assert Claims(Run(fleet, s, es), e, w, job) ==> HeldFrom(fleet, s, es + [e], |es|, w, job);
  }

  /** The worker claimed the job at k and has neither ended it nor crashed since. */
  ghost predicate RunsFrom(fleet: Fleet, s: State, es: seq<Event>, k: nat, w: Pod, job: Job) {
    ClaimedAt(fleet, s, es, k, w, job) && forall i: nat :: k < i < |es| ==> !Frees(es[i], w)
  }

  ghost predicate StillRuns(fleet: Fleet, s: State, es: seq<Event>, w: Pod, job: Job) {
    exists k: nat :: RunsFrom(fleet, s, es, k, w, job)
  }

  lemma RunsFromNext(fleet: Fleet, s: State, es: seq<Event>, e: Event, k: nat, w: Pod, job: Job)
    ensures RunsFrom(fleet, s, es + [e], k, w, job) <==>
      || (k == |es| && Claims(Run(fleet, s, es), e, w, job))
      || (RunsFrom(fleet, s, es, k, w, job) && !Frees(e, w))
  {
    Earlier(fleet, s, es, e);
    hide Apply, Run, Claims, StateAt, Frees;
    var next := es + [e];
    forall i: nat | i < |es| ensures Frees(next[i], w) == Frees(es[i], w) {}
    assert next[|es|] == e;
  }

  lemma StillRunsNext(fleet: Fleet, s: State, es: seq<Event>, e: Event, w: Pod, job: Job)
    ensures StillRuns(fleet, s, es + [e], w, job) <==>
      Claims(Run(fleet, s, es), e, w, job) || (StillRuns(fleet, s, es, w, job) && !Frees(e, w))
  {
    forall k: nat { RunsFromNext(fleet, s, es, e, k, w, job); }
    hide Run, Claims, RunsFrom, Frees;
    assert Claims(Run(fleet, s, es), e, w, job) ==> RunsFrom(fleet, s, es + [e], |es|, w, job);
  }

  /** In every run a job is owned by a worker exactly when the worker claimed it and since
      then nobody claimed or ended it and the monitor did not drop its owner; and a worker
      runs it exactly when the worker claimed it and has not ended it or crashed since. */
  lemma {:induction false} OwnedIff(jobs: seq<Job>, pods: set<Pod>, fleet: Fleet, es: seq<Event>, w: Pod, job: Job)
    ensures OwnedBy(Run(fleet, Start(jobs, pods), es), job, w) <==> Held(fleet, Start(jobs, pods), es, w, job)
    ensures Runs(Run(fleet, Start(jobs, pods), es), w, job) <==> StillRuns(fleet, Start(jobs, pods), es, w, job)
    decreases |es|
  {
    var s := Start(jobs, pods);
    if es != [] {
      var before, e := Last(es);
      OwnedIff(jobs, pods, fleet, before, w, job);
      RunAppend(fleet, s, before, e);
      OwnedStep(fleet, Run(fleet, s, before), e, job, w);
      RunsStep(fleet, Run(fleet, s, before), e, w, job);
      HeldNext(fleet, s, before, e, w, job);
      StillRunsNext(fleet, s, before, e, w, job);
      hide Apply, Run, Held, StillRuns, OwnedBy, Runs, Claims, ChangesOwner, Frees;
    }
  }

  // ----- the order of claims -----

  predicate AllIn(q: seq<Job>, p: seq<Job>) { forall j :: j in q ==> j in p }

  /** The queue ends with the jobs from c on; all else that the lists hold or the monitor
      remembers as in progress comes from those before. */
  predicate InOrder(jobs: seq<Job>, s: State, front: seq<Job>, c: nat) {
    && c <= |jobs| && s.store.queue == front + jobs[c..]
    && AllIn(front, jobs[..c]) && AllIn(s.store.progress, jobs[..c])
    && AllIn(s.l.inProgress, jobs[..c]) && AllIn(s.l.orphans, jobs[..c])
  }

  lemma RemoveLastIn(q: seq<Job>, job: Job)
    ensures AllIn(RemoveLast(q, job), q)
  {
    RemoveLastIs(q, job);
    forall j | j in RemoveLast(q, job) ensures j in q { assert j in multiset(RemoveLast(q, job)); }
  }

  /** A call of the monitor puts at most one job in front of the queue, an orphan or one in
      progress. */
  lemma MonitorLists(s: State)
    ensures var r := MonitorStore(s);
      && AllIn(r.progress, s.store.progress)
      && (r.queue == s.store.queue
          || (r.queue != [] && r.queue[1..] == s.store.queue
              && (r.queue[0] in s.store.progress || r.queue[0] in s.l.orphans)))
  {
    if s.l.orphans != [] { RemoveLastIn(s.store.progress, s.l.orphans[0]); }
    hide RemoveLast, Elements;
  }

  lemma RestIn(q: seq<Job>)
    ensures AllIn(q, q) && (q != [] ==> AllIn(q[1..], q))
  {
  }

  lemma OrphansIn(inProgress: seq<Job>, owners: map<Job, Pod>)
    ensures AllIn(Orphans(inProgress, owners), inProgress)
  {
  }

  lemma OrphansAfter(fleet: Fleet, s: State, e: Event)
    requires e.Monitor?
    ensures var o := MonitorLocals(fleet, s, e).orphans;
      if s.pc.ReadOwners? then o == Orphans(s.l.inProgress, s.store.owners)
      else if s.pc.OrphanHdel? && s.l.orphans != [] then o == s.l.orphans[1..]
      else o == s.l.orphans
  {
    hide ToMark, ViewOf, Sorted, Orphans, Active, NoDup, Elements;
  }

  lemma InProgressAfter(fleet: Fleet, s: State, e: Event)
    requires e.Monitor?
    ensures MonitorLocals(fleet, s, e).inProgress
      == if s.pc.ReadProgress? || s.pc.RereadProgress? then s.store.progress else s.l.inProgress
  {
    hide ToMark, ViewOf, Listing, Orphans, Active;
  }

  lemma MonitorMemory(fleet: Fleet, s: State, e: Event)
    requires e.Monitor?
    ensures var l := MonitorLocals(fleet, s, e);
      && (l.inProgress == s.l.inProgress || l.inProgress == s.store.progress)
      && (AllIn(l.orphans, s.l.orphans) || AllIn(l.orphans, s.l.inProgress))
  {
    hide MonitorLocals, Orphans, AllIn;
    OrphansAfter(fleet, s, e);
    InProgressAfter(fleet, s, e);
    RestIn(s.l.orphans);
    OrphansIn(s.l.inProgress, s.store.owners);
  }

  lemma MonitorInOrder(fleet: Fleet, jobs: seq<Job>, s: State, e: Event, front: seq<Job>, c: nat)
    returns (front': seq<Job>)
    requires e.Monitor? && InOrder(jobs, s, front, c)
    ensures InOrder(jobs, Apply(fleet, s, e), front', c)
  {
    MonitorLists(s);
    MonitorMemory(fleet, s, e);
    hide MonitorStore, MonitorLocals, MonitorPc, Sorted;
    var r := MonitorStore(s).queue;
    if r == s.store.queue {
      front' := front;
    } else {
      front' := [r[0]] + front;
      assert r == [r[0]] + r[1..];
      assert r == front' + jobs[c..];
    }
  }

  lemma WorkerInOrder(fleet: Fleet, jobs: seq<Job>, s: State, e: Event, front: seq<Job>, c: nat)
    requires InOrder(jobs, s, front, c) && !e.Monitor? && !(e.Claim? && s.store.queue != [])
    ensures InOrder(jobs, Apply(fleet, s, e), front, c)
  {
    if e.Finish? && e.w in s.workers && s.workers[e.w].Running? { RemoveLastIn(s.store.progress, s.workers[e.w].job); }
    hide RemoveLast;
  }

  lemma ClaimInOrder(fleet: Fleet, jobs: seq<Job>, s: State, w: Pod, front: seq<Job>, c: nat)
    returns (front': seq<Job>, c': nat)
    requires InOrder(jobs, s, front, c) && s.store.queue != []
    requires Claims(s, Claim(w), w, s.store.queue[0])
    ensures InOrder(jobs, Apply(fleet, s, Claim(w)), front', c')
    ensures if front == [] then c' == c + 1 <= |jobs| && s.store.queue[0] == jobs[c]
            else c' == c && s.store.queue[0] in jobs[..c]
  {
    ClaimStep(fleet, s, Claim(w), w, s.store.queue[0]);
    WorkerStep(fleet, s, Claim(w));
    hide Apply;
    if front == [] {
      front', c' := [], c + 1;
      assert jobs[..c + 1] == jobs[..c] + [jobs[c]];
      assert s.store.queue == [jobs[c]] + jobs[c + 1..];
    } else {
      front', c' := front[1..], c;
      assert front == [front[0]] + front[1..];
    }
  }

  ghost predicate ClaimedBefore(fleet: Fleet, s: State, es: seq<Event>, n: nat, job: Job) {
    exists k: nat, w :: k < n && ClaimedAt(fleet, s, es, k, w, job)
  }

  lemma ClaimedNext(fleet: Fleet, s: State, es: seq<Event>, e: Event, n: nat, job: Job)
    requires n <= |es|
    ensures ClaimedBefore(fleet, s, es, n, job) ==> ClaimedBefore(fleet, s, es + [e], n, job)
    ensures ClaimedBefore(fleet, s, es, n, job) ==> ClaimedBefore(fleet, s, es, |es|, job)
    ensures forall w :: ClaimedAt(fleet, s, es + [e], n, w, job) && n < |es| ==> ClaimedAt(fleet, s, es, n, w, job)
    ensures forall w :: Claims(Run(fleet, s, es), e, w, job) ==> ClaimedBefore(fleet, s, es + [e], |es| + 1, job)
  {
    Earlier(fleet, s, es, e);
    hide Apply, Run, Claims, StateAt;
    if k: nat, w :| k < n && ClaimedAt(fleet, s, es, k, w, job) {
      assert ClaimedAt(fleet, s, es + [e], k, w, job);
      assert k < |es|;
    }
    forall w | Claims(Run(fleet, s, es), e, w, job) ensures ClaimedAt(fleet, s, es + [e], |es|, w, job) {}
  }

  ghost predicate AllClaimed(fleet: Fleet, s: State, es: seq<Event>, jobs: seq<Job>, c: nat) {
    forall i :: 0 <= i < c <= |jobs| ==> ClaimedBefore(fleet, s, es, |es|, jobs[i])
  }

  /** Wherever a run has come to, all jobs from some one on still wait in their order behind
      the others, and all before it have been claimed. */
  lemma {:induction false} OrderRun(fleet: Fleet, jobs: seq<Job>, pods: set<Pod>, es: seq<Event>)
    returns (front: seq<Job>, c: nat)
    ensures InOrder(jobs, Run(fleet, Start(jobs, pods), es), front, c)
    ensures AllClaimed(fleet, Start(jobs, pods), es, jobs, c)
    decreases |es|
  {
    var s := Start(jobs, pods);
    if es == [] {
      front, c := [], 0;
      assert [] + jobs == jobs;
    } else {
      var before, e := Last(es);
      front, c := OrderRun(fleet, jobs, pods, before);
      var p := Run(fleet, s, before);
      RunAppend(fleet, s, before, e);
      var done := c;
      front, c := OrderStep(fleet, jobs, p, e, front, c);
      hide Apply, Run, InOrder, Claims, ClaimedBefore;
      forall i | 0 <= i < c ensures ClaimedBefore(fleet, s, es, |es|, jobs[i]) {
        ClaimedNext(fleet, s, before, e, |before|, jobs[i]);
      }
    }
  }

  lemma OrderStep(fleet: Fleet, jobs: seq<Job>, s: State, e: Event, front: seq<Job>, c: nat)
    returns (front': seq<Job>, c': nat)
    requires InOrder(jobs, s, front, c)
    ensures InOrder(jobs, Apply(fleet, s, e), front', c')
    ensures c' == c || (c' == c + 1 <= |jobs| && e.Claim? && Claims(s, e, e.w, jobs[c]))
  {
    front', c' := front, c;
    if e.Monitor? {
      front' := MonitorInOrder(fleet, jobs, s, e, front, c);
    } else if e.Claim? && s.store.queue != [] {
      if Claims(s, e, e.w, s.store.queue[0]) {
        front', c' := ClaimInOrder(fleet, jobs, s, e.w, front, c);
      }
    } else {
      WorkerInOrder(fleet, jobs, s, e, front, c);
    }
  }

  /** Jobs are first claimed in the order of the list they started in: when a job is claimed,
      all that stand before one of its places there have been claimed as well. */
  lemma ClaimsInOrder(fleet: Fleet, jobs: seq<Job>, pods: set<Pod>, es: seq<Event>, k: nat, w: Pod, job: Job)
    requires ClaimedAt(fleet, Start(jobs, pods), es, k, w, job)
    ensures exists j: nat ::
      j < |jobs| && jobs[j] == job && AllClaimed(fleet, Start(jobs, pods), es[..k], jobs, j)
  {
    var s := Start(jobs, pods);
    var front, c := OrderRun(fleet, jobs, pods, es[..k]);
    var j := PlaceOf(jobs, StateAt(fleet, s, es, k), front, c);
    hide InOrder, Run, ClaimedBefore;
    assert AllClaimed(fleet, s, es[..k], jobs, j);
  }

  lemma PlaceOf(jobs: seq<Job>, s: State, front: seq<Job>, c: nat) returns (j: nat)
    requires InOrder(jobs, s, front, c) && s.store.queue != []
    ensures j <= c && j < |jobs| && jobs[j] == s.store.queue[0]
  {
    if front == [] {
      j := c;
    } else {
      assert front[0] in jobs[..c];
      j :| 0 <= j < c && jobs[j] == front[0];
    }
  }

  // ----- what a pass decides -----

  ghost predicate OnlyWorkers(es: seq<Event>) { forall e :: e in es ==> !e.Monitor? }

  /** What workers do leaves the monitor where it was. */
  lemma {:induction false} WorkersBetween(fleet: Fleet, s: State, es: seq<Event>)
    requires OnlyWorkers(es)
    ensures var r := Run(fleet, s, es); r.pc == s.pc && r.l == s.l && r.store.retiring == s.store.retiring
    decreases es
  {
    if es != [] {
      assert es[0] in es;
      WorkerStep(fleet, s, es[0]);
      WorkersBetween(fleet, Apply(fleet, s, es[0]), es[1..]);
    }
  }

  lemma CallWorkersCall(fleet: Fleet, s: State, e: Event, ws: seq<Event>, f: Event)
    requires OnlyWorkers(ws)
    ensures var a := Apply(fleet, s, e);
      var b := Run(fleet, a, ws);
      && Run(fleet, s, [e] + ws + [f]) == Apply(fleet, b, f) && b == Run(fleet, s, [e] + ws)
      && b.pc == a.pc && b.l == a.l && b.store.retiring == a.store.retiring
  {
    var a := Apply(fleet, s, e);
    assert ([e] + ws)[1..] == ws;
    RunAppend(fleet, s, [e] + ws, f);
    WorkersBetween(fleet, a, ws);
    hide Apply;
  }

  /** The unmarked live workers that the monitor can see: those that own a job and answered,
      and those that own none and resolve. */
  ghost function Unmarked(fleet: Fleet, owners: map<Job, Pod>, retiring: set<Pod>, e: Event): set<Pod>
    requires e.Monitor?
  {
    (owners.Values - retiring - e.down) + ((Workers(fleet) - owners.Values - retiring) * e.resolves)
  }

  lemma ReadRetiringStep(fleet: Fleet, s: State, e: Event)
    requires e.Monitor? && s.pc.ReadRetiring?
    ensures var r := Apply(fleet, s, e);
      var v := View(s.l.owners.Values, e.down * s.l.owners.Values, s.store.retiring,
                    s.l.remain + |s.l.inProgress|, e.resolves);
      && r.pc == Mark && r.store == s.store
      && r.l == s.l.(retiring := s.store.retiring, toMark := ToMark(fleet, v),
                     allDown := s.l.owners.Values != {} && s.l.owners.Values <= e.down)
      && Claimable(fleet, v) == Unmarked(fleet, s.l.owners, s.store.retiring, e)
  {
    hide ToMark, Workers, Sorted;
  }

  /** The list holds each key once, in the given order if that is an order of the keys. */
  ghost predicate Lists(q: seq<Job>, keys: set<Job>, order: seq<Job>) {
    && Elements(q) == keys && NoDup(q)
    && (Elements(order) == keys && NoDup(order) ==> q == order)
  }

  lemma ListingIs(keys: set<Job>, order: seq<Job>)
    ensures Lists(Listing(keys, order), keys, order)
  {
    SortedNoDup(keys);
    assert Elements(Sorted(keys)) == keys;
  }

  lemma MarkCall(fleet: Fleet, s: State, e: Event)
    requires e.Monitor? && s.pc.Mark?
    ensures var r := Apply(fleet, s, e);
      && r.store == s.store.(retiring := s.store.retiring + Elements(s.l.toMark))
      && r.pc == (if s.l.allDown && s.l.inProgress != [] && !e.recovered then RetryTest else Publish)
      && r.l == s.l.(toDrop := r.l.toDrop) && Lists(r.l.toDrop, s.l.owners.Keys, e.order)
  {
    hide Elements, Sorted, NoDup, Listing, Lists, Orphans, Active;
    ListingIs(s.l.owners.Keys, e.order);
  }

  lemma PassSteps(fleet: Fleet, s: State, e: Event, ws: seq<Event>, f: Event, v: View)
    requires s.pc.ReadRetiring? && e.Monitor? && OnlyWorkers(ws) && f.Monitor?
    requires v == View(s.l.owners.Values, e.down * s.l.owners.Values, s.store.retiring,
                       s.l.remain + |s.l.inProgress|, e.resolves)
    ensures var r := Run(fleet, s, [e] + ws + [f]);
      && r.store.retiring == s.store.retiring + Elements(ToMark(fleet, v))
      && r.pc == (if s.l.owners.Values != {} && s.l.owners.Values <= e.down && s.l.inProgress != [] && !f.recovered
                  then RetryTest else Publish)
      && Lists(r.l.toDrop, s.l.owners.Keys, f.order)
  {
    hide Apply, Run, ToMark, Lists, Elements, Claimable, Unmarked;
    ReadRetiringStep(fleet, s, e);
    CallWorkersCall(fleet, s, e, ws, f);
    MarkCall(fleet, Run(fleet, Apply(fleet, s, e), ws), f);
  }

  lemma FloorLeft(fleet: Fleet, active: set<Pod>, retiring: set<Pod>, outstanding: nat, e: Event, v: View)
    requires e.Monitor? && v == View(active, e.down * active, retiring, outstanding, e.resolves)
    ensures var all := (active - retiring - e.down) + ((Workers(fleet) - active - retiring) * e.resolves);
      var left := all - (retiring + Elements(ToMark(fleet, v)));
      (|left| >= outstanding || left == all) && (|left| >= fleet.minUnmarked || left == all)
  {
    var all := Claimable(fleet, v);
    assert all == (active - retiring - e.down) + ((Workers(fleet) - active - retiring) * e.resolves);
    assert all !! retiring;
    MarkingKeepsFloor(fleet, v);
    hide *;
    LeftUnmarked(all, retiring, Elements(ToMark(fleet, v)));
  }

  /** From the read of the marks to the marking, whatever the workers do in between: at least
      as many unmarked live workers stay as there were jobs waiting and in progress, and at
      least the configured minimum, or else all of them; and the pass goes on to retry exactly
      when something was in progress, there was an owner, and none of the owners answered. */
  lemma PassDecides(fleet: Fleet, s: State, e: Event, ws: seq<Event>, f: Event)
    requires s.pc.ReadRetiring? && e.Monitor? && OnlyWorkers(ws) && f.Monitor?
    ensures var r := Run(fleet, s, [e] + ws + [f]);
      var all := Unmarked(fleet, s.l.owners, s.store.retiring, e);
      var left := all - r.store.retiring;
      && s.store.retiring <= r.store.retiring
      && (|left| >= s.l.remain + |s.l.inProgress| || left == all) && (|left| >= fleet.minUnmarked || left == all)
      && r.pc == (if s.l.inProgress != [] && s.l.owners != map[] && s.l.owners.Values <= e.down && !f.recovered
                  then RetryTest else Publish)
      && Lists(r.l.toDrop, s.l.owners.Keys, f.order)
  {
    hide Run, ToMark, Lists, Elements;
    var v := View(s.l.owners.Values, e.down * s.l.owners.Values, s.store.retiring,
                  s.l.remain + |s.l.inProgress|, e.resolves);
    PassSteps(fleet, s, e, ws, f, v);
    FloorLeft(fleet, s.l.owners.Values, s.store.retiring, s.l.remain + |s.l.inProgress|, e, v);
    OwnersThere(s.l.owners);
  }

  lemma OwnersThere(owners: map<Job, Pod>)
    ensures owners.Values == {} <==> owners == map[]
  {
    if j :| j in owners { assert owners[j] in owners.Values; }
  }

  lemma LeftUnmarked(all: set<Pod>, retiring: set<Pod>, marked: set<Pod>)
    requires all !! retiring
    ensures all - (retiring + marked) == all - marked && (|all - marked| == |all| ==> all - marked == all)
  {
    var left, taken := all - marked, all * marked;
    assert left + taken == all && left !! taken;
    if |left| == |all| {
      assert |left + taken| == |left| + |taken|;
      assert taken == {};
    }
  }

  lemma ReadProgressStep(fleet: Fleet, s: State, e: Event)
    requires e.Monitor? && s.pc.ReadProgress?
    ensures var r := Apply(fleet, s, e); r.pc == ReadOwners && r.l.inProgress == s.store.progress
  {
    hide ToMark, ViewOf, Sorted, Orphans, Active;
  }

  lemma ReadOwnersStep(fleet: Fleet, s: State, e: Event)
    requires e.Monitor? && s.pc.ReadOwners?
    ensures var r := Apply(fleet, s, e);
      r.l.orphans == Orphans(s.l.inProgress, s.store.owners) && r.pc == AfterOrphan(r.l)
      && r.l.hadOrphans == (r.l.orphans != [])
  {
    hide ToMark, ViewOf, Sorted, Orphans, Active;
  }

  /** The jobs that a pass goes on to requeue are exactly those it read as in progress that had
      no owner at its later read of the owners. */
  lemma OrphansAre(fleet: Fleet, s: State, e: Event, ws: seq<Event>, f: Event)
    requires s.pc.ReadProgress? && e.Monitor? && OnlyWorkers(ws) && f.Monitor?
    ensures var b, r := Run(fleet, s, [e] + ws), Run(fleet, s, [e] + ws + [f]);
      && (forall j :: j in r.l.orphans <==> j in s.store.progress && j !in b.store.owners)
      && r.pc == if r.l.orphans != [] then OrphanLrem else ReadRetiring
  {
    hide Apply, Run, Orphans;
    ReadProgressStep(fleet, s, e);
    CallWorkersCall(fleet, s, e, ws, f);
    ReadOwnersStep(fleet, Run(fleet, Apply(fleet, s, e), ws), f);
  }

  lemma DropStep(fleet: Fleet, s: State, e: Event)
    requires e.Monitor? && s.pc.DropOwners?
    ensures Apply(fleet, s, e) ==
      if s.l.toDrop == [] then s.(pc := Publish)
      else s.(store := Hdel(s.store, s.l.toDrop[0]), l := s.l.(toDrop := s.l.toDrop[1..]))
  {
    hide ToMark, ViewOf, Sorted, Orphans, Active, Hdel;
  }

  /** After a retry the pass drops every owner of its snapshot, and no other, and publishes. */
  lemma {:induction false} DropUninterrupted(fleet: Fleet, s: State, es: seq<Event>)
    requires s.pc.DropOwners? && OnlyMonitor(es) && |es| == |s.l.toDrop| + 1
    ensures var r := Run(fleet, s, es);
      && r.pc == Publish && r.l == s.l.(toDrop := []) && r.workers == s.workers
      && r.store == s.store.(owners := s.store.owners - Elements(s.l.toDrop))
    decreases |es|
  {
    assert es[0] in es;
    DropStep(fleet, s, es[0]);
    hide Apply, Hdel;
    DropOne(s.store, s.l.toDrop);
    var q := s.l.toDrop;
    if q == [] {
      assert Run(fleet, Apply(fleet, s, es[0]), es[1..]) == Apply(fleet, s, es[0]);
    } else {
      assert forall e :: e in es[1..] ==> e in es;
      DropUninterrupted(fleet, Apply(fleet, s, es[0]), es[1..]);
    }
  }

  lemma DropOne(s: Store, q: seq<Job>)
    ensures q == [] ==> s.owners - Elements(q) == s.owners
    ensures q != [] ==>
      Hdel(s, q[0]) == s.(owners := Hdel(s, q[0]).owners)
      && Hdel(s, q[0]).owners - Elements(q[1..]) == s.owners - Elements(q)
  {
    if q != [] { assert Elements(q) == {q[0]} + Elements(q[1..]); }
  }
}
