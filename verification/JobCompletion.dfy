/** When the job monitor's published status may be believed. */
module JobCompletion {
  import opened Text
  import opened JobStore
  import opened Marking
  import opened JobMonitor

  ghost predicate AllDone(jobs: set<Job>, s: State) { jobs <= Finished(s.store) }

  ghost predicate AllSucceeded(jobs: set<Job>, s: State) { jobs <= s.store.succeeded }

  function FailedJobs(s: Store): set<Job> { set f | f in s.failed :: f.0 }

  /** A published status that looks complete. */
  predicate LooksComplete(t: Status) { t.remain == 0 && t.inProgress == [] }

  /** The readings of a pass that will publish such a status. */
  predicate LooksDone(l: Locals) { l.remain == 0 && l.inProgress == [] }

  predicate BeforeOrphans(pc: Pc) { pc in {ReadQueue, ReadFailed, ReadProgress, ReadOwners} }

  predicate Repairing(pc: Pc) { pc in {OrphanLrem, OrphanLpush, OrphanHdel, RereadProgress, RereadQueue} }

  /** The readings of a pass are final. */
  predicate HasRead(pc: Pc) { !BeforeOrphans(pc) && !Repairing(pc) }

  /** A pass without orphans, or one whose second reading found nothing in progress. */
  predicate Believable(hadOrphans: bool, settled: bool) { !hadOrphans || settled }

  ghost predicate CompletionInv(jobs: set<Job>, s: State) {
    && Accounted(jobs, s)
    && (s.pc in {ReadFailed, ReadProgress} && s.l.remain == 0 ==> s.store.queue == [])
    && (s.pc.ReadOwners? && LooksDone(s.l) ==> AllDone(jobs, s))
    && (Repairing(s.pc) ==> s.l.hadOrphans)
    && (HasRead(s.pc) && LooksDone(s.l) && Believable(s.l.hadOrphans, s.l.settled) ==> AllDone(jobs, s))
    && (LooksComplete(s.status) && Believable(s.status.hadOrphans, s.status.settled) ==> AllDone(jobs, s))
  }

  lemma NothingLeft(jobs: set<Job>, s: State)
    requires Accounted(jobs, s) && s.store.queue == [] && s.store.progress == [] && !s.pc.OrphanLpush?
    ensures AllDone(jobs, s)
  {
    assert Copies(s) == multiset{};
  }

  lemma CompletionStep(jobs: set<Job>, fleet: Fleet, s: State, e: Event)
    requires CompletionInv(jobs, s)
    ensures CompletionInv(jobs, Apply(fleet, s, e))
  {
    var r := Apply(fleet, s, e);
    AccountedStep(jobs, fleet, s, e);
    assert AllDone(jobs, s) ==> AllDone(jobs, r) by { StepCopies(fleet, s, e); }
    if e.Monitor? {
      if s.pc in {ReadProgress, RereadQueue} && s.store.queue == [] && s.store.progress == [] {
        NothingLeft(jobs, s);
      }
      CompletionMonitor(jobs, fleet, s, e);
    } else {
      WorkerStep(fleet, s, e);
      hide Apply, Accounted, AllDone;
    }
  }

  lemma CompletionMonitor(jobs: set<Job>, fleet: Fleet, s: State, e: Event)
    requires e.Monitor? && CompletionInv(jobs, s) && Accounted(jobs, MonitorStep(fleet, s, e))
    requires AllDone(jobs, s) ==> AllDone(jobs, MonitorStep(fleet, s, e))
    requires s.pc in {ReadProgress, RereadQueue} && s.store.queue == [] && s.store.progress == [] ==>
      AllDone(jobs, s)
    ensures CompletionInv(jobs, MonitorStep(fleet, s, e))
  {
    hide Accounted, AllDone, ToMark, ViewOf, Sorted, Elements, MonitorStore, Orphans, Active, Exclusive;
    match s.pc
    case ReadQueue => ReadsOnly(s);
    case ReadFailed => ReadsOnly(s);
    case ReadProgress =>
    case ReadOwners =>
    case OrphanHdel =>
    case RereadQueue =>
    case _ =>
  }

  lemma {:induction false} CompletionRun(jobs: set<Job>, fleet: Fleet, s: State, es: seq<Event>)
    requires CompletionInv(jobs, s)
    ensures CompletionInv(jobs, Run(fleet, s, es))
    decreases es
  {
    if es != [] {
      CompletionStep(jobs, fleet, s, es[0]);
      CompletionRun(jobs, fleet, Apply(fleet, s, es[0]), es[1..]);
    }
  }

  lemma {:induction false} DoneForever(jobs: set<Job>, fleet: Fleet, s: State, es: seq<Event>)
    requires AllDone(jobs, s)
    ensures AllDone(jobs, Run(fleet, s, es))
    decreases es
  {
    if es != [] {
      StepCopies(fleet, s, es[0]);
      DoneForever(jobs, fleet, Apply(fleet, s, es[0]), es[1..]);
    }
  }

  /** In every interleaving: once a pass has published that nothing remains and nothing is in
      progress, and it had no orphans or found nothing in progress when it read the queue
      again, every job is finished, then and ever after. */
  lemma CompletionIsSound(jobs: seq<Job>, pods: set<Pod>, fleet: Fleet, es: seq<Event>, later: seq<Event>)
    requires NoDup(jobs)
    requires var t := Run(fleet, Start(jobs, pods), es).status;
      LooksComplete(t) && Believable(t.hadOrphans, t.settled)
    ensures AllDone(Elements(jobs), Run(fleet, Run(fleet, Start(jobs, pods), es), later))
  {
    AccountedStart(jobs, pods);
    CompletionRun(Elements(jobs), fleet, Start(jobs, pods), es);
    DoneForever(Elements(jobs), fleet, Run(fleet, Start(jobs, pods), es), later);
  }

  // ----- passes with orphans -----

  ghost predicate ProgressFinished(s: State) { forall j :: j in s.store.progress ==> j in Finished(s.store) }

  /** With an empty queue all is done exactly when whatever is still in progress has been
      finished before. */
  lemma DoneIff(jobs: set<Job>, s: State)
    requires Accounted(jobs, s) && s.store.queue == [] && !s.pc.OrphanLpush?
    ensures AllDone(jobs, s) <==> ProgressFinished(s)
  {
    assert Copies(s) == multiset(s.store.progress);
    assert forall j :: j in s.store.progress <==> j in multiset(s.store.progress);
    hide Finished, Copies;
  }

  lemma DoneIsFinished(jobs: set<Job>, s: State)
    requires Accounted(jobs, s) && AllDone(jobs, s)
    ensures ProgressFinished(s)
  {
    InProgressIsLive(s);
    hide Copies, Finished;
  }

  /** With no job in two places that is nothing. */
  lemma NoneInProgress(s: State)
    requires Exclusive(s) && ProgressFinished(s)
    ensures s.store.progress == []
  {
    var q := s.store.progress;
    assert q == [] || q[0] in q;
    InProgressIsLive(s);
    hide Copies, Finished;
  }

  lemma InProgressIsLive(s: State)
    ensures forall j :: j in s.store.progress ==> j in Copies(s)
  {
    forall j | j in s.store.progress ensures j in Copies(s) { assert j in multiset(s.store.progress); }
  }

  /** What makes a pass with orphans look done leaves the queue empty until it publishes. */
  ghost predicate QueueInv(s: State) {
    && (HasRead(s.pc) && LooksDone(s.l) && s.l.hadOrphans ==> s.store.queue == [])
    && (s.pc in {RetryTest, RetryMove, DropOwners} ==> s.l.inProgress != [])
    && (Repairing(s.pc) ==> s.l.hadOrphans)
  }

  lemma QueueStep(fleet: Fleet, s: State, e: Event)
    requires QueueInv(s)
    ensures QueueInv(Apply(fleet, s, e))
  {
    if e.Monitor? {
      QueueMonitor(fleet, s, e);
    } else {
      WorkerStep(fleet, s, e);
      hide Apply;
    }
  }

  lemma QueueMonitor(fleet: Fleet, s: State, e: Event)
    requires e.Monitor? && QueueInv(s)
    ensures QueueInv(MonitorStep(fleet, s, e))
  {
    hide ToMark, ViewOf, Sorted, Elements, Orphans, Active, Lrem, Lpush, Lmove, Hdel;
  }

  lemma {:induction false} QueueRun(fleet: Fleet, s: State, es: seq<Event>)
    requires QueueInv(s)
    ensures QueueInv(Run(fleet, s, es))
    decreases es
  {
    if es != [] {
      QueueStep(fleet, s, es[0]);
      QueueRun(fleet, Apply(fleet, s, es[0]), es[1..]);
    }
  }

  lemma RunFacts(jobs: seq<Job>, pods: set<Pod>, fleet: Fleet, es: seq<Event>)
    requires NoDup(jobs)
    ensures var s := Run(fleet, Start(jobs, pods), es);
      && Accounted(Elements(jobs), s) && QueueInv(s) && CompletionInv(Elements(jobs), s)
      && (NeverStale(fleet, Start(jobs, pods), es) ==> Exclusive(s))
  {
    AccountedStart(jobs, pods);
    assert Exclusive(Start(jobs, pods));
    NoJobLost(Elements(jobs), fleet, Start(jobs, pods), es);
    if NeverStale(fleet, Start(jobs, pods), es) { ExclusiveRun(Elements(jobs), fleet, Start(jobs, pods), es); }
    QueueRun(fleet, Start(jobs, pods), es);
    CompletionRun(Elements(jobs), fleet, Start(jobs, pods), es);
  }

  lemma IdleIff(jobs: set<Job>, s: State)
    requires AllDone(jobs, s) <==> ProgressFinished(s)
    ensures Exclusive(s) ==> (AllDone(jobs, s) <==> s.store.progress == [])
  {
    if Exclusive(s) && AllDone(jobs, s) { NoneInProgress(s); }
    hide Exclusive, AllDone;
  }

  /** In every interleaving: when a pass with orphans reads the queue again and finds it
      empty, all is done exactly when whatever is in progress has been finished before; without
      a stale finish, exactly when nothing is in progress. */
  lemma RereadIff(jobs: seq<Job>, pods: set<Pod>, fleet: Fleet, es: seq<Event>)
    requires NoDup(jobs)
    requires var s := Run(fleet, Start(jobs, pods), es); s.pc.RereadQueue? && s.store.queue == []
    ensures var s := Run(fleet, Start(jobs, pods), es);
      && (AllDone(Elements(jobs), s) <==> ProgressFinished(s))
      && (NeverStale(fleet, Start(jobs, pods), es) ==> (AllDone(Elements(jobs), s) <==> s.store.progress == []))
  {
    RunFacts(jobs, pods, fleet, es);
    var s := Run(fleet, Start(jobs, pods), es);
    hide Run, NeverStale, Exclusive, AllDone, ProgressFinished, QueueInv, CompletionInv;
    DoneIff(Elements(jobs), s);
    IdleIff(Elements(jobs), s);
  }

  /** And when any pass is about to publish a status that looks complete, the status is right
      exactly on that condition; without orphans it always is. */
  lemma PublishedIff(jobs: seq<Job>, pods: set<Pod>, fleet: Fleet, es: seq<Event>, e: Event)
    requires NoDup(jobs) && e.Monitor?
    requires var s := Run(fleet, Start(jobs, pods), es); s.pc.Publish? && LooksDone(s.l)
    ensures var s := Run(fleet, Start(jobs, pods), es);
      && (AllDone(Elements(jobs), s) <==> ProgressFinished(s))
      && (NeverStale(fleet, Start(jobs, pods), es) ==> (AllDone(Elements(jobs), s) <==> s.store.progress == []))
      && (Believable(s.l.hadOrphans, s.l.settled) ==> AllDone(Elements(jobs), s))
      && LooksComplete(Apply(fleet, s, e).status)
      && (AllDone(Elements(jobs), Apply(fleet, s, e)) <==> AllDone(Elements(jobs), s))
  {
    RunFacts(jobs, pods, fleet, es);
    var s := Run(fleet, Start(jobs, pods), es);
    hide Run, NeverStale, Accounted, Exclusive, QueueInv, CompletionInv, AllDone, Apply, ProgressFinished;
    AboutToPublish(Elements(jobs), s);
    IdleIff(Elements(jobs), s);
    PublishKeeps(Elements(jobs), fleet, s, e);
  }

  lemma AboutToPublish(jobs: set<Job>, s: State)
    requires Accounted(jobs, s) && QueueInv(s) && CompletionInv(jobs, s)
    requires s.pc.Publish? && LooksDone(s.l)
    ensures AllDone(jobs, s) <==> ProgressFinished(s)
    ensures Believable(s.l.hadOrphans, s.l.settled) ==> AllDone(jobs, s)
  {
    hide Accounted, AllDone, ProgressFinished;
    if s.l.hadOrphans { DoneIff(jobs, s); } else { DoneIsFinished(jobs, s); }
  }

  lemma PublishKeeps(jobs: set<Job>, fleet: Fleet, s: State, e: Event)
    requires e.Monitor? && s.pc.Publish? && LooksDone(s.l)
    ensures LooksComplete(Apply(fleet, s, e).status)
    ensures AllDone(jobs, Apply(fleet, s, e)) <==> AllDone(jobs, s)
  {
    hide Sorted, Active, Orphans, ToMark, ViewOf;
    ReadsOnly(s);
  }

  predicate NoClaims(es: seq<Event>) { forall e :: e in es ==> !e.Monitor? && !e.Claim? }

  /** Without claims the progress list only shrinks. */
  lemma {:induction false} ProgressShrinks(fleet: Fleet, s: State, es: seq<Event>)
    requires NoClaims(es) && s.store.progress == []
    ensures var r := Run(fleet, s, es); r.store.progress == [] && r.pc == s.pc && r.l == s.l
    decreases es
  {
    if es != [] {
      assert es[0] in es;
      WorkerStep(fleet, s, es[0]);
      NoClaimStep(fleet, s, es[0]);
      assert forall e :: e in es[1..] ==> e in es;
      ProgressShrinks(fleet, Apply(fleet, s, es[0]), es[1..]);
    }
  }

  lemma NoClaimStep(fleet: Fleet, s: State, e: Event)
    requires !e.Monitor? && !e.Claim? && s.store.progress == []
    ensures Apply(fleet, s, e).store.progress == []
  {
  }

  /** A pass with orphans is right if no claim falls between its second readings: nothing is
      in progress at the later one either. */
  lemma NoClaimBetweenRereads(fleet: Fleet, s: State, first: Event, between: seq<Event>, second: Event)
    requires s.pc.RereadProgress? && first.Monitor? && second.Monitor? && NoClaims(between)
    ensures var r := Run(fleet, s, [first] + between + [second]);
      r.pc.ReadRetiring? && (r.l.inProgress == [] ==> r.l.settled)
  {
    var a := Apply(fleet, s, first);
    RunConcat(fleet, s, [first], between);
    assert Run(fleet, s, [first]) == a by { assert [first][1..] == []; assert Run(fleet, a, []) == a; }
    var b := Run(fleet, a, between);
    RunAppend(fleet, s, [first] + between, second);
    assert a.pc.RereadQueue? && a.l.inProgress == s.store.progress == a.store.progress by { ReadsOnly(s); }
    if s.store.progress == [] { ProgressShrinks(fleet, a, between); } else { LocalsStay(fleet, a, between); }
    assert b.l.inProgress == a.l.inProgress && b.pc == a.pc;
    hide Run;
  }

  /** In every interleaving: a pass with orphans between whose second readings nobody claims
      is right if it looks done. */
  lemma OrphanPassIsSound(jobs: seq<Job>, pods: set<Pod>, fleet: Fleet, es: seq<Event>,
                          first: Event, between: seq<Event>, second: Event)
    requires NoDup(jobs) && first.Monitor? && second.Monitor? && NoClaims(between)
    requires Run(fleet, Start(jobs, pods), es).pc.RereadProgress?
    requires LooksDone(Run(fleet, Run(fleet, Start(jobs, pods), es), [first] + between + [second]).l)
    ensures AllDone(Elements(jobs), Run(fleet, Run(fleet, Start(jobs, pods), es), [first] + between + [second]))
  {
    var s := Run(fleet, Start(jobs, pods), es);
    AccountedStart(jobs, pods);
    CompletionRun(Elements(jobs), fleet, Start(jobs, pods), es);
    hide Run, Accounted;
    CompletionRun(Elements(jobs), fleet, s, [first] + between + [second]);
    NoClaimBetweenRereads(fleet, s, first, between, second);
  }

  lemma {:induction false} LocalsStay(fleet: Fleet, s: State, es: seq<Event>)
    requires forall e :: e in es ==> !e.Monitor?
    ensures var r := Run(fleet, s, es); r.pc == s.pc && r.l == s.l
    decreases es
  {
    if es != [] {
      assert es[0] in es;
      WorkerStep(fleet, s, es[0]);
      assert forall e :: e in es[1..] ==> e in es;
      LocalsStay(fleet, Apply(fleet, s, es[0]), es[1..]);
    }
  }

  // ----- success -----

  /** A status that looks complete and names no failure. */
  predicate LooksSuccessful(t: Status) { LooksComplete(t) && t.failed == {} }

  lemma DoneWithoutFailure(jobs: set<Job>, s: State)
    requires AllDone(jobs, s)
    ensures AllSucceeded(jobs, s) <==> FailedJobs(s.store) * jobs <= s.store.succeeded
  {
    assert Finished(s.store) == s.store.succeeded + FailedJobs(s.store);
    if AllSucceeded(jobs, s) {
    } else {
      var j :| j in jobs && j !in s.store.succeeded;
      assert j in FailedJobs(s.store) * jobs;
    }
  }

  predicate CleanlyDone(l: Locals) {
    LooksDone(l) && Believable(l.hadOrphans, l.settled) && l.failed == {} && l.clean
  }

  predicate Idle(s: Store) { s.queue == [] && s.progress == [] }

  ghost predicate SuccessInv(jobs: set<Job>, s: State) {
    && CompletionInv(jobs, s)
    && (s.pc.ReadOwners? && LooksDone(s.l) && s.l.failed == {} && s.l.clean ==> AllSucceeded(jobs, s))
    && (HasRead(s.pc) && CleanlyDone(s.l) ==> AllSucceeded(jobs, s))
    && (LooksSuccessful(s.status) && Believable(s.status.hadOrphans, s.status.settled) && s.status.clean ==>
          AllSucceeded(jobs, s))
  }

  lemma SucceededGrows(fleet: Fleet, s: State, e: Event)
    ensures s.store.succeeded <= Apply(fleet, s, e).store.succeeded
  {
    hide MonitorLocals, MonitorPc, RemoveLast, Elements;
  }

  lemma SuccessStep(jobs: set<Job>, fleet: Fleet, s: State, e: Event)
    requires SuccessInv(jobs, s)
    ensures SuccessInv(jobs, Apply(fleet, s, e))
  {
    var r := Apply(fleet, s, e);
    CompletionStep(jobs, fleet, s, e);
    SucceededGrows(fleet, s, e);
    if e.Monitor? {
      if s.pc in {ReadProgress, RereadQueue} && s.store.queue == [] && s.store.progress == [] {
        NothingLeft(jobs, s);
        DoneWithoutFailure(jobs, s);
      }
      SuccessMonitor(jobs, fleet, s, e);
    } else {
      WorkerStep(fleet, s, e);
      hide Apply, CompletionInv;
    }
  }

  lemma SuccessMonitor(jobs: set<Job>, fleet: Fleet, s: State, e: Event)
    requires e.Monitor? && SuccessInv(jobs, s) && CompletionInv(jobs, MonitorStep(fleet, s, e))
    requires AllSucceeded(jobs, s) ==> AllSucceeded(jobs, MonitorStep(fleet, s, e))
    requires s.pc in {ReadProgress, RereadQueue} && s.store.failed == {} && Idle(s.store) ==> AllSucceeded(jobs, s)
    ensures SuccessInv(jobs, MonitorStep(fleet, s, e))
  {
    hide Accounted, AllDone, AllSucceeded, ToMark, ViewOf, Sorted, Elements, MonitorStore, Orphans, Active;
    match s.pc
    case ReadProgress =>
    case ReadOwners =>
    case OrphanHdel =>
    case RereadQueue =>
    case _ =>
  }

  lemma {:induction false} SuccessRun(jobs: set<Job>, fleet: Fleet, s: State, es: seq<Event>)
    requires SuccessInv(jobs, s)
    ensures SuccessInv(jobs, Run(fleet, s, es))
    decreases es
  {
    if es != [] {
      SuccessStep(jobs, fleet, s, es[0]);
      SuccessRun(jobs, fleet, Apply(fleet, s, es[0]), es[1..]);
    }
  }

  /** In every interleaving: a published status that looks complete and names no failure, of
      a pass without orphans or with nothing in progress as it read the queue again, means
      that every job succeeded if nothing failed after the read of the failed set, up to the
      read of the progress list or that second read of the queue. */
  lemma SuccessIsSound(jobs: seq<Job>, pods: set<Pod>, fleet: Fleet, es: seq<Event>)
    requires NoDup(jobs)
    requires var t := Run(fleet, Start(jobs, pods), es).status;
      LooksSuccessful(t) && Believable(t.hadOrphans, t.settled) && t.clean
    ensures AllSucceeded(Elements(jobs), Run(fleet, Start(jobs, pods), es))
  {
    AccountedStart(jobs, pods);
    SuccessRun(Elements(jobs), fleet, Start(jobs, pods), es);
  }

  /** No job has ended both ways. */
  ghost predicate OneOutcome(s: Store) { s.succeeded !! FailedJobs(s) }

  /** At the reading of the progress list, every job has succeeded exactly when each that
      failed has; and unless a job has ended both ways, exactly when nothing failed since the
      other read. */
  lemma SuccessIff(jobs: seq<Job>, pods: set<Pod>, fleet: Fleet, es: seq<Event>, e: Event)
    requires NoDup(jobs) && e.Monitor?
    requires var s := Run(fleet, Start(jobs, pods), es);
      && s.pc.ReadProgress? && s.l.remain == 0 && s.store.progress == [] && s.l.failed == {}
    ensures var r := Apply(fleet, Run(fleet, Start(jobs, pods), es), e);
      && (AllSucceeded(Elements(jobs), r) <==> FailedJobs(r.store) <= r.store.succeeded)
      && (OneOutcome(r.store) ==> (AllSucceeded(Elements(jobs), r) <==> r.l.clean))
  {
    AccountedStart(jobs, pods);
    CompletionRun(Elements(jobs), fleet, Start(jobs, pods), es);
    var s := Run(fleet, Start(jobs, pods), es);
    NothingLeft(Elements(jobs), s);
    DoneWithoutFailure(Elements(jobs), s);
    FailedAreJobs(Elements(jobs), s);
    hide Run, Accounted, CompletionInv;
    var r := Apply(fleet, s, e);
    assert r.store == s.store && r.l.clean == (s.store.failed == {}) by { ReadsOnly(s); }
    assert FailedJobs(s.store) * Elements(jobs) == FailedJobs(s.store);
    if s.store.failed != {} {
      var f :| f in s.store.failed;
      assert f.0 in FailedJobs(s.store);
    }
  }

  /** When any pass is about to publish a status that looks complete, every job has succeeded
      exactly when whatever is in progress was finished before and each that failed has
      succeeded as well. */
  lemma PublishedSuccessIff(jobs: seq<Job>, pods: set<Pod>, fleet: Fleet, es: seq<Event>, e: Event)
    requires NoDup(jobs) && e.Monitor?
    requires var s := Run(fleet, Start(jobs, pods), es); s.pc.Publish? && LooksDone(s.l)
    ensures var s, r := Run(fleet, Start(jobs, pods), es), Apply(fleet, Run(fleet, Start(jobs, pods), es), e);
      && LooksComplete(r.status) && r.status.failed == s.l.failed
      && (AllSucceeded(Elements(jobs), r) <==> ProgressFinished(r) && FailedJobs(r.store) <= r.store.succeeded)
  {
    PublishedIff(jobs, pods, fleet, es, e);
    RunFacts(jobs, pods, fleet, es);
    var s := Run(fleet, Start(jobs, pods), es);
    SuccessAtPublish(Elements(jobs), s);
    PublishLeaves(fleet, s, e);
    hide Run, Apply, Accounted, CompletionInv, QueueInv, FailedJobs, AllDone;
  }

  lemma SuccessAtPublish(jobs: set<Job>, s: State)
    requires Accounted(jobs, s) && (AllDone(jobs, s) <==> ProgressFinished(s))
    ensures AllSucceeded(jobs, s) <==> ProgressFinished(s) && FailedJobs(s.store) <= s.store.succeeded
  {
    FailedAreJobs(jobs, s);
    assert AllSucceeded(jobs, s) ==> AllDone(jobs, s);
    if AllDone(jobs, s) { DoneWithoutFailure(jobs, s); }
    assert FailedJobs(s.store) * jobs == FailedJobs(s.store);
    hide FailedJobs, Accounted, ProgressFinished;
  }

  lemma PublishLeaves(fleet: Fleet, s: State, e: Event)
    requires e.Monitor? && s.pc.Publish?
    ensures Apply(fleet, s, e).store == s.store && Apply(fleet, s, e).status.failed == s.l.failed
  {
    hide Sorted, Active, Orphans, ToMark, ViewOf;
    ReadsOnly(s);
  }

  lemma FailedAreJobs(jobs: set<Job>, s: State)
    requires Accounted(jobs, s)
    ensures FailedJobs(s.store) <= jobs
  {
    assert FailedJobs(s.store) <= Finished(s.store);
  }
}
