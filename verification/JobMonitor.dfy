/** The job monitor's polling pass, one Redis call at a time, interleaved with the workers
    of worker.sh in every possible order. */
module JobMonitor {
  import opened Text
  import opened JobStore
  import opened Marking

  // ----- the system -----

  /** A worker checks that it is not retiring, then claims, in two separate calls. */
  datatype Worker = Idle | Checked | Running(job: Job)

  /** The monitor's next call. */
  datatype Pc =
    | ReadQueue | ReadFailed | ReadProgress | ReadOwners
    | OrphanLrem | OrphanLpush | OrphanHdel | RereadProgress | RereadQueue
    | ReadRetiring | Mark
    | RetryTest | RetryMove | DropOwners
    | Publish

  /** clean and settled are kept only to speak about a pass: no failure was added between the
      read of the failed set and that of the progress list, or the second one of the queue,
      and nothing was in progress at the latter. */
  datatype Locals = Locals(
    remain: nat, failed: set<(Job, Pod)>, clean: bool, inProgress: seq<Job>, owners: map<Job, Pod>,
    orphans: seq<Job>, hadOrphans: bool, settled: bool,
    retiring: set<Pod>, toMark: seq<Pod>, allDown: bool, toDrop: seq<Job>)

  /** The published status; hadOrphans, clean, settled and pass are kept only to speak about
      it. */
  datatype Status = Status(remain: nat, failed: set<(Job, Pod)>, inProgress: seq<Job>, retirable: seq<Pod>,
                           hadOrphans: bool, clean: bool, settled: bool, pass: nat)

  /** marked records the pass in which each retiring worker was marked. */
  datatype State = State(store: Store, workers: map<Pod, Worker>, pc: Pc, l: Locals, status: Status,
                         pass: nat, marked: map<Pod, nat>)

  function Start(jobs: seq<Job>, pods: set<Pod>): State {
    State(Store(jobs, [], {}, {}, map[], {}), map w | w in pods :: Idle, ReadQueue,
          Locals(0, {}, false, [], map[], [], false, false, {}, [], false, []),
          Status(1, {}, [], [], false, false, false, 0), 1, map[])
  }

  /** A monitor call carries what the pings and lookups of its phase answer, and the order in
      which the hash lists its keys. */
  datatype Event =
    | Monitor(down: set<Pod>, resolves: set<Pod>, recovered: bool, order: seq<Job>)
    | Check(w: Pod)
    | Claim(w: Pod)
    | Finish(w: Pod, ok: bool)
    | Crash(w: Pod)

  function Orphans(inProgress: seq<Job>, owners: map<Job, Pod>): (r: seq<Job>)
    ensures forall j :: j in r <==> j in inProgress && j !in owners
  {
    if inProgress == [] then []
    else (if inProgress[0] !in owners then [inProgress[0]] else []) + Orphans(inProgress[1..], owners)
  }

  function Active(l: Locals): set<Pod> { l.owners.Values }

  function ViewOf(l: Locals, down: set<Pod>, retiring: set<Pod>, resolves: set<Pod>): View {
    View(Active(l), down * Active(l), retiring, l.remain + |l.inProgress|, resolves)
  }

  /** The keys in the given order, if it is an order of them. */
  function Listing(keys: set<Job>, order: seq<Job>): seq<Job> {
    if NoDup(order) && Elements(order) == keys then order else Sorted(keys)
  }

  function AfterOrphan(l: Locals): Pc {
    if l.orphans != [] then OrphanLrem else if l.hadOrphans then RereadProgress else ReadRetiring
  }

  /** What the monitor's next call does to the shared data. */
  function MonitorStore(s: State): Store {
    var l := s.l;
    match s.pc
    case OrphanLrem => if l.orphans == [] then s.store else Lrem(s.store, l.orphans[0])
    case OrphanLpush => if l.orphans == [] then s.store else Lpush(s.store, l.orphans[0])
    case OrphanHdel => if l.orphans == [] then s.store else Hdel(s.store, l.orphans[0])
    case Mark => s.store.(retiring := s.store.retiring + Elements(l.toMark))
    case RetryMove => Lmove(s.store)
    case DropOwners => if l.toDrop == [] then s.store else Hdel(s.store, l.toDrop[0])
    case _ => s.store
  }

  /** What the monitor remembers after the call. */
  function MonitorLocals(fleet: Fleet, s: State, e: Event): Locals
    requires e.Monitor?
  {
    var l := s.l;
    match s.pc
    case ReadQueue => l.(remain := |s.store.queue|)
    case ReadFailed => l.(failed := s.store.failed)
    case ReadProgress => l.(inProgress := s.store.progress, clean := s.store.failed <= l.failed)
    case ReadOwners =>
      var orphans := Orphans(l.inProgress, s.store.owners);
      l.(owners := s.store.owners, orphans := orphans, hadOrphans := orphans != [])
    case OrphanHdel => if l.orphans == [] then l else l.(orphans := l.orphans[1..])
    case RereadProgress => l.(inProgress := s.store.progress)
    case RereadQueue =>
      l.(remain := |s.store.queue|, settled := s.store.progress == [], clean := s.store.failed <= l.failed)
    case ReadRetiring =>
      l.(retiring := s.store.retiring,
         toMark := ToMark(fleet, ViewOf(l, e.down, s.store.retiring, e.resolves)),
         allDown := Active(l) != {} && Active(l) <= e.down)
    case Mark => l.(toDrop := Listing(l.owners.Keys, e.order))
    case DropOwners => if l.toDrop == [] then l else l.(toDrop := l.toDrop[1..])
    case _ => l
  }

  /** The call after this one, given what the monitor then remembers. */
  function MonitorPc(s: State, l: Locals, recovered: bool): Pc {
    match s.pc
    case ReadQueue => ReadFailed
    case ReadFailed => ReadProgress
    case ReadProgress => ReadOwners
    case ReadOwners => AfterOrphan(l)
    case OrphanLrem =>
      if l.orphans == [] then AfterOrphan(l)
      else if l.orphans[0] in s.store.progress then OrphanLpush else OrphanHdel
    case OrphanLpush => if l.orphans == [] then AfterOrphan(l) else OrphanHdel
    case OrphanHdel => AfterOrphan(l)
    case RereadProgress => RereadQueue
    case RereadQueue => ReadRetiring
    case ReadRetiring => Mark
    // Stuck: every owner is down, confirmed, and something was in progress.
    case Mark => if l.allDown && l.inProgress != [] && !recovered then RetryTest else Publish
    case RetryTest => if s.store.progress != [] then RetryMove else DropOwners
    case RetryMove => RetryTest
    case DropOwners => if s.l.toDrop == [] then Publish else DropOwners
    case Publish => ReadQueue
  }

  function MonitorStep(fleet: Fleet, s: State, e: Event): State
    requires e.Monitor?
  {
    var l := MonitorLocals(fleet, s, e);
    State(MonitorStore(s), s.workers, MonitorPc(s, l, e.recovered), l,
          if s.pc.Publish?
            then Status(l.remain, l.failed, l.inProgress, Sorted(l.retiring - Active(l)),
                        l.hadOrphans, l.clean, l.settled, s.pass)
            else s.status,
          if s.pc.Publish? then s.pass + 1 else s.pass,
          if s.pc.Mark? then s.marked + (map w | w in l.toMark :: s.pass) else s.marked)
  }

  /** An event that is not possible in a state leaves it alone. */
  function Apply(fleet: Fleet, s: State, e: Event): State {
    if e.Monitor? then MonitorStep(fleet, s, e)
    else if e.w !in s.workers then s
    else
      match e
      case Check(w) =>
        if s.workers[w].Idle? && w !in s.store.retiring then s.(workers := s.workers[w := Checked]) else s
      case Claim(w) =>
        if !s.workers[w].Checked? then s
        else if s.store.queue == [] then s.(workers := s.workers[w := Idle])
        else s.(store := ClaimScript(s.store, w), workers := s.workers[w := Running(s.store.queue[0])])
      case Finish(w, ok) =>
        if !s.workers[w].Running? then s
        else
          s.(store := FinishTransaction(s.store, w, s.workers[w].job, ok), workers := s.workers[w := Idle])
      case Crash(w) => s.(workers := s.workers[w := Idle])
  }

  function Run(fleet: Fleet, s: State, es: seq<Event>): State
    decreases es
  {
    if es == [] then s else Run(fleet, Apply(fleet, s, es[0]), es[1..])
  }

  // ----- runs -----

  ghost predicate Reaches(fleet: Fleet, s: State, r: State) { exists es :: Run(fleet, s, es) == r }

  lemma {:induction false} RunConcat(fleet: Fleet, s: State, es: seq<Event>, fs: seq<Event>)
    ensures Run(fleet, s, es + fs) == Run(fleet, Run(fleet, s, es), fs)
    decreases es
  {
    if es == [] {
      assert es + fs == fs;
    } else {
      assert (es + fs)[1..] == es[1..] + fs;
      RunConcat(fleet, Apply(fleet, s, es[0]), es[1..], fs);
    }
  }

  lemma RunAppend(fleet: Fleet, s: State, es: seq<Event>, e: Event)
    ensures Run(fleet, s, es + [e]) == Apply(fleet, Run(fleet, s, es), e)
  {
    RunConcat(fleet, s, es, [e]);
    var r := Run(fleet, s, es);
    assert [e][1..] == [];
    assert Run(fleet, Apply(fleet, r, e), []) == Apply(fleet, r, e);
  }

  lemma Then(fleet: Fleet, s: State, r: State, e: Event)
    requires Reaches(fleet, s, r)
    ensures Reaches(fleet, s, Apply(fleet, r, e))
  {
    var es :| Run(fleet, s, es) == r;
    RunAppend(fleet, s, es, e);
  }

  lemma Begins(fleet: Fleet, s: State)
    ensures Reaches(fleet, s, s)
  {
    assert Run(fleet, s, []) == s;
  }

  /** A worker's event leaves the monitor's side alone and never fills an empty queue. */
  lemma WorkerStep(fleet: Fleet, s: State, e: Event)
    requires !e.Monitor?
    ensures var r := Apply(fleet, s, e);
      && r.pc == s.pc && r.l == s.l && r.status == s.status && r.pass == s.pass && r.marked == s.marked
      && r.store.retiring == s.store.retiring
      && (s.store.queue == [] ==> r.store.queue == [])
  {
    hide RemoveLast;
  }

  lemma ReadsOnly(s: State)
    requires s.pc in {ReadQueue, ReadFailed, ReadProgress, ReadOwners, RereadProgress, RereadQueue, ReadRetiring,
                      RetryTest, Publish}
    ensures MonitorStore(s) == s.store
  {
  }

  // ----- no job is lost or doubled -----

  /** Between LREM and LPUSH the monitor alone holds the job. */
  function Hand(s: State): multiset<Job> {
    if s.pc.OrphanLpush? && s.l.orphans != [] then multiset{s.l.orphans[0]} else multiset{}
  }

  /** Every copy of a job that is waiting, in progress or in the monitor's hand. */
  function Copies(s: State): multiset<Job> { Live(s.store) + Hand(s) }

  /** Copies as the lists show them. */
  lemma CopiesSeen(s: State)
    ensures s.store.queue != [] ==> Copies(s) != multiset{}
    ensures s.store.queue == [] && s.store.progress == [] && !s.pc.OrphanLpush? ==> Copies(s) == multiset{}
    ensures s.store.queue == [] && s.store.progress != [] ==> Copies(s) != multiset{}
  {
    if s.store.queue != [] { assert s.store.queue[0] in multiset(s.store.queue); }
    if s.store.progress != [] { assert s.store.progress[0] in multiset(s.store.progress); }
  }

  lemma LpushLive(s: Store, job: Job)
    ensures Live(Lpush(s, job)) == Live(s) + multiset{job}
  {
    assert multiset([job] + s.queue) == multiset{job} + multiset(s.queue);
  }

  lemma LremLive(s: Store, job: Job)
    ensures Live(Lrem(s, job)) + (if job in s.progress then multiset{job} else multiset{}) == Live(s)
  {
    RemoveLastIs(s.progress, job);
    if job in s.progress { assert multiset(s.progress)[job] > 0; }
  }

  lemma LmoveLive(s: Store)
    ensures Live(Lmove(s)) == Live(s)
  {
    var p := s.progress;
    if p != [] {
      var k := |p| - 1;
      assert p == p[..k] + [p[k]];
      assert multiset([p[k]] + s.queue) == multiset{p[k]} + multiset(s.queue);
    }
  }

  /** The job that an orphan's LREM takes out of the progress list. */
  function Taken(s: State): multiset<Job> {
    if s.pc.OrphanLrem? && s.l.orphans != [] && s.l.orphans[0] in s.store.progress
      then multiset{s.l.orphans[0]} else multiset{}
  }

  lemma HandAfter(fleet: Fleet, s: State, e: Event)
    requires e.Monitor?
    ensures Hand(MonitorStep(fleet, s, e)) == Taken(s)
  {
    hide ToMark, Sorted, ViewOf, MonitorStore, Elements, Orphans;
  }

  lemma LiveAfter(s: State)
    ensures Live(MonitorStore(s)) + Taken(s) == Live(s.store) + Hand(s)
  {
    hide Live, Lrem, Lpush, Lmove, Hdel, Elements;
    if s.pc.OrphanLrem? && s.l.orphans != [] {
      LremLive(s.store, s.l.orphans[0]);
    } else if s.pc.OrphanLpush? && s.l.orphans != [] {
      LpushLive(s.store, s.l.orphans[0]);
    } else if s.pc.RetryMove? {
      LmoveLive(s.store);
    } else {
      SameLive(s);
    }
  }

  lemma SameLive(s: State)
    requires !s.pc.RetryMove? && ((s.pc.OrphanLrem? || s.pc.OrphanLpush?) ==> s.l.orphans == [])
    ensures Live(MonitorStore(s)) == Live(s.store)
  {
  }

  lemma MonitorConserves(fleet: Fleet, s: State, e: Event)
    requires e.Monitor?
    ensures Copies(MonitorStep(fleet, s, e)) == Copies(s)
    ensures Finished(MonitorStep(fleet, s, e).store) == Finished(s.store)
  {
    HandAfter(fleet, s, e);
    LiveAfter(s);
    MonitorFinished(s);
    hide MonitorStore, MonitorLocals, MonitorPc, Live, Hand, Taken, Finished;
  }

  lemma MonitorFinished(s: State)
    ensures MonitorStore(s).succeeded == s.store.succeeded && MonitorStore(s).failed == s.store.failed
    ensures Finished(MonitorStore(s)) == Finished(s.store)
  {
  }

  lemma ClaimConserves(s: Store, w: Pod)
    requires s.queue != []
    ensures Live(ClaimScript(s, w)) == Live(s)
  {
    assert s.queue == [s.queue[0]] + s.queue[1..];
    assert multiset([s.queue[0]] + s.progress) == multiset{s.queue[0]} + multiset(s.progress);
  }

  lemma FinishLive(s: Store, w: Pod, job: Job, ok: bool)
    ensures Live(FinishTransaction(s, w, job, ok))
      == Live(s) - (if job in s.progress then multiset{job} else multiset{})
  {
    RemoveLastIs(s.progress, job);
  }

  lemma FinishFinished(s: Store, w: Pod, job: Job, ok: bool)
    ensures Finished(FinishTransaction(s, w, job, ok)) == Finished(s) + {job}
  {
    var f := FinishTransaction(s, w, job, ok).failed;
    assert f == if ok then s.failed else s.failed + {(job, w)};
    assert (set x | x in s.failed + {(job, w)} :: x.0) == (set x | x in s.failed :: x.0) + {job} by {
      assert (job, w).0 == job;
    }
  }

  /** Each job of the start exists at most once among the live copies, and is live or
      finished; nothing else ever appears. */
  ghost predicate Accounted(jobs: set<Job>, s: State) {
    && (forall j :: Copies(s)[j] <= 1)
    && (forall j :: j in Copies(s) ==> j in jobs)
    && Finished(s.store) <= jobs
    && (forall j :: j in jobs ==> j in Copies(s) || j in Finished(s.store))
    && (forall w :: w in s.workers && s.workers[w].Running? ==> s.workers[w].job in jobs)
  }

  lemma AccountedStart(jobs: seq<Job>, pods: set<Pod>)
    requires NoDup(jobs)
    ensures Accounted(Elements(jobs), Start(jobs, pods))
  {
    var s := Start(jobs, pods);
    forall j ensures Copies(s)[j] <= 1 { NoDupMultiset(jobs, j); }
    assert forall j :: j in Copies(s) <==> j in multiset(jobs);
  }

  lemma {:induction false} NoDupMultiset(q: seq<Job>, j: Job)
    requires NoDup(q)
    ensures multiset(q)[j] <= 1
  {
    if q != [] {
      NoDupTail(q);
      NoDupMultiset(q[1..], j);
      assert q == [q[0]] + q[1..];
    }
  }

  /** A worker that ends a job which is no longer in progress but is live: it was requeued
      under the worker, by a retry or as an orphan. */
  predicate StaleFinish(s: State, e: Event) {
    && e.Finish? && e.w in s.workers && s.workers[e.w].Running?
    && s.workers[e.w].job !in s.store.progress && s.workers[e.w].job in Copies(s)
  }

  ghost predicate Exclusive(s: State) { forall j :: j in Copies(s) ==> j !in Finished(s.store) }

  predicate Ends(s: State, e: Event) { e.Finish? && e.w in s.workers && s.workers[e.w].Running? }

  lemma StepCopies(fleet: Fleet, s: State, e: Event)
    ensures var r := Apply(fleet, s, e);
      if Ends(s, e) then
        var job := s.workers[e.w].job;
        && Copies(r) == Copies(s) - (if job in s.store.progress then multiset{job} else multiset{})
        && Finished(r.store) == Finished(s.store) + {job}
      else
        Copies(r) == Copies(s) && Finished(r.store) == Finished(s.store)
  {
    hide MonitorStep, FinishTransaction, ClaimScript, Finished;
    if e.Monitor? {
      MonitorConserves(fleet, s, e);
    } else if e.w in s.workers {
      match e
      case Claim(w) =>
        if s.workers[w].Checked? && s.store.queue != [] {
          ClaimConserves(s.store, w);
          ClaimFinished(s.store, w);
        }
      case Finish(w, ok) =>
        if s.workers[w].Running? {
          FinishLive(s.store, w, s.workers[w].job, ok);
          FinishFinished(s.store, w, s.workers[w].job, ok);
          EndCopies(s, Apply(fleet, s, e), e);
        }
      case _ =>
    }
  }

  lemma ClaimFinished(s: Store, w: Pod)
    requires s.queue != []
    ensures Finished(ClaimScript(s, w)) == Finished(s)
  {
  }

  lemma EndCopies(s: State, r: State, e: Event)
    requires Ends(s, e) && r.pc == s.pc && r.l == s.l
    requires var job := s.workers[e.w].job;
      Live(r.store) == Live(s.store) - (if job in s.store.progress then multiset{job} else multiset{})
    ensures var job := s.workers[e.w].job;
      Copies(r) == Copies(s) - (if job in s.store.progress then multiset{job} else multiset{})
  {
    var job := s.workers[e.w].job;
    var j := if job in s.store.progress then multiset{job} else multiset{};
    assert j <= multiset(s.store.progress);
    TakeThenAdd(Live(s.store), Hand(s), j);
    assert Hand(r) == Hand(s);
    hide Live, Hand;
  }

  lemma TakeThenAdd(a: multiset<Job>, b: multiset<Job>, j: multiset<Job>)
    requires j <= a
    ensures (a - j) + b == (a + b) - j
  {
  }

  lemma RunningAfter(fleet: Fleet, s: State, e: Event, w: Pod)
    requires w in Apply(fleet, s, e).workers && Apply(fleet, s, e).workers[w].Running?
    ensures (w in s.workers && s.workers[w] == Apply(fleet, s, e).workers[w])
      || Apply(fleet, s, e).workers[w].job in multiset(s.store.queue)
  {
    hide MonitorStore, MonitorLocals, MonitorPc, FinishTransaction, ClaimScript;
  }

  lemma AccountedStep(jobs: set<Job>, fleet: Fleet, s: State, e: Event)
    requires Accounted(jobs, s)
    ensures Accounted(jobs, Apply(fleet, s, e))
  {
    StepCopies(fleet, s, e);
    var r := Apply(fleet, s, e);
    forall w | w in r.workers && r.workers[w].Running? ensures r.workers[w].job in jobs {
      RunningAfter(fleet, s, e, w);
      if r.workers[w].job in multiset(s.store.queue) { assert r.workers[w].job in Copies(s); }
    }
    AccountedFrom(jobs, s, r, e);
  }

  lemma AccountedFrom(jobs: set<Job>, s: State, r: State, e: Event)
    requires Accounted(jobs, s)
    requires forall w :: w in r.workers && r.workers[w].Running? ==> r.workers[w].job in jobs
    requires
      if Ends(s, e) then
        var job := s.workers[e.w].job;
        && Copies(r) == Copies(s) - (if job in s.store.progress then multiset{job} else multiset{})
        && Finished(r.store) == Finished(s.store) + {job}
      else
        Copies(r) == Copies(s) && Finished(r.store) == Finished(s.store)
    ensures Accounted(jobs, r)
  {
    hide Copies, Finished;
  }

  /** In every interleaving no job is lost and none has two live copies. */
  lemma {:induction false} NoJobLost(jobs: set<Job>, fleet: Fleet, s: State, es: seq<Event>)
    requires Accounted(jobs, s)
    ensures Accounted(jobs, Run(fleet, s, es))
    decreases es
  {
    if es != [] {
      AccountedStep(jobs, fleet, s, es[0]);
      NoJobLost(jobs, fleet, Apply(fleet, s, es[0]), es[1..]);
    }
  }

  /** A job stops being in exactly one place at exactly the stale finishes. */
  lemma ExclusiveStep(jobs: set<Job>, fleet: Fleet, s: State, e: Event)
    requires Accounted(jobs, s) && Exclusive(s)
    ensures Exclusive(Apply(fleet, s, e)) <==> !StaleFinish(s, e)
  {
    StepCopies(fleet, s, e);
    if Ends(s, e) && s.workers[e.w].job in s.store.progress {
      assert multiset(s.store.progress)[s.workers[e.w].job] > 0;
      assert s.workers[e.w].job in Copies(s);
    }
    hide Apply, Copies, Finished;
  }

  ghost predicate NeverStale(fleet: Fleet, s: State, es: seq<Event>)
    decreases es
  {
    es == [] || (!StaleFinish(s, es[0]) && NeverStale(fleet, Apply(fleet, s, es[0]), es[1..]))
  }

  /** Where a job can be. */
  function Places(s: State, j: Job): nat {
    multiset(s.store.queue)[j] + multiset(s.store.progress)[j] + Hand(s)[j]
    + if j in Finished(s.store) then 1 else 0
  }

  lemma {:induction false} ExclusiveRun(jobs: set<Job>, fleet: Fleet, s: State, es: seq<Event>)
    requires Accounted(jobs, s) && Exclusive(s) && NeverStale(fleet, s, es)
    ensures Exclusive(Run(fleet, s, es))
    decreases es
  {
    if es != [] {
      AccountedStep(jobs, fleet, s, es[0]);
      ExclusiveStep(jobs, fleet, s, es[0]);
      ExclusiveRun(jobs, fleet, Apply(fleet, s, es[0]), es[1..]);
    }
  }

  lemma PlacesAre(s: State, j: Job)
    ensures Places(s, j) == Copies(s)[j] + if j in Finished(s.store) then 1 else 0
  {
  }

  lemma RunPrefix(fleet: Fleet, s: State, es: seq<Event>, k: nat)
    requires 0 < k <= |es|
    ensures Run(fleet, s, es[..k]) == Run(fleet, Apply(fleet, s, es[0]), es[1..][..k - 1])
  {
    assert es[..k][1..] == es[1..][..k - 1];
  }

  ghost predicate ExclusiveAt(fleet: Fleet, s: State, es: seq<Event>, k: nat)
    requires k <= |es|
  {
    Exclusive(Run(fleet, s, es[..k]))
  }

  lemma {:induction false} NeverStaleIff(jobs: set<Job>, fleet: Fleet, s: State, es: seq<Event>)
    requires Accounted(jobs, s) && Exclusive(s)
    ensures NeverStale(fleet, s, es) <==> forall k: nat :: k <= |es| ==> ExclusiveAt(fleet, s, es, k)
    decreases es
  {
    assert ExclusiveAt(fleet, s, es, 0) by { assert Run(fleet, s, es[..0]) == s; }
    if es != [] {
      var e, r := es[0], Apply(fleet, s, es[0]);
      AccountedStep(jobs, fleet, s, e);
      ExclusiveStep(jobs, fleet, s, e);
      hide Apply, Accounted, Exclusive, StaleFinish;
      forall k: nat | 0 < k <= |es| ensures ExclusiveAt(fleet, s, es, k) == ExclusiveAt(fleet, r, es[1..], k - 1) {
        RunPrefix(fleet, s, es, k);
      }
      if StaleFinish(s, e) {
        assert !ExclusiveAt(fleet, r, es[1..], 0) by { assert Run(fleet, r, es[1..][..0]) == r; }
        assert !ExclusiveAt(fleet, s, es, 1);
      } else {
        NeverStaleIff(jobs, fleet, r, es[1..]);
        assert NeverStale(fleet, s, es) == NeverStale(fleet, r, es[1..]);
        hide Run, NeverStale, ExclusiveAt;
        ShiftedPrefixes(fleet, s, r, es);
      }
    }
  }

  lemma ShiftedPrefixes(fleet: Fleet, s: State, r: State, es: seq<Event>)
    requires es != [] && ExclusiveAt(fleet, s, es, 0)
    requires forall k: nat :: 0 < k <= |es| ==> ExclusiveAt(fleet, s, es, k) == ExclusiveAt(fleet, r, es[1..], k - 1)
    ensures (forall k: nat :: k <= |es| ==> ExclusiveAt(fleet, s, es, k))
      <==> (forall k: nat :: k <= |es[1..]| ==> ExclusiveAt(fleet, r, es[1..], k))
  {
    hide ExclusiveAt;
    if forall k: nat :: k <= |es| ==> ExclusiveAt(fleet, s, es, k) {
      forall k: nat | k <= |es[1..]| ensures ExclusiveAt(fleet, r, es[1..], k) {
        assert ExclusiveAt(fleet, s, es, k + 1);
      }
    }
  }

  lemma OnePlaceIff(jobs: set<Job>, s: State)
    requires Accounted(jobs, s)
    ensures Exclusive(s) <==> forall j :: j in jobs ==> Places(s, j) == 1
  {
    forall j ensures Places(s, j) == Copies(s)[j] + if j in Finished(s.store) then 1 else 0 { PlacesAre(s, j); }
    hide Places, Copies, Finished;
    if !Exclusive(s) {
      var j :| j in Copies(s) && j in Finished(s.store);
      assert j in jobs && Places(s, j) == 2;
    }
  }

  /** From distinct jobs, a run leaves every job in exactly one place at all times exactly
      when it has no stale finish. */
  lemma JobConservationIff(jobs: seq<Job>, pods: set<Pod>, fleet: Fleet, es: seq<Event>)
    requires NoDup(jobs)
    ensures NeverStale(fleet, Start(jobs, pods), es) <==>
      forall k: nat, j :: k <= |es| && j in jobs ==> Places(Run(fleet, Start(jobs, pods), es[..k]), j) == 1
  {
    var s, all := Start(jobs, pods), Elements(jobs);
    AccountedStart(jobs, pods);
    assert Exclusive(s);
    NeverStaleIff(all, fleet, s, es);
    forall k: nat | k <= |es|
      ensures ExclusiveAt(fleet, s, es, k) <==> forall j :: j in jobs ==> Places(Run(fleet, s, es[..k]), j) == 1
    {
      NoJobLost(all, fleet, s, es[..k]);
      OnePlaceIff(all, Run(fleet, s, es[..k]));
      hide Places, Run, Accounted;
      assert forall j :: j in jobs <==> j in all;
    }
    hide Places, Run, NeverStale, ExclusiveAt, Accounted;
  }

  // ----- the calls of one procedure with nothing in between -----

  ghost predicate OnlyMonitor(es: seq<Event>) { forall e :: e in es ==> e.Monitor? }

  lemma LremStep(fleet: Fleet, s: State, e: Event)
    requires e.Monitor? && s.pc.OrphanLrem? && s.l.orphans != []
    ensures Apply(fleet, s, e)
      == s.(pc := if s.l.orphans[0] in s.store.progress then OrphanLpush else OrphanHdel,
            store := Lrem(s.store, s.l.orphans[0]))
  {
    hide ViewOf, ToMark, Sorted, Orphans, Lrem, Active;
  }

  lemma LpushStep(fleet: Fleet, s: State, e: Event)
    requires e.Monitor? && s.pc.OrphanLpush? && s.l.orphans != []
    ensures Apply(fleet, s, e) == s.(pc := OrphanHdel, store := Lpush(s.store, s.l.orphans[0]))
  {
    hide ViewOf, ToMark, Sorted, Orphans, Lpush, Active;
  }

  lemma HdelStep(fleet: Fleet, s: State, e: Event)
    requires e.Monitor? && s.pc.OrphanHdel? && s.l.orphans != []
    ensures var r := Apply(fleet, s, e);
      r.store == Hdel(s.store, s.l.orphans[0]) && r.l.orphans == s.l.orphans[1..]
  {
    hide ViewOf, ToMark, Sorted, Orphans, Hdel, Active;
  }

  lemma RunTwo(fleet: Fleet, s: State, e: Event, f: Event)
    ensures Run(fleet, s, [e, f]) == Apply(fleet, Apply(fleet, s, e), f)
  {
    hide Apply;
    assert [e, f][1..] == [f] && [f][1..] == [];
    assert Run(fleet, Apply(fleet, s, e), [f]) == Run(fleet, Apply(fleet, Apply(fleet, s, e), f), []);
  }

  /** Two or three calls in a row requeue the next orphan as requeue_job does alone. */
  lemma RequeueUninterrupted(fleet: Fleet, s: State, e: Event, f: Event, g: Event)
    requires s.pc.OrphanLrem? && s.l.orphans != [] && e.Monitor? && f.Monitor? && g.Monitor?
    ensures var r := Run(fleet, s, if s.l.orphans[0] in s.store.progress then [e, f, g] else [e, f]);
      r.store == Requeued(s.store, s.l.orphans[0]) && r.l.orphans == s.l.orphans[1..]
  {
    hide Apply, Lrem, Lpush, Hdel;
    var o := s.l.orphans[0];
    LremStep(fleet, s, e);
    var a := Apply(fleet, s, e);
    if o in s.store.progress {
      LpushStep(fleet, a, f);
      HdelStep(fleet, Apply(fleet, a, f), g);
      assert [e, f, g][1..] == [f, g];
      RunTwo(fleet, a, f, g);
    } else {
      LremAbsent(s.store, o);
      HdelStep(fleet, a, f);
      RunTwo(fleet, s, e, f);
    }
  }

  lemma LremAbsent(s: Store, job: Job)
    requires job !in s.progress
    ensures Lrem(s, job) == s
  {
    RemoveLastIs(s.progress, job);
  }

  lemma RetryTwoCalls(fleet: Fleet, s: State, e: Event, f: Event)
    requires s.pc.RetryTest? && s.store.progress != [] && e.Monitor? && f.Monitor?
    ensures Apply(fleet, Apply(fleet, s, e), f) == s.(store := Lmove(s.store))
  {
    hide ViewOf, ToMark, Sorted, Orphans, Lmove, Active;
  }

  lemma RetryEnds(fleet: Fleet, s: State, e: Event)
    requires s.pc.RetryTest? && s.store.progress == [] && e.Monitor?
    ensures Apply(fleet, s, e) == s.(pc := DropOwners)
  {
    hide ViewOf, ToMark, Sorted, Orphans, Active;
  }

  lemma LmoveFront(s: Store)
    requires s.progress != []
    ensures var r := Lmove(s);
      && |r.progress| == |s.progress| - 1 && r.progress + r.queue == s.progress + s.queue
      && r == s.(progress := r.progress, queue := r.queue)
  {
    var k := |s.progress| - 1;
    assert s.progress == s.progress[..k] + [s.progress[k]];
  }

  lemma RunFromThird(fleet: Fleet, s: State, es: seq<Event>)
    requires |es| >= 2
    ensures Run(fleet, s, es) == Run(fleet, Apply(fleet, Apply(fleet, s, es[0]), es[1]), es[2..])
  {
    hide Apply;
    assert es[1..][1..] == es[2..];
    assert Run(fleet, s, es) == Run(fleet, Apply(fleet, s, es[0]), es[1..]);
  }

  /** Test and move calls in a row empty the progress list in front of the queue, keeping
      the order, as retry_jobs_in_progress does alone. */
  lemma {:induction false} RetryUninterrupted(fleet: Fleet, s: State, es: seq<Event>)
    requires s.pc.RetryTest? && OnlyMonitor(es) && |es| == 2 * |s.store.progress| + 1
    ensures Run(fleet, s, es)
      == s.(pc := DropOwners, store := s.store.(queue := s.store.progress + s.store.queue, progress := []))
    decreases |s.store.progress|
  {
    assert es[0] in es;
    var p := s.store.progress;
    if p == [] {
      RetryEnds(fleet, s, es[0]);
      assert Run(fleet, Apply(fleet, s, es[0]), es[1..]) == Apply(fleet, s, es[0]);
    } else {
      assert es[1] in es;
      RetryTwoCalls(fleet, s, es[0], es[1]);
      var t := s.(store := Lmove(s.store));
      LmoveFront(s.store);
      hide Apply, Lmove;
      RunFromThird(fleet, s, es);
      assert forall e :: e in es[2..] ==> e in es;
      RetryUninterrupted(fleet, t, es[2..]);
    }
  }
}
