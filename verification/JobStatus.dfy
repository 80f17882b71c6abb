/** The published status shows what the calls of its pass read. */
module JobStatus {
  import opened Text
  import opened JobStore
  import opened Marking
  import opened JobMonitor
  import opened JobHistory

  // ----- what a call read -----

  /** The k-th event is this call of that pass. */
  ghost predicate CallAt(fleet: Fleet, s: State, es: seq<Event>, k: nat, pc: Pc, pass: nat) {
    k < |es| && es[k].Monitor? && StateAt(fleet, s, es, k).pc == pc && StateAt(fleet, s, es, k).pass == pass
  }

  ghost predicate SawAt(fleet: Fleet, s: State, es: seq<Event>, k: nat, pc: Pc, pass: nat, found: Store) {
    CallAt(fleet, s, es, k, pc, pass) && StateAt(fleet, s, es, k).store == found
  }

  ghost predicate QueueRead(fleet: Fleet, s: State, es: seq<Event>, pc: Pc, pass: nat, remain: nat) {
    exists k: nat, found :: SawAt(fleet, s, es, k, pc, pass, found) && |found.queue| == remain
  }

  ghost predicate FailedRead(fleet: Fleet, s: State, es: seq<Event>, pass: nat, failed: set<(Job, Pod)>) {
    exists k: nat, found :: SawAt(fleet, s, es, k, ReadFailed, pass, found) && found.failed == failed
  }

  ghost predicate ProgressRead(fleet: Fleet, s: State, es: seq<Event>, pc: Pc, pass: nat, inProgress: seq<Job>) {
    exists k: nat, found :: SawAt(fleet, s, es, k, pc, pass, found) && found.progress == inProgress
  }

  lemma SawStays(fleet: Fleet, s: State, es: seq<Event>, e: Event)
    ensures forall k: nat, pc, pass, found ::
      SawAt(fleet, s, es, k, pc, pass, found) ==> SawAt(fleet, s, es + [e], k, pc, pass, found)
  {
    Earlier(fleet, s, es, e);
    hide Apply, Run, StateAt;
  }

  lemma SawNow(fleet: Fleet, s: State, es: seq<Event>, e: Event)
    ensures var p := Run(fleet, s, es);
      e.Monitor? ==> SawAt(fleet, s, es + [e], |es|, p.pc, p.pass, p.store)
  {
    Earlier(fleet, s, es, e);
    hide Apply, Run;
  }

  lemma ReadsStay(fleet: Fleet, s: State, es: seq<Event>, e: Event)
    ensures forall pc, pass, n: nat ::
      QueueRead(fleet, s, es, pc, pass, n) ==> QueueRead(fleet, s, es + [e], pc, pass, n)
    ensures forall pass, f :: FailedRead(fleet, s, es, pass, f) ==> FailedRead(fleet, s, es + [e], pass, f)
    ensures forall pc, pass, q ::
      ProgressRead(fleet, s, es, pc, pass, q) ==> ProgressRead(fleet, s, es + [e], pc, pass, q)
  {
    SawStays(fleet, s, es, e);
    hide SawAt;
  }

  lemma ReadsNow(fleet: Fleet, s: State, es: seq<Event>, e: Event)
    requires e.Monitor?
    ensures var p := Run(fleet, s, es);
      && QueueRead(fleet, s, es + [e], p.pc, p.pass, |p.store.queue|)
      && ProgressRead(fleet, s, es + [e], p.pc, p.pass, p.store.progress)
      && (p.pc.ReadFailed? ==> FailedRead(fleet, s, es + [e], p.pass, p.store.failed))
  {
    SawNow(fleet, s, es, e);
    hide SawAt, Run;
  }

  // ----- what the monitor remembers -----

  predicate Orphaning(pc: Pc) { pc in {OrphanLrem, OrphanLpush, OrphanHdel, RereadProgress, RereadQueue} }

  predicate Late(pc: Pc) { pc in {ReadRetiring, Mark, RetryTest, RetryMove, DropOwners, Publish} }

  lemma RemainStep(fleet: Fleet, s: State, e: Event)
    requires e.Monitor?
    ensures MonitorLocals(fleet, s, e).remain
      == if s.pc.ReadQueue? || s.pc.RereadQueue? then |s.store.queue| else s.l.remain
  {
    hide ToMark, ViewOf, Listing, Orphans, Active;
  }

  lemma FailedSetStep(fleet: Fleet, s: State, e: Event)
    requires e.Monitor?
    ensures MonitorLocals(fleet, s, e).failed == if s.pc.ReadFailed? then s.store.failed else s.l.failed
  {
    hide ToMark, ViewOf, Listing, Orphans, Active;
  }

  lemma HadOrphansStep(fleet: Fleet, s: State, e: Event)
    requires e.Monitor?
    ensures var l := MonitorLocals(fleet, s, e);
      l.hadOrphans == if s.pc.ReadOwners? then l.orphans != [] else s.l.hadOrphans
  {
    hide ToMark, ViewOf, Sorted, Orphans, Active, NoDup, Elements;
  }

  /** How the calls of a pass follow each other. */
  lemma PcStep(s: State, l: Locals, recovered: bool)
    ensures var p := MonitorPc(s, l, recovered);
      && (p.ReadQueue? <==> s.pc.Publish?)
      && (p.ReadFailed? <==> s.pc.ReadQueue?)
      && (p.ReadProgress? <==> s.pc.ReadFailed?)
      && (p.ReadOwners? <==> s.pc.ReadProgress?)
      && (Orphaning(p) ==> s.pc.ReadOwners? || Orphaning(s.pc))
      && (p.RereadQueue? <==> s.pc.RereadProgress?)
      && (s.pc.RereadQueue? ==> p.ReadRetiring?)
      && (Late(p) ==> Late(s.pc) || s.pc.RereadQueue? || (!l.hadOrphans && (s.pc.ReadOwners? || Orphaning(s.pc))))
      && (s.pc.ReadOwners? && Orphaning(p) && !p.RereadProgress? ==> l.orphans != [])
      && (p.RereadProgress? ==> l.hadOrphans)
  {
  }

  /** The call whose reading of the queue counts, and that of the progress list. */
  function QueueCall(again: bool): Pc { if again then RereadQueue else ReadQueue }

  function ProgressCall(again: bool): Pc { if again then RereadProgress else ReadProgress }

  ghost predicate Remembers(fleet: Fleet, s: State, es: seq<Event>, pc: Pc, l: Locals, pass: nat) {
    && (!pc.ReadQueue? ==> QueueRead(fleet, s, es, QueueCall(Late(pc) && l.hadOrphans), pass, l.remain))
    && (pc !in {ReadQueue, ReadFailed} ==> FailedRead(fleet, s, es, pass, l.failed))
    && (pc !in {ReadQueue, ReadFailed, ReadProgress} ==>
          ProgressRead(fleet, s, es, ProgressCall(pc.RereadQueue? || (Late(pc) && l.hadOrphans)), pass, l.inProgress))
    && (Orphaning(pc) ==> l.hadOrphans)
  }

  /** The status shows what the calls of its pass read: the failed set, and the queue and the
      progress list as they were read last, which is a second time after requeueing orphans. */
  ghost predicate Shows(fleet: Fleet, s: State, es: seq<Event>, status: Status) {
    && QueueRead(fleet, s, es, QueueCall(status.hadOrphans), status.pass, status.remain)
    && FailedRead(fleet, s, es, status.pass, status.failed)
    && ProgressRead(fleet, s, es, ProgressCall(status.hadOrphans), status.pass, status.inProgress)
  }

  lemma RemembersNext(fleet: Fleet, s: State, es: seq<Event>, e: Event, l: Locals, pc: Pc)
    requires e.Monitor? && !Run(fleet, s, es).pc.Publish?
    requires var p := Run(fleet, s, es);
      Remembers(fleet, s, es, p.pc, p.l, p.pass)
      && l == MonitorLocals(fleet, p, e) && pc == MonitorPc(p, l, e.recovered)
    ensures Remembers(fleet, s, es + [e], pc, l, Run(fleet, s, es).pass)
  {
    hide Run, MonitorLocals, MonitorPc, QueueRead, FailedRead, ProgressRead;
    var p := Run(fleet, s, es);
    RemainStep(fleet, p, e);
    FailedSetStep(fleet, p, e);
    HadOrphansStep(fleet, p, e);
    InProgressAfter(fleet, p, e);
    PcStep(p, l, e.recovered);
    ReadsStay(fleet, s, es, e);
    ReadsNow(fleet, s, es, e);
  }

  lemma StatusFields(fleet: Fleet, s: State, e: Event)
    requires e.Monitor?
    ensures var r := Apply(fleet, s, e);
      && r.l == MonitorLocals(fleet, s, e) && r.pc == MonitorPc(s, r.l, e.recovered)
      && r.pass == (if s.pc.Publish? then s.pass + 1 else s.pass)
      && (if s.pc.Publish? then
            && r.status.remain == r.l.remain && r.status.failed == r.l.failed && r.status.inProgress == r.l.inProgress
            && r.status.hadOrphans == r.l.hadOrphans && r.status.pass == s.pass
          else r.status == s.status)
  {
    hide MonitorLocals, MonitorPc, MonitorStore, Sorted, Active;
  }

  lemma ShowsStays(fleet: Fleet, s: State, es: seq<Event>, e: Event, status: Status)
    requires Shows(fleet, s, es, status)
    ensures Shows(fleet, s, es + [e], status)
  {
    hide QueueRead, FailedRead, ProgressRead;
    ReadsStay(fleet, s, es, e);
  }

  lemma RemembersStays(fleet: Fleet, s: State, es: seq<Event>, e: Event, pc: Pc, l: Locals, pass: nat)
    requires Remembers(fleet, s, es, pc, l, pass)
    ensures Remembers(fleet, s, es + [e], pc, l, pass)
  {
    hide QueueRead, FailedRead, ProgressRead;
    ReadsStay(fleet, s, es, e);
  }

  ghost predicate StatusInv(fleet: Fleet, s: State, es: seq<Event>) {
    var r := Run(fleet, s, es);
    && Remembers(fleet, s, es, r.pc, r.l, r.pass)
    && (r.status.pass > 0 ==> Shows(fleet, s, es, r.status))
  }

  lemma PublishShows(fleet: Fleet, s: State, es: seq<Event>, e: Event)
    requires e.Monitor? && Run(fleet, s, es).pc.Publish?
    requires var p := Run(fleet, s, es); Remembers(fleet, s, es, p.pc, p.l, p.pass)
    ensures var r := Apply(fleet, Run(fleet, s, es), e);
      Shows(fleet, s, es + [e], r.status) && Remembers(fleet, s, es + [e], r.pc, r.l, r.pass)
  {
    hide Run, Apply, MonitorLocals, MonitorPc, QueueRead, FailedRead, ProgressRead;
    var p := Run(fleet, s, es);
    StatusFields(fleet, p, e);
    var r := Apply(fleet, p, e);
    RemainStep(fleet, p, e);
    FailedSetStep(fleet, p, e);
    HadOrphansStep(fleet, p, e);
    InProgressAfter(fleet, p, e);
    PcStep(p, r.l, e.recovered);
    ReadsStay(fleet, s, es, e);
  }

  lemma StatusNext(fleet: Fleet, s: State, es: seq<Event>, e: Event)
    requires StatusInv(fleet, s, es)
    ensures StatusInv(fleet, s, es + [e])
  {
    RunAppend(fleet, s, es, e);
    var p := Run(fleet, s, es);
    hide Run, Apply, MonitorLocals, MonitorPc, Remembers, Shows;
    if p.status.pass > 0 { ShowsStays(fleet, s, es, e, p.status); }
    if e.Monitor? {
      StatusFields(fleet, p, e);
      if p.pc.Publish? {
        PublishShows(fleet, s, es, e);
      } else {
        RemembersNext(fleet, s, es, e, Apply(fleet, p, e).l, Apply(fleet, p, e).pc);
      }
    } else {
      WorkerStep(fleet, p, e);
      RemembersStays(fleet, s, es, e, p.pc, p.l, p.pass);
    }
  }

  lemma {:induction false} StatusRun(jobs: seq<Job>, pods: set<Pod>, fleet: Fleet, es: seq<Event>)
    ensures StatusInv(fleet, Start(jobs, pods), es)
    decreases |es|
  {
    if es == [] {
      assert Run(fleet, Start(jobs, pods), []) == Start(jobs, pods);
    } else {
      var before, e := Last(es);
      StatusRun(jobs, pods, fleet, before);
      StatusNext(fleet, Start(jobs, pods), before, e);
    }
  }

  /** In every interleaving the published status, once there is one, shows what its pass read. */
  lemma StatusIsRead(jobs: seq<Job>, pods: set<Pod>, fleet: Fleet, es: seq<Event>)
    ensures var status := Run(fleet, Start(jobs, pods), es).status;
      status.pass > 0 ==> Shows(fleet, Start(jobs, pods), es, status)
  {
    StatusRun(jobs, pods, fleet, es);
  }
}
