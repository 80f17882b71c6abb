/** When a marked worker can still come to own a job: from any state at all, the monitor's
    own calls bring a live job back into the queue for a claim that is under way. */
module JobReclaim {
  import opened Text
  import opened JobStore
  import opened Marking
  import opened JobMonitor
  import opened JobRetirement

  /** A call in which nobody is down, nothing resolves and a stuck pass finds its owners
      recovered. */
  function Calm(): Event { Monitor({}, {}, true, []) }

  /** How many calm calls it takes at most until the next pass starts or a job is queued. */
  function Wait(s: State): nat {
    var l := s.l;
    match s.pc
    case ReadQueue => 0
    case ReadFailed => 11 + 3 * |s.store.progress|
    case ReadProgress => 10 + 3 * |s.store.progress|
    case ReadOwners => 9 + 3 * |l.inProgress|
    case OrphanLrem => 8 + 3 * |l.orphans|
    case OrphanLpush => 7 + 3 * |l.orphans|
    case OrphanHdel => 6 + 3 * |l.orphans|
    case RereadProgress => 5
    case RereadQueue => 4
    case ReadRetiring => 3
    case Mark => 2
    case RetryTest => if s.store.progress == [] then 3 + |l.toDrop| else 5 + |l.toDrop|
    case RetryMove => 4 + |l.toDrop|
    case DropOwners => 2 + |l.toDrop|
    case Publish => 1
  }

  lemma {:induction false} OrphansShort(inProgress: seq<Job>, owners: map<Job, Pod>)
    ensures |Orphans(inProgress, owners)| <= |inProgress|
    ensures Orphans(inProgress, owners) == [] ==> forall j :: j in inProgress ==> j in owners
  {
    if inProgress != [] { OrphansShort(inProgress[1..], owners); }
  }

  lemma WaitReading(fleet: Fleet, s: State)
    requires s.pc in {ReadFailed, ReadProgress, ReadOwners, RereadProgress, RereadQueue, ReadRetiring}
    ensures Wait(Apply(fleet, s, Calm())) < Wait(s)
  {
    hide ToMark, ViewOf, Sorted, Orphans, Active;
    ReadsOnly(s);
    OrphansShort(s.l.inProgress, s.store.owners);
    hide MonitorStore;
  }

  lemma WaitRepairing(fleet: Fleet, s: State)
    requires s.pc in {OrphanLrem, OrphanLpush, OrphanHdel}
    ensures Wait(Apply(fleet, s, Calm())) < Wait(s)
  {
    hide ToMark, ViewOf, Sorted, Orphans, Active, RemoveLast;
  }

  lemma WaitRetrying(fleet: Fleet, s: State)
    requires s.pc in {RetryTest, RetryMove}
    ensures var r := Apply(fleet, s, Calm()); r.store.queue != [] || Wait(r) < Wait(s)
  {
    assert MonitorLocals(fleet, s, Calm()) == s.l by { hide ToMark, ViewOf, Sorted, Orphans, Active; }
    hide MonitorLocals, ToMark, ViewOf, Sorted, Orphans, Active, Elements;
  }

  lemma WaitEnding(fleet: Fleet, s: State)
    requires s.pc in {Mark, DropOwners, Publish}
    ensures Wait(Apply(fleet, s, Calm())) < Wait(s)
  {
    hide MonitorStore, ToMark, ViewOf, Sorted, Orphans, Active, Elements;
  }

  lemma WaitStep(fleet: Fleet, s: State)
    requires !s.pc.ReadQueue?
    ensures var r := Apply(fleet, s, Calm());
      r.workers == s.workers && (r.store.queue != [] || Wait(r) < Wait(s))
  {
    hide Wait, MonitorStore, MonitorLocals, MonitorPc;
    if s.pc in {OrphanLrem, OrphanLpush, OrphanHdel} {
      WaitRepairing(fleet, s);
    } else if s.pc in {RetryTest, RetryMove} {
      WaitRetrying(fleet, s);
    } else if s.pc in {Mark, DropOwners, Publish} {
      WaitEnding(fleet, s);
    } else {
      WaitReading(fleet, s);
    }
  }

  lemma ReachesBoth(fleet: Fleet, s: State, r: State, t: State)
    requires Reaches(fleet, s, r) && Reaches(fleet, r, t)
    ensures Reaches(fleet, s, t)
  {
    var es :| Run(fleet, s, es) == r;
    var fs :| Run(fleet, r, fs) == t;
    RunConcat(fleet, s, es, fs);
  }

  lemma CalmCopies(fleet: Fleet, s: State)
    ensures Copies(Apply(fleet, s, Calm())) == Copies(s)
  {
    StepCopies(fleet, s, Calm());
  }

  /** The monitor reaches the start of a pass, or queues a job before. */
  lemma ToNextPass(fleet: Fleet, s: State) returns (r: State)
    ensures Reaches(fleet, s, r) && r.workers == s.workers
    ensures r.store.queue != [] || (r.pc.ReadQueue? && Copies(r) == Copies(s))
    decreases Wait(s)
  {
    Begins(fleet, s);
    if s.pc.ReadQueue? || s.store.queue != [] {
      r := s;
    } else {
      var t := Apply(fleet, s, Calm());
      Then(fleet, s, s, Calm());
      WaitStep(fleet, s);
      CalmCopies(fleet, s);
      hide Apply, Reaches, Copies, Wait;
      if t.store.queue != [] {
        r := t;
      } else {
        r := ToNextPass(fleet, t);
        ReachesBoth(fleet, s, t, r);
      }
    }
  }

  /** The readings that open a pass. */
  lemma OpensPass(fleet: Fleet, s: State) returns (r: State)
    requires s.pc.ReadQueue?
    ensures Reaches(fleet, s, r) && r.workers == s.workers && r.store == s.store
    ensures r.l.inProgress == s.store.progress && r.l.owners == s.store.owners
    ensures r.l.orphans == Orphans(s.store.progress, s.store.owners)
    ensures r.pc == (if r.l.orphans != [] then OrphanLrem else ReadRetiring)
  {
    hide ToMark, ViewOf, Sorted, Orphans, Active;
    var e := Calm();
    var a := Apply(fleet, s, e);
    var b := Apply(fleet, a, e);
    var c := Apply(fleet, b, e);
    r := Apply(fleet, c, e);
    Begins(fleet, s);
    Then(fleet, s, s, e);
    Then(fleet, s, a, e);
    Then(fleet, s, b, e);
    Then(fleet, s, c, e);
    hide Reaches;
  }

  /** With all owners down for good and something in progress the pass decides to retry. */
  lemma DecidesRetry(fleet: Fleet, s: State) returns (r: State)
    requires s.pc.ReadRetiring? && s.l.inProgress != [] && Active(s.l) != {}
    ensures Reaches(fleet, s, r) && r.workers == s.workers && r.pc.RetryTest?
    ensures r.store == s.store.(retiring := r.store.retiring)
  {
    hide ToMark, ViewOf, Sorted, Orphans, Elements, Active;
    var e := Monitor(Active(s.l), {}, false, []);
    var a := Apply(fleet, s, e);
    r := Apply(fleet, a, e);
    Begins(fleet, s);
    Then(fleet, s, s, e);
    Then(fleet, s, a, e);
    hide Reaches;
  }

  lemma MovesOne(fleet: Fleet, s: State) returns (r: State)
    requires s.pc.RetryTest? && s.store.progress != []
    ensures Reaches(fleet, s, r) && r.workers == s.workers && r.store.queue != []
  {
    var e := Calm();
    RetryTwoCalls(fleet, s, e, e);
    Begins(fleet, s);
    Then(fleet, s, s, e);
    Then(fleet, s, Apply(fleet, s, e), e);
    r := Apply(fleet, Apply(fleet, s, e), e);
  }

  lemma PushesOrphan(fleet: Fleet, s: State) returns (r: State)
    requires s.pc.OrphanLrem? && s.l.orphans != [] && s.l.orphans[0] in s.store.progress
    ensures Reaches(fleet, s, r) && r.workers == s.workers && r.store.queue != []
  {
    var e := Calm();
    LremStep(fleet, s, e);
    var a := Apply(fleet, s, e);
    LpushStep(fleet, a, e);
    r := Apply(fleet, a, e);
    Begins(fleet, s);
    Then(fleet, s, s, e);
    Then(fleet, s, a, e);
  }

  /** A pass that starts with a job in progress can bring one back: an orphan is requeued,
      or all owners are down and the pass retries. */
  lemma PassQueues(fleet: Fleet, s: State) returns (r: State)
    requires s.pc.ReadQueue? && s.store.progress != []
    ensures Reaches(fleet, s, r) && r.workers == s.workers && r.store.queue != []
  {
    var a := OpensPass(fleet, s);
    OrphansShort(s.store.progress, s.store.owners);
    hide Reaches, Orphans;
    if a.l.orphans != [] {
      assert a.l.orphans[0] in a.l.orphans;
      r := PushesOrphan(fleet, a);
      ReachesBoth(fleet, s, a, r);
    } else {
      var j := s.store.progress[0];
      assert j in a.l.owners && a.l.owners[j] in Active(a.l);
      var b := DecidesRetry(fleet, a);
      ReachesBoth(fleet, s, a, b);
      r := MovesOne(fleet, b);
      ReachesBoth(fleet, s, b, r);
    }
  }

  /** From any state with a live job the monitor alone can fill the queue. */
  lemma QueueFills(fleet: Fleet, s: State) returns (r: State)
    requires Copies(s) != multiset{}
    ensures Reaches(fleet, s, r) && r.workers == s.workers && r.store.queue != []
  {
    var a := ToNextPass(fleet, s);
    if a.store.queue != [] {
      r := a;
    } else {
      CopiesSeen(a);
      r := PassQueues(fleet, a);
      ReachesBoth(fleet, s, a, r);
    }
  }

  lemma OwnsAfterClaim(fleet: Fleet, s: State, w: Pod)
    requires MidClaim(s, w) && Copies(s) != multiset{}
    ensures !NeverOwns(fleet, s, w)
  {
    var a := QueueFills(fleet, s);
    assert MidClaim(a, w);
    Then(fleet, s, a, Claim(w));
    var r := Apply(fleet, a, Claim(w));
    assert r.store.owners[a.store.queue[0]] == w;
    assert Owns(r, w);
    var es :| Run(fleet, s, es) == r;
  }

  lemma OnlyClaimsOwn(fleet: Fleet, s: State, e: Event, w: Pod)
    ensures Owns(Apply(fleet, s, e), w) ==> Owns(s, w) || s.store.queue != []
  {
    if Owns(Apply(fleet, s, e), w) { OwnsAfter(fleet, s, e, w); }
  }

  /** With no live job nobody comes to own one. */
  lemma {:induction false} NothingToOwn(fleet: Fleet, s: State, es: seq<Event>, w: Pod)
    requires Copies(s) == multiset{} && !Owns(s, w)
    ensures !Owns(Run(fleet, s, es), w)
    decreases es
  {
    if es != [] {
      var r := Apply(fleet, s, es[0]);
      StepCopies(fleet, s, es[0]);
      CopiesSeen(s);
      OnlyClaimsOwn(fleet, s, es[0], w);
      NothingToOwn(fleet, r, es[1..], w);
    }
  }

  /** From any state at all: a marked worker never owns a job from there on exactly when it
      owns none and either is not between its check and its claim or no job is live. */
  lemma NeverOwnsIff(fleet: Fleet, s: State, w: Pod)
    requires w in s.store.retiring
    ensures NeverOwns(fleet, s, w) <==> !Owns(s, w) && (!MidClaim(s, w) || Copies(s) == multiset{})
  {
    assert Run(fleet, s, []) == s;
    if Owns(s, w) {
      assert Owns(Run(fleet, s, []), w);
    } else if !MidClaim(s, w) {
      forall es ensures !Owns(Run(fleet, s, es), w) { RetiredForever(fleet, s, es, w); }
    } else if Copies(s) == multiset{} {
      forall es ensures !Owns(Run(fleet, s, es), w) { NothingToOwn(fleet, s, es, w); }
    } else {
      OwnsAfterClaim(fleet, s, w);
    }
  }

  /** In every interleaving, for a worker that is published as retirable: deleting its pod
      now interrupts no owner, and would interrupt none later, exactly on that condition. */
  lemma DeletionIsSafeIff(jobs: seq<Job>, pods: set<Pod>, fleet: Fleet, es: seq<Event>, w: Pod)
    requires w in Run(fleet, Start(jobs, pods), es).status.retirable
    ensures var s := Run(fleet, Start(jobs, pods), es);
      NeverOwns(fleet, s, w) <==> !Owns(s, w) && (!MidClaim(s, w) || Copies(s) == multiset{})
  {
    RetirableWasMarked(jobs, pods, fleet, es, w);
    NeverOwnsIff(fleet, Run(fleet, Start(jobs, pods), es), w);
  }
}
