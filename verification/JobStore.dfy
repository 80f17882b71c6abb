/** The Redis lists, sets and hash that the parallel-catchup job monitor shares with its
    workers, and the monitor's two queue-repairing procedures run alone. */
module JobStore {
  import opened Text

  type Job = string
  type Pod = string

  datatype Store = Store(
    queue: seq<Job>,
    progress: seq<Job>,
    succeeded: set<Job>,
    failed: set<(Job, Pod)>,
    owners: map<Job, Pod>,
    retiring: set<Pod>)

  // ----- Redis commands on the value of the store -----

  /** LREM with count -1: the last occurrence goes. */
  function RemoveLast(q: seq<Job>, job: Job): seq<Job> {
    if q == [] then []
    else
      var k := |q| - 1;
      if q[k] == job then q[..k] else RemoveLast(q[..k], job) + [q[k]]
  }

  lemma {:induction false} RemoveLastIs(q: seq<Job>, job: Job)
    ensures multiset(RemoveLast(q, job)) == multiset(q) - multiset{job}
    ensures job !in q ==> RemoveLast(q, job) == q
  {
    if q != [] {
      var k := |q| - 1;
      assert q == q[..k] + [q[k]];
      RemoveLastIs(q[..k], job);
      if q[k] != job { RemoveLastKeeps(q[..k], job, q[k]); }
    }
  }

  /** It is the last occurrence that goes. */
  lemma {:induction false} RemovesLast(q: seq<Job>, job: Job) returns (k: nat)
    requires job in q
    ensures k < |q| && q[k] == job && job !in q[k + 1..] && RemoveLast(q, job) == q[..k] + q[k + 1..]
  {
    var n := |q| - 1;
    if q[n] == job {
      k := n;
      assert q[n + 1..] == [];
    } else {
      k := RemovesLast(q[..n], job);
      assert q[k + 1..] == q[..n][k + 1..] + [q[n]];
      assert q[..n][..k] == q[..k];
    }
  }

  lemma RemoveLastKeeps(q: seq<Job>, job: Job, last: Job)
    requires last != job && multiset(RemoveLast(q, job)) == multiset(q) - multiset{job}
    ensures multiset(RemoveLast(q, job) + [last]) == multiset(q + [last]) - multiset{job}
  {
  }

  function Lrem(s: Store, job: Job): Store { s.(progress := RemoveLast(s.progress, job)) }

  function Lpush(s: Store, job: Job): Store { s.(queue := [job] + s.queue) }

  /** LMOVE from the right of the progress list to the left of the job queue. */
  function Lmove(s: Store): Store {
    if s.progress == [] then s
    else
      var k := |s.progress| - 1;
      s.(progress := s.progress[..k], queue := [s.progress[k]] + s.queue)
  }

  function Hdel(s: Store, job: Job): Store { s.(owners := s.owners - {job}) }

  /** The claim script: LMOVE from the left of the queue to the left of the progress list,
      and HSET of the owner. */
  function ClaimScript(s: Store, pod: Pod): Store
    requires s.queue != []
  {
    var job := s.queue[0];
    s.(queue := s.queue[1..], progress := [job] + s.progress, owners := s.owners[job := pod])
  }

  /** The transaction that ends a job. */
  function FinishTransaction(s: Store, pod: Pod, job: Job, ok: bool): Store {
    var s' := if ok then s.(succeeded := s.succeeded + {job})
              else s.(failed := s.failed + {(job, pod)});
    Hdel(Lrem(s', job), job)
  }

  function Finished(s: Store): set<Job> { s.succeeded + (set f | f in s.failed :: f.0) }

  /** requeue_job when nothing happens between its calls. */
  function Requeued(s: Store, job: Job): Store {
    Hdel(if job in s.progress then Lpush(Lrem(s, job), job) else s, job)
  }

  // ----- the shared data as the procedures change it -----

  class Redis {
    var queue: seq<Job>
    var progress: seq<Job>
    var succeeded: set<Job>
    var failed: set<(Job, Pod)>
    var owners: map<Job, Pod>
    var retiring: set<Pod>

    constructor (jobs: seq<Job>)
      ensures Value() == Store(jobs, [], {}, {}, map[], {})
    {
      queue, progress, succeeded, failed, owners, retiring := jobs, [], {}, {}, map[], {};
    }

    function Value(): Store
      reads this
    {
      Store(queue, progress, succeeded, failed, owners, retiring)
    }

    method LremProgress(job: Job) returns (n: nat)
      modifies this`progress
      ensures n == if job in old(progress) then 1 else 0
      ensures Value() == Lrem(old(Value()), job)
    {
      n := if job in progress then 1 else 0;
      progress := RemoveLast(progress, job);
    }

    method LpushQueue(job: Job)
      modifies this`queue
      ensures Value() == Lpush(old(Value()), job)
    {
      queue := [job] + queue;
    }

    method LlenProgress() returns (n: nat)
      ensures n == |progress|
    {
      n := |progress|;
    }

    method LmoveBack()
      modifies this`queue, this`progress
      ensures Value() == Lmove(old(Value()))
    {
      if progress != [] {
        var job := progress[|progress| - 1];
        progress := progress[..|progress| - 1];
        queue := [job] + queue;
      }
    }

    method HdelOwner(job: Job)
      modifies this`owners
      ensures Value() == Hdel(old(Value()), job)
    {
      owners := owners - {job};
    }

    /** A job in progress goes to the front of the queue, any other job stays where it is,
        and the owner is dropped either way. */
    method RequeueJob(job: Job)
      modifies this
      ensures Value() == Requeued(old(Value()), job)
    {
      var removed := LremProgress(job);
      if removed == 1 { LpushQueue(job); } else { RemoveLastIs(old(progress), job); }
      HdelOwner(job);
    }

    /** Every job in progress goes back in front of the queue, in order; nothing else
        changes. */
    method RetryJobsInProgress()
      modifies this
      ensures Value() == old(Value()).(queue := old(progress) + old(queue), progress := [])
    {
      var n := LlenProgress();
      while n > 0
        invariant n == |progress|
        invariant progress + queue == old(progress) + old(queue)
        invariant Value() == old(Value()).(queue := queue, progress := progress)
        decreases n
      {
        ghost var p, q := progress, queue;
        LmoveBack();
        assert p == p[..|p| - 1] + [p[|p| - 1]];
        n := LlenProgress();
      }
    }
  }

  // ----- what the procedures keep -----

  function Live(s: Store): multiset<Job> { multiset(s.queue) + multiset(s.progress) }

  /** Requeueing moves a job in progress and never brings back one that is not live. */
  lemma RequeueConserves(s: Store, job: Job)
    ensures Live(Requeued(s, job)) == Live(s)
    ensures Finished(Requeued(s, job)) == Finished(s)
    ensures job in s.progress ==> Requeued(s, job).queue == [job] + s.queue
    ensures job !in Requeued(s, job).owners
  {
    var r := Requeued(s, job);
    RemoveLastIs(s.progress, job);
    if job in s.progress {
      assert multiset(r.queue) == multiset{job} + multiset(s.queue);
      assert multiset(s.progress)[job] > 0;
    }
  }
}
