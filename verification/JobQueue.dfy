/** The job queue of v0.1/thread_pool.cc: a doubly linked list, filled at the head
    and drained at the tail, beside the semaphore that counts its jobs. */
module JobQueues {

  class Job {
    const function_: nat
    const arg: nat
    var prev: Job?
    var next: Job?

    constructor (function_: nat, arg: nat)
      ensures this.function_ == function_ && this.arg == arg
    {
      this.function_ := function_;
      this.arg := arg;
    }
  }

  ghost predicate Distinct(jobs: seq<Job>) {
    forall i, j | 0 <= i < j < |jobs| :: jobs[i] != jobs[j]
  }

  /** The job at position i, or null off either end. */
  ghost function JobAt(jobs: seq<Job>, i: int): Job? {
    if 0 <= i < |jobs| then jobs[i] else null
  }

  /** The links of a list laid out from tail to head: prev leads toward the head,
      next toward the tail, and both end in null. */
  ghost predicate Linked(jobs: seq<Job>)
    reads jobs
  {
    && (forall i {:trigger jobs[i].prev} | 0 <= i < |jobs| :: jobs[i].prev == JobAt(jobs, i + 1))
    && (forall i {:trigger jobs[i].next} | 0 <= i < |jobs| :: jobs[i].next == JobAt(jobs, i - 1))
  }

  class JobQueue {
    var number: int
    var head: Job?
    var tail: Job?
    var queueSem: nat
    ghost var jobs: seq<Job>    // the queue as a sequence, next to be taken first
    ghost var freed: seq<Job>   // every job passed to free() by Empty, in order

    ghost predicate Valid()
      reads this, jobs
    {
      && number == |jobs|
      && Distinct(jobs)
      && Linked(jobs)
      && tail == JobAt(jobs, 0)
      && head == JobAt(jobs, |jobs| - 1)
    }

    /** threadPool_jobQueue_init */
    constructor ()
      ensures Valid() && jobs == [] && queueSem == 0 && freed == []
    {
      number, head, tail, queueSem := 0, null, null, 0;
      jobs, freed := [], [];
    }

    /** threadPool_jobQueue_add: the new job goes in at the head and one token is
        posted. */
    method Add(newJob: Job)
      requires Valid() && newJob !in jobs
      modifies this, newJob, jobs
      ensures Valid() && freed == old(freed)
      ensures jobs == old(jobs) + [newJob]
      ensures queueSem == old(queueSem) + 1
    {
      newJob.next := null;
      newJob.prev := null;
      match number {
        case 0 =>
          head := newJob;
          tail := newJob;
        case _ =>
          newJob.next := head;
          head.prev := newJob;
          head := newJob;
      }
      jobs := jobs + [newJob];
      number := number + 1;
      queueSem := queueSem + 1;
    }

    /** threadPool_jobQueue_peek: the oldest job, or null. */
    method Peek() returns (job: Job?)
      requires Valid()
      ensures job == if jobs == [] then null else jobs[0]
    {
      job := tail;
    }

    /** threadPool_jobQueue_removeLast: -1 on an empty queue; otherwise 0, and the
        oldest job is unlinked but not freed. */
    method RemoveLast() returns (r: int)
      requires Valid()
      modifies this, jobs
      ensures Valid() && freed == old(freed) && queueSem == old(queueSem)
      ensures r == if old(jobs) == [] then -1 else 0
      ensures jobs == if old(jobs) == [] then [] else old(jobs)[1..]
    {
      var lastJob := tail;
      match number {
        case 0 =>
          return -1;
        case 1 =>
          head := null;
          tail := null;
        case _ =>
          assert lastJob == jobs[0] && lastJob.prev == jobs[1];
          tail := lastJob.prev;
          lastJob.prev.next := null;
      }
      ghost var rest := jobs[1..];
      assert forall i | 0 <= i < |rest| :: rest[i] == jobs[i + 1];
      jobs := rest;
      number := number - 1;
      return 0;
    }

    /** threadPool_jobQueue_empty: walks the prev links from the tail and frees
        every job once, oldest first. */
    method Empty()
      requires Valid()
      modifies this
      ensures Valid() && jobs == [] && queueSem == old(queueSem)
      ensures freed == old(freed) + old(jobs)
    {
      var curJob := tail;
      ghost var k := 0;
      while number > 0
        invariant 0 <= k <= |jobs| && number == |jobs| - k
        invariant jobs == old(jobs) && queueSem == old(queueSem)
        invariant Linked(jobs) && curJob == JobAt(jobs, k)
        invariant freed == old(freed) + jobs[..k]
        decreases number
      {
        tail := curJob.prev;
        freed := freed + [curJob];
        curJob := tail;
        number := number - 1;
        k := k + 1;
      }
      head := null;
      tail := null;
      jobs := [];
    }
  }
}
