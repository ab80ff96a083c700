/** The worker pool of v0.1/thread_pool.cc as a step system: any number of workers
    and submitters share a mutex, a counting semaphore, the keep-alive flag and the
    job queue; one thread may destroy the pool. A step is one access to shared state. */
module WorkerPool {

  /** Where a thread stands. Jobs are numbered in the order they were allocated. */
  datatype Pc =
      // threadPool_job_do
    | LoopHead                 // about to test keepAlive in the while
    | SemWait                  // at sem_wait
    | Recheck                  // past sem_wait, about to test keepAlive again
    | Lock                     // about to take the mutex
    | Peek                     // holds the mutex, about to read the tail
    | Remove(job: nat)         // holds the mutex, about to unlink the job
    | Unlock(job: nat)
    | Run(job: nat)
    | Free(job: nat)
    | Exited
    | Crashed                  // read through a null tail
      // threadPool_add_work
    | Idle
    | AddLock(job: nat)
    | Append(job: nat)         // holds the mutex
    | Post                     // holds the mutex, job linked, token not yet posted
    | AddUnlock

  datatype Destroyer = NotBegun | Posting(left: nat) | Joining(next: nat) | Emptying | Finished

  datatype Holder = Nobody | Thread(id: nat)

  datatype State = State(
    workers: nat,             // threads 0 .. workers-1 are workers, the rest submit
    threads: seq<Pc>,
    keepAlive: bool,
    sem: nat,
    queue: seq<nat>,          // oldest job first
    holder: Holder,
    destroyer: Destroyer,
    nextJob: nat,             // jobs allocated so far
    appended: seq<nat>,       // history: jobs in the order they were linked
    removed: seq<nat>,        // history: jobs in the order workers unlinked them
    ran: multiset<nat>,       // history: jobs whose function was called
    freedByWorker: multiset<nat>,
    freedByEmpty: multiset<nat>)

  /** Who takes the next step. */
  datatype Actor = ByThread(i: nat) | ByDestroyer

  /** threadPool_init's adjustment of the requested number of threads. */
  function PoolSize(number: int): (n: nat)
    ensures 1 <= n <= 50
    ensures 1 <= number <= 50 ==> n == number
  {
    if number < 1 then 20 else if number > 50 then 50 else number
  }

  function Init(workers: nat, submitters: nat): (s: State)
    requires 1 <= workers
    ensures |s.threads| == workers + submitters
  {
    State(workers, seq(workers + submitters, i => if i < workers then LoopHead else Idle),
          true, 0, [], Nobody, NotBegun, 0, [], [], multiset{}, multiset{}, multiset{})
  }

  /** Whether the thread at `pc` has to wait for the semaphore or the mutex, has
      ended, or is a submitter whose pool is gone. */
  predicate Blocked(s: State, pc: Pc) {
    || (pc.SemWait? && s.sem == 0)
    || ((pc.Lock? || pc.AddLock?) && s.holder != Nobody)
    || pc.Exited? || pc.Crashed?
    || (!IsWorkerPc(pc) && s.destroyer == Finished)
  }

  predicate IsWorkerPc(pc: Pc) {
    !(pc.Idle? || pc.AddLock? || pc.Append? || pc.Post? || pc.AddUnlock?)
  }

  predicate Enabled(s: State, a: Actor) {
    match a
    case ByThread(i) => i < |s.threads| && !Blocked(s, s.threads[i])
    case ByDestroyer =>
      match s.destroyer
      case Joining(k) => k == s.workers || (k < s.workers <= |s.threads| && s.threads[k] == Exited)
      case Finished => false
      case _ => true
  }

  function Next(s: State, a: Actor): State
    requires Enabled(s, a)
  {
    match a
    case ByThread(i) => ThreadStep(s, i)
    case ByDestroyer => DestroyerStep(s)
  }

  function ThreadStep(s: State, i: nat): State
    requires Enabled(s, ByThread(i))
  {
    Effect(s, i).(threads := s.threads[i := After(s, s.threads[i])])
  }

  /** Where a thread at `pc` goes. */
  function After(s: State, pc: Pc): Pc {
    match pc
    case LoopHead => if s.keepAlive then SemWait else Exited
    case SemWait => Recheck
    case Recheck => if s.keepAlive then Lock else LoopHead
    case Lock => Peek
    case Peek => if s.queue == [] then Crashed else Remove(s.queue[0])
    case Remove(job) => if s.queue == [] then Exited else Unlock(job)
    case Unlock(job) => Run(job)
    case Run(job) => Free(job)
    case Free(_) => LoopHead
    case Idle => AddLock(s.nextJob)
    case AddLock(job) => Append(job)
    case Append(_) => Post
    case Post => AddUnlock
    case AddUnlock => Idle
    case Exited => Exited
    case Crashed => Crashed
  }

  /** What thread i's step does to the shared state. */
  function Effect(s: State, i: nat): State
    requires Enabled(s, ByThread(i))
  {
    match s.threads[i]
    case SemWait => s.(sem := s.sem - 1)
    case Lock => s.(holder := Thread(i))
    case Remove(_) =>
      // a failing removeLast makes the worker return, which drops the mutex
      if s.queue == [] then s.(holder := Nobody)
      else s.(queue := s.queue[1..], removed := s.removed + [s.queue[0]])
    case Unlock(_) => s.(holder := Nobody)
    case Run(job) => s.(ran := s.ran + multiset{job})
    case Free(job) => s.(freedByWorker := s.freedByWorker + multiset{job})
    case Idle => s.(nextJob := s.nextJob + 1)
    case AddLock(_) => s.(holder := Thread(i))
    case Append(job) => s.(queue := s.queue + [job], appended := s.appended + [job])
    case Post => s.(sem := s.sem + 1)
    case AddUnlock => s.(holder := Nobody)
    case _ => s
  }

  function DestroyerStep(s: State): State
    requires Enabled(s, ByDestroyer)
  {
    match s.destroyer
    case NotBegun => s.(keepAlive := false, destroyer := Posting(s.workers + 1))
    case Posting(left) =>
      if left == 0 then s.(destroyer := Joining(0))
      else s.(sem := s.sem + 1, destroyer := Posting(left - 1))
    case Joining(k) => s.(destroyer := if k == s.workers then Emptying else Joining(k + 1))
    case Emptying => s.(freedByEmpty := s.freedByEmpty + multiset(s.queue), queue := [], destroyer := Finished)
  }

  /** t is what s becomes when the listed actors step in turn. */
  ghost predicate Reaches(s: State, actors: seq<Actor>, t: State)
    decreases |actors|
  {
    if actors == [] then s == t
    else Enabled(s, actors[0]) && Reaches(Next(s, actors[0]), actors[1..], t)
  }

  // ---------- counting threads ----------

  /** What is being added up over the threads. */
  datatype Tally =
    | PastWait        // took a token whose job is still in the queue
    | Committed       // passed both tests and will read the tail
    | Waiting         // at sem_wait
    | Unposted        // linked a job, token outstanding
    | Holding(j: nat) // owns job j outside the queue
    | Finishing(j: nat)
    | Steps           // steps a thread still has once keepAlive is off
    | Service         // steps a thread still has in service without another token

  function Weight(t: Tally, pc: Pc): nat {
    match t
    case PastWait => if pc.Recheck? || pc.Lock? || pc.Peek? || pc.Remove? then 1 else 0
    case Committed => if pc.Lock? || pc.Peek? || pc.Remove? then 1 else 0
    case Waiting => if pc.SemWait? then 1 else 0
    case Unposted => if pc.Post? then 1 else 0
    case Holding(j) =>
      if (pc.Unlock? || pc.Run? || pc.Free? || pc.AddLock? || pc.Append?) && pc.job == j then 1 else 0
    case Finishing(j) => if pc.Free? && pc.job == j then 1 else 0
    case Steps => StepsLeft(pc)
    case Service => ServiceStepsLeft(pc)
  }

  function StepsLeft(pc: Pc): nat {
    match pc
    case SemWait => 9
    case Recheck => 8
    case Lock => 7
    case Peek => 6
    case Remove(_) => 5
    case Unlock(_) => 4
    case Run(_) => 3
    case Free(_) => 2
    case LoopHead => 1
    case AddLock(_) => 4
    case Append(_) => 3
    case Post => 2
    case AddUnlock => 1
    case _ => 0
  }

  /** A thread about to post still has its token to give away, with nine steps in it. */
  function ServiceStepsLeft(pc: Pc): nat {
    match pc
    case SemWait => 0
    case AddLock(_) => 13
    case Append(_) => 12
    case Post => 11
    case _ => StepsLeft(pc)
  }

  function Total(t: Tally, threads: seq<Pc>): nat {
    if threads == [] then 0 else Weight(t, threads[0]) + Total(t, threads[1..])
  }

  lemma {:induction false} TotalUpdate(t: Tally, threads: seq<Pc>, i: nat, pc: Pc)
    requires i < |threads|
    ensures Total(t, threads[i := pc]) == Total(t, threads) - Weight(t, threads[i]) + Weight(t, pc)
    ensures Total(t, threads) >= Weight(t, threads[i])
    decreases i
  {
    if i == 0 {
      assert threads[0 := pc][1..] == threads[1..];
    } else {
      assert threads[i := pc][1..] == threads[1..][i - 1 := pc];
      TotalUpdate(t, threads[1..], i - 1, pc);
    }
  }

  lemma {:induction false} TotalZero(t: Tally, threads: seq<Pc>)
    requires forall i | 0 <= i < |threads| :: Weight(t, threads[i]) == 0
    ensures Total(t, threads) == 0
    decreases threads
  {
    if threads != [] {
      TotalZero(t, threads[1..]);
    }
  }

  lemma {:induction false} WaitingAtMost(threads: seq<Pc>, n: nat)
    requires forall i | n <= i < |threads| :: Weight(Waiting, threads[i]) == 0
    ensures Total(Waiting, threads) <= n
    decreases threads
  {
    if threads != [] {
      if n == 0 {
        TotalZero(Waiting, threads);
      } else {
        WaitingAtMost(threads[1..], n - 1);
      }
    }
  }

  // ---------- the invariant ----------

  predicate HoldsMutex(pc: Pc) {
    pc.Peek? || pc.Remove? || pc.Unlock? || pc.Append? || pc.Post? || pc.AddUnlock?
  }

  /** Threads keep their kind, none has crashed, and the mutex excludes. */
  ghost predicate Shape(s: State) {
    && 1 <= s.workers <= |s.threads|
    && (forall i {:trigger s.threads[i]} | 0 <= i < |s.threads| ::
          && (i < s.workers <==> IsWorkerPc(s.threads[i]))
          && !s.threads[i].Crashed?
          && (HoldsMutex(s.threads[i]) <==> s.holder == Thread(i)))
    && (s.holder.Thread? ==> s.holder.id < |s.threads|)
    && (s.keepAlive <==> s.destroyer == NotBegun)
  }

  /** While alive, every queued job has exactly one token, waiting in the semaphore,
      taken by a worker on its way, or about to be posted; afterwards at least the
      committed workers' jobs are there. */
  ghost predicate Tokens(s: State) {
    if s.keepAlive then |s.queue| == s.sem + Total(PastWait, s.threads) + Total(Unposted, s.threads)
    else |s.queue| >= Total(Committed, s.threads)
  }

  /** The job a worker peeked is still the oldest when it unlinks it. */
  ghost predicate Peeked(s: State) {
    forall i {:trigger s.threads[i]} | 0 <= i < |s.threads| && s.threads[i].Remove? ::
      s.queue != [] && s.queue[0] == s.threads[i].job
  }

  function PostsLeft(d: Destroyer): nat {
    if d.Posting? then d.left else 0
  }

  /** After destroy begins, tokens present and to come outnumber the waiters. */
  ghost predicate Released(s: State) {
    !s.keepAlive ==> s.sem + PostsLeft(s.destroyer) >= Total(Waiting, s.threads) + 1
  }

  /** Every allocated job is in exactly one place, exactly once. */
  ghost predicate Conserved(s: State) {
    forall j: nat :: Places(s, j) == if j < s.nextJob then 1 else 0
  }

  /** How often job j occurs in the queue, in threads' hands and among the freed. */
  ghost function Places(s: State, j: nat): nat {
    multiset(s.queue)[j] + Total(Holding(j), s.threads) + s.freedByWorker[j] + s.freedByEmpty[j]
  }

  /** A job was called exactly if its worker freed it or is about to. */
  ghost predicate RanThenFreed(s: State) {
    forall j: nat {:trigger Total(Finishing(j), s.threads)} ::
      s.ran[j] == s.freedByWorker[j] + Total(Finishing(j), s.threads)
  }

  /** Workers joined so far have exited. */
  ghost predicate Joined(s: State) {
    && (s.destroyer.Joining? ==> s.destroyer.next <= s.workers)
    && (forall i {:trigger s.threads[i]} | 0 <= i < s.workers && i < |s.threads| && i < JoinedCount(s) ::
          s.threads[i] == Exited)
    && (s.destroyer == Finished ==> s.queue == [])
  }

  function JoinedCount(s: State): nat {
    match s.destroyer
    case Joining(k) => k
    case Emptying => s.workers
    case Finished => s.workers
    case _ => 0
  }

  /** Jobs leave the queue in the order they entered it. */
  ghost predicate FifoOrder(s: State) {
    s.destroyer != Finished ==> s.appended == s.removed + s.queue
  }

  /** Until destroy begins no worker has gone, and no job was freed unrun. */
  ghost predicate Staffed(s: State) {
    s.keepAlive ==>
      && s.freedByEmpty == multiset{}
      && forall i {:trigger s.threads[i]} | 0 <= i < |s.threads| :: !s.threads[i].Exited?
  }

  ghost predicate Inv(s: State) {
    && Shape(s) && Tokens(s) && Peeked(s) && Released(s) && Conserved(s) && RanThenFreed(s) && Joined(s)
    && FifoOrder(s) && Staffed(s)
  }

  lemma InitInv(workers: nat, submitters: nat)
    requires 1 <= workers
    ensures Inv(Init(workers, submitters))
  {
    var s := Init(workers, submitters);
    forall t: Tally | t != Steps && t != Service
      ensures Total(t, s.threads) == 0
    {
      TotalZero(t, s.threads);
    }
  }

  lemma CommittedBound(s: State, i: nat)
    requires Shape(s) && Tokens(s) && i < |s.threads|
    requires s.threads[i].Lock? || s.threads[i].Peek? || s.threads[i].Remove?
    ensures s.queue != []
  {
    TotalUpdate(Committed, s.threads, i, Exited);
    TotalUpdate(PastWait, s.threads, i, Exited);
  }

  /** A worker that passed sem_wait and the second keep-alive test finds a job. */
  lemma CommittedWorkerFindsJob(s: State, i: nat)
    requires Inv(s) && i < |s.threads| && s.threads[i].Peek?
    ensures s.queue != [] && ThreadStep(s, i).threads[i] == Remove(s.queue[0])
  {
    CommittedBound(s, i);
  }

  /** The states a thread step can lead to, given that the queue holds a job for
      every committed worker. */
  lemma ThreadStepShape(s: State, i: nat)
    requires Shape(s) && Enabled(s, ByThread(i))
    requires s.threads[i].Peek? || s.threads[i].Remove? ==> s.queue != []
    ensures var s' := ThreadStep(s, i);
            && s'.threads == s.threads[i := s'.threads[i]]
            && s'.workers == s.workers && s'.keepAlive == s.keepAlive && s'.destroyer == s.destroyer
            && (IsWorkerPc(s'.threads[i]) <==> IsWorkerPc(s.threads[i]))
            && !s'.threads[i].Crashed?
            && (HoldsMutex(s'.threads[i]) <==> s'.holder == Thread(i))
            && (|| s'.holder == s.holder || (s'.holder == Thread(i) && s.holder == Nobody)
                || (s'.holder == Nobody && s.holder == Thread(i)))
  {
    assert HoldsMutex(s.threads[i]) <==> s.holder == Thread(i);
  }

  lemma ShapeKept(s: State, a: Actor)
    requires Shape(s) && Tokens(s) && Enabled(s, a)
    ensures Shape(Next(s, a))
  {
    if a.ByThread? {
      if s.threads[a.i].Peek? || s.threads[a.i].Remove? {
        CommittedBound(s, a.i);
      }
      ThreadStepShape(s, a.i);
      ShapeFromStep(s, Next(s, a), a.i);
    }
  }

  lemma ShapeFromStep(s: State, s': State, i: nat)
    requires Shape(s) && i < |s.threads| && |s'.threads| == |s.threads|
    requires s'.threads == s.threads[i := s'.threads[i]]
    requires s'.workers == s.workers && s'.keepAlive == s.keepAlive && s'.destroyer == s.destroyer
    requires IsWorkerPc(s'.threads[i]) <==> IsWorkerPc(s.threads[i])
    requires !s'.threads[i].Crashed?
    requires HoldsMutex(s'.threads[i]) <==> s'.holder == Thread(i)
    requires || s'.holder == s.holder || (s'.holder == Thread(i) && s.holder == Nobody)
             || (s'.holder == Nobody && s.holder == Thread(i))
    ensures Shape(s')
  {
    forall k | 0 <= k < |s'.threads|
      ensures k < s'.workers <==> IsWorkerPc(s'.threads[k])
      ensures !s'.threads[k].Crashed?
      ensures HoldsMutex(s'.threads[k]) <==> s'.holder == Thread(k)
    {
      assert s.threads[k] == s.threads[k];
    }
  }

  /** A thread's step moves that thread alone, and none of the pool's own state. */
  lemma ThreadFrame(s: State, i: nat)
    requires Enabled(s, ByThread(i))
    ensures var s' := ThreadStep(s, i);
            && s'.threads == s.threads[i := After(s, s.threads[i])]
            && s'.workers == s.workers && s'.keepAlive == s.keepAlive && s'.destroyer == s.destroyer
  {
    hide After, Blocked;
  }

  lemma PeekedKept(s: State, a: Actor)
    requires Shape(s) && Tokens(s) && Peeked(s) && Joined(s) && Enabled(s, a)
    ensures Peeked(Next(s, a))
  {
    match a
    case ByThread(i) =>
      if s.threads[i].Peek? { CommittedBound(s, i); }
      ThreadFrame(s, i);
      QueueFront(s, i);
      hide Tokens, Joined, ThreadStep;
    case ByDestroyer => hide Tokens;
  }

  /** The front of the queue only changes when its holder unlinks it, with the mutex held. */
  lemma QueueFront(s: State, i: nat)
    requires Enabled(s, ByThread(i))
    ensures var q, q' := s.queue, ThreadStep(s, i).queue;
            && (!s.threads[i].Remove? && q != [] ==> q' != [] && q'[0] == q[0])
            && (After(s, s.threads[i]).Remove? && s.threads[i].Peek? ==> q' == q)
            && (After(s, s.threads[i]).Remove? ==> s.threads[i].Peek? && q != [] && After(s, s.threads[i]).job == q[0])
  {
  }

  lemma TokensKept(s: State, a: Actor)
    requires Shape(s) && Tokens(s) && Peeked(s) && Joined(s) && Enabled(s, a)
    ensures Tokens(Next(s, a))
  {
    match a
    case ByThread(i) =>
      if s.threads[i].Peek? || s.threads[i].Remove? {
        CommittedBound(s, i);
      }
      ThreadStepTokens(s, i);
      TokensFromStep(s, Next(s, a), i);
    case ByDestroyer =>
      if s.destroyer == NotBegun {
        CommittedAtMostPast(s.threads);
      } else if s.destroyer == Emptying {
        AllExited(s);
      }
  }

  lemma AliveStepTokens(s: State, i: nat)
    requires Enabled(s, ByThread(i)) && s.keepAlive
    requires s.threads[i].Peek? || s.threads[i].Remove? ==> s.queue != []
    ensures var s' := ThreadStep(s, i);
            var old_, new_ := s.threads[i], After(s, s.threads[i]);
            |s'.queue| - s'.sem - Weight(PastWait, new_) - Weight(Unposted, new_) ==
            |s.queue| - s.sem - Weight(PastWait, old_) - Weight(Unposted, old_)
  {
  }

  lemma EndingStepTokens(s: State, i: nat)
    requires Enabled(s, ByThread(i)) && !s.keepAlive
    requires s.threads[i].Peek? || s.threads[i].Remove? ==> s.queue != []
    ensures var s' := ThreadStep(s, i);
            |s'.queue| - Weight(Committed, After(s, s.threads[i])) >= |s.queue| - Weight(Committed, s.threads[i])
  {
  }

  /** What one thread step does to tokens and queue, thread i's own share included. */
  lemma ThreadStepTokens(s: State, i: nat)
    requires Enabled(s, ByThread(i))
    requires s.threads[i].Peek? || s.threads[i].Remove? ==> s.queue != []
    ensures var s' := ThreadStep(s, i);
            var old_, new_ := s.threads[i], s'.threads[i];
            && s'.keepAlive == s.keepAlive && s'.threads == s.threads[i := new_]
            && (s.keepAlive ==>
                  |s'.queue| - s'.sem - Weight(PastWait, new_) - Weight(Unposted, new_) ==
                  |s.queue| - s.sem - Weight(PastWait, old_) - Weight(Unposted, old_))
            && (!s.keepAlive ==> |s'.queue| - Weight(Committed, new_) >= |s.queue| - Weight(Committed, old_))
  {
    ThreadFrame(s, i);
    if s.keepAlive { AliveStepTokens(s, i); } else { EndingStepTokens(s, i); }
    hide ThreadStep, After, Weight, Blocked;
  }

  lemma TokensFromStep(s: State, s': State, i: nat)
    requires Tokens(s) && i < |s.threads| == |s'.threads|
    requires s'.keepAlive == s.keepAlive && s'.threads == s.threads[i := s'.threads[i]]
    requires s.keepAlive ==>
               |s'.queue| - s'.sem - Weight(PastWait, s'.threads[i]) - Weight(Unposted, s'.threads[i]) ==
               |s.queue| - s.sem - Weight(PastWait, s.threads[i]) - Weight(Unposted, s.threads[i])
    requires !s.keepAlive ==>
               |s'.queue| - Weight(Committed, s'.threads[i]) >= |s.queue| - Weight(Committed, s.threads[i])
    ensures Tokens(s')
  {
    TotalUpdate(PastWait, s.threads, i, s'.threads[i]);
    TotalUpdate(Unposted, s.threads, i, s'.threads[i]);
    TotalUpdate(Committed, s.threads, i, s'.threads[i]);
  }

  lemma {:induction false} CommittedAtMostPast(threads: seq<Pc>)
    ensures Total(Committed, threads) <= Total(PastWait, threads)
    decreases threads
  {
    if threads != [] {
      CommittedAtMostPast(threads[1..]);
    }
  }

  /** Once every worker has been joined no thread is at any worker's point. */
  lemma AllExited(s: State)
    requires Shape(s) && Joined(s) && JoinedCount(s) == s.workers
    ensures Total(Committed, s.threads) == 0 && Total(Waiting, s.threads) == 0
  {
    TotalZero(Committed, s.threads);
    TotalZero(Waiting, s.threads);
  }

  /** A worker that stops waiting takes the token it waited for. */
  lemma WaitingStep(s: State, i: nat)
    requires Enabled(s, ByThread(i)) && !s.keepAlive
    ensures ThreadStep(s, i).sem - Weight(Waiting, After(s, s.threads[i])) >= s.sem - Weight(Waiting, s.threads[i])
  {
  }

  lemma ReleasedKept(s: State, a: Actor)
    requires Shape(s) && Released(s) && Enabled(s, a)
    ensures Released(Next(s, a))
  {
    match a
    case ByThread(i) =>
      ThreadFrame(s, i);
      TotalUpdate(Waiting, s.threads, i, After(s, s.threads[i]));
      if !s.keepAlive { WaitingStep(s, i); }
      hide ThreadStep, After, Weight, Total, Shape, Blocked;
    case ByDestroyer =>
      WaitingAtMost(s.threads, s.workers);
      hide Total, Weight;
  }

  lemma ConservedKept(s: State, a: Actor)
    requires Shape(s) && Tokens(s) && Peeked(s) && Conserved(s) && Enabled(s, a)
    ensures Conserved(Next(s, a))
  {
    var s' := Next(s, a);
    forall j: nat
      ensures Places(s', j) == if j < s'.nextJob then 1 else 0
    {
      assert Places(s, j) == if j < s.nextJob then 1 else 0;
      if a.ByThread? {
        if s.threads[a.i].Peek? || s.threads[a.i].Remove? {
          CommittedBound(s, a.i);
        }
        ThreadStepPlaces(s, a.i, j);
        TotalUpdate(Holding(j), s.threads, a.i, s'.threads[a.i]);
      }
    }
  }

  /** A thread step moves job j from one place to another, or allocates it. */
  lemma ThreadStepPlaces(s: State, i: nat, j: nat)
    requires Enabled(s, ByThread(i))
    requires s.threads[i].Peek? ==> s.queue != []
    requires s.threads[i].Remove? ==> s.queue != [] && s.queue[0] == s.threads[i].job
    ensures var s' := ThreadStep(s, i);
            && s'.threads == s.threads[i := s'.threads[i]]
            && s'.nextJob == (if s.threads[i] == Idle then s.nextJob + 1 else s.nextJob)
            && multiset(s'.queue)[j] + Weight(Holding(j), s'.threads[i]) + s'.freedByWorker[j] + s'.freedByEmpty[j] ==
               multiset(s.queue)[j] + Weight(Holding(j), s.threads[i]) + s.freedByWorker[j] + s.freedByEmpty[j]
               + (if s.threads[i] == Idle && s.nextJob == j then 1 else 0)
  {
    HandChange(s, s.threads[i], j);
    match s.threads[i]
    case Remove(job) => PopCount(s.queue, j);
    case Append(job) => PushCount(s.queue, job, j);
    case Free(job) => assert (s.freedByWorker + multiset{job})[j] == s.freedByWorker[j] + multiset{job}[j];
    case _ =>
  }

  lemma PopCount(q: seq<nat>, j: nat)
    requires q != []
    ensures multiset(q)[j] == (if q[0] == j then 1 else 0) + multiset(q[1..])[j]
  {
    assert q == [q[0]] + q[1..];
  }

  lemma PushCount(q: seq<nat>, x: nat, j: nat)
    ensures multiset(q + [x])[j] == multiset(q)[j] + if x == j then 1 else 0
  {
  }

  /** How a thread's step changes whether it has job j in hand. */
  lemma HandChange(s: State, pc: Pc, j: nat)
    requires !Blocked(s, pc)
    requires pc.Peek? || pc.Remove? ==> s.queue != []
    ensures Weight(Holding(j), After(s, pc)) - Weight(Holding(j), pc) ==
            match pc
            case Remove(job) => if job == j then 1 else 0
            case Free(job) => if job == j then -1 else 0
            case Idle => if s.nextJob == j then 1 else 0
            case Append(job) => if job == j then -1 else 0
            case _ => 0
  {
  }

  lemma ThreadStepRan(s: State, i: nat, j: nat)
    requires Enabled(s, ByThread(i))
    ensures var s' := ThreadStep(s, i);
            && s'.threads == s.threads[i := s'.threads[i]]
            && s'.ran[j] - s'.freedByWorker[j] - Weight(Finishing(j), s'.threads[i]) ==
               s.ran[j] - s.freedByWorker[j] - Weight(Finishing(j), s.threads[i])
  {
    var s' := ThreadStep(s, i);
    match s.threads[i]
    case Run(job) => assert s'.ran[j] == s.ran[j] + multiset{job}[j];
    case Free(job) => assert s'.freedByWorker[j] == s.freedByWorker[j] + multiset{job}[j];
    case _ =>
  }

  lemma RanThenFreedKept(s: State, a: Actor)
    requires RanThenFreed(s) && Enabled(s, a)
    ensures RanThenFreed(Next(s, a))
  {
    var s' := Next(s, a);
    forall j: nat
      ensures s'.ran[j] == s'.freedByWorker[j] + Total(Finishing(j), s'.threads)
    {
      assert s.ran[j] == s.freedByWorker[j] + Total(Finishing(j), s.threads);
      if a.ByThread? {
        ThreadStepRan(s, a.i, j);
        TotalUpdate(Finishing(j), s.threads, a.i, s'.threads[a.i]);
      }
    }
  }

  lemma JoinedKept(s: State, a: Actor)
    requires Shape(s) && Joined(s) && Enabled(s, a)
    ensures Joined(Next(s, a))
  {
    match a
    case ByThread(i) =>
      ThreadFrame(s, i);
      QueueAfterFinish(s, i);
      assert s.threads[i] != Exited;
      hide ThreadStep, After, Shape;
    case ByDestroyer =>
      var s' := Next(s, a);
      forall i | 0 <= i < s'.workers && i < |s'.threads| && i < JoinedCount(s')
        ensures s'.threads[i] == Exited
      {
        assert i < JoinedCount(s) ==> s.threads[i] == Exited;
      }
  }

  /** Once the pool is gone only workers could step, and they have all exited. */
  lemma NobodyLeft(s: State, i: nat)
    requires Shape(s) && Joined(s) && s.destroyer == Finished && i < |s.threads|
    ensures !Enabled(s, ByThread(i))
  {
    assert i < s.workers <==> IsWorkerPc(s.threads[i]);
    assert i < s.workers ==> s.threads[i] == Exited;
  }

  lemma QueueAfterFinish(s: State, i: nat)
    requires Shape(s) && Joined(s) && Enabled(s, ByThread(i))
    ensures s.destroyer != Finished
  {
    hide Shape, Joined, Blocked;
    if s.destroyer == Finished { NobodyLeft(s, i); }
  }

  lemma FifoOrderKept(s: State, a: Actor)
    requires FifoOrder(s) && Enabled(s, a)
    ensures FifoOrder(Next(s, a))
  {
    var s' := Next(s, a);
    hide After;
    if a.ByThread? && s.threads[a.i].Remove? && s.queue != [] {
      assert s.removed + s.queue == (s.removed + [s.queue[0]]) + s.queue[1..];
    } else if a.ByThread? && s.threads[a.i].Append? {
      assert (s.removed + s.queue) + [s.threads[a.i].job] == s.removed + (s.queue + [s.threads[a.i].job]);
    }
  }

  lemma StaffedKept(s: State, a: Actor)
    requires Shape(s) && Tokens(s) && Staffed(s) && Enabled(s, a)
    ensures Staffed(Next(s, a))
  {
    if a.ByThread? && s.keepAlive {
      if s.threads[a.i].Remove? {
        CommittedBound(s, a.i);
      }
      ThreadFrame(s, a.i);
      WorkerStays(s, a.i);
      hide ThreadStep, After, Shape, Tokens;
    }
  }

  lemma WorkerStays(s: State, i: nat)
    requires Enabled(s, ByThread(i)) && s.keepAlive && (s.threads[i].Remove? ==> s.queue != [])
    ensures After(s, s.threads[i]) != Exited && ThreadStep(s, i).freedByEmpty == s.freedByEmpty
  {
  }

  lemma StepKeepsInv(s: State, a: Actor)
    requires Inv(s) && Enabled(s, a)
    ensures Inv(Next(s, a))
  {
    ShapeKept(s, a);
    PeekedKept(s, a);
    TokensKept(s, a);
    ReleasedKept(s, a);
    ConservedKept(s, a);
    RanThenFreedKept(s, a);
    JoinedKept(s, a);
    FifoOrderKept(s, a);
    StaffedKept(s, a);
  }

  /** The invariant holds in every state any interleaving reaches. */
  lemma {:induction false} InvAlways(s: State, actors: seq<Actor>, t: State)
    requires Inv(s) && Reaches(s, actors, t)
    ensures Inv(t)
    decreases |actors|
  {
    if actors != [] {
      StepKeepsInv(s, actors[0]);
      InvAlways(Next(s, actors[0]), actors[1..], t);
    }
  }

  // ---------- main results ----------

  /** Over every interleaving of any pool: no worker reads a null tail, no two
      threads are in the critical section, jobs come out in submission order and
      none runs twice. */
  lemma NoWorkerCrashes(workers: nat, submitters: nat, actors: seq<Actor>, t: State)
    requires 1 <= workers && Reaches(Init(workers, submitters), actors, t)
    ensures forall i | 0 <= i < |t.threads| :: !t.threads[i].Crashed?
    ensures forall i | 0 <= i < |t.threads| && t.threads[i].Peek? :: t.queue != []
    ensures forall i, k | 0 <= i < |t.threads| && 0 <= k < |t.threads| &&
              HoldsMutex(t.threads[i]) && HoldsMutex(t.threads[k]) :: i == k
    ensures t.keepAlive ==> |t.queue| == t.sem + Total(PastWait, t.threads) + Total(Unposted, t.threads)
    ensures t.removed <= t.appended || t.destroyer == Finished
    ensures forall j: nat :: t.ran[j] <= 1
  {
    InitInv(workers, submitters);
    InvAlways(Init(workers, submitters), actors, t);
    forall i | 0 <= i < |t.threads| && t.threads[i].Peek?
      ensures t.queue != []
    {
      CommittedBound(t, i);
    }
    forall j: nat
      ensures t.ran[j] <= 1
    {
      assert t.ran[j] == t.freedByWorker[j] + Total(Finishing(j), t.threads);
      assert Places(t, j) == if j < t.nextJob then 1 else 0;
      FinishingIsHolding(j, t.threads);
    }
  }

  lemma {:induction false} FinishingIsHolding(j: nat, threads: seq<Pc>)
    ensures Total(Finishing(j), threads) <= Total(Holding(j), threads)
    decreases threads
  {
    if threads != [] {
      FinishingIsHolding(j, threads[1..]);
    }
  }

  /** Once destroy has posted all its tokens no worker can be stuck in sem_wait. */
  lemma NoWorkerLeftWaiting(s: State, i: nat)
    requires Inv(s) && s.destroyer != NotBegun && PostsLeft(s.destroyer) == 0
    requires i < |s.threads| && s.threads[i] == SemWait
    ensures s.sem > 0 && Enabled(s, ByThread(i))
  {
    TotalUpdate(Waiting, s.threads, i, Exited);
  }

  function DestroyerSteps(s: State): nat {
    match s.destroyer
    case NotBegun => 0
    case Posting(left) => left + s.workers + 4
    case Joining(k) => if k <= s.workers then s.workers - k + 2 else 2
    case Emptying => 1
    case Finished => 0
  }

  /** An upper bound on the steps left once destroy has begun. */
  function Measure(s: State): nat {
    Total(Steps, s.threads) + DestroyerSteps(s)
  }

  /** A step other than the start of a new submission. */
  predicate NoNewWork(s: State, a: Actor) {
    a.ByThread? && a.i < |s.threads| ==> s.threads[a.i] != Idle
  }

  lemma ThreadStepDecreases(s: State, i: nat)
    requires Enabled(s, ByThread(i)) && !s.keepAlive && s.threads[i] != Idle
    requires s.threads[i].Peek? || s.threads[i].Remove? ==> s.queue != []
    ensures Measure(ThreadStep(s, i)) < Measure(s)
  {
    FewerStepsLeft(s, s.threads[i]);
    hide After, Weight, Blocked, Total;
    TotalUpdate(Steps, s.threads, i, After(s, s.threads[i]));
  }

  lemma ShutdownStepDecreases(s: State, a: Actor)
    requires Inv(s) && s.destroyer != NotBegun && Enabled(s, a) && NoNewWork(s, a)
    ensures Measure(Next(s, a)) < Measure(s)
  {
    if a.ByThread? {
      if s.threads[a.i].Peek? || s.threads[a.i].Remove? {
        CommittedBound(s, a.i);
      }
      hide Measure, ThreadStep, Total;
      ThreadStepDecreases(s, a.i);
    }
  }

  lemma FewerStepsLeft(s: State, pc: Pc)
    requires !s.keepAlive && !Blocked(s, pc) && pc != Idle
    requires pc.Peek? || pc.Remove? ==> s.queue != []
    ensures Weight(Steps, After(s, pc)) < Weight(Steps, pc)
  {
  }

  /** Until the pool is gone somebody other than a new submitter can step: the
      mutex holder, else an unfinished worker, else the destroyer. */
  lemma ShutdownNeverStuck(s: State) returns (a: Actor)
    requires Inv(s) && s.destroyer != NotBegun && s.destroyer != Finished
    ensures Enabled(s, a) && NoNewWork(s, a)
  {
    if s.holder.Thread? && s.holder.id < |s.threads| && HoldsMutex(s.threads[s.holder.id]) {
      return ByThread(s.holder.id);
    }
    if s.destroyer.Joining? && s.destroyer.next < s.workers && s.threads[s.destroyer.next] != Exited {
      var i := s.destroyer.next;
      a := ByThread(i);
      if s.threads[i] == SemWait {
        NoWorkerLeftWaiting(s, i);
      }
      assert IsWorkerPc(s.threads[i]);
      if s.threads[i] == Lock {
        a := LockHolder(s, i);
      }
      return a;
    }
    a := ByDestroyer;
  }

  /** If a thread waits for the mutex, either it can have it or its holder can step. */
  lemma LockHolder(s: State, i: nat) returns (a: Actor)
    requires Inv(s) && s.destroyer != Finished && i < |s.threads| && s.threads[i] == Lock
    ensures Enabled(s, a) && NoNewWork(s, a)
  {
    if s.holder == Nobody {
      a := ByThread(i);
    } else {
      a := ByThread(s.holder.id);
    }
  }

  ghost predicate NoNewWorkIn(s: State, actors: seq<Actor>)
    decreases |actors|
  {
    actors == [] || (NoNewWork(s, actors[0]) && Enabled(s, actors[0]) && NoNewWorkIn(Next(s, actors[0]), actors[1..]))
  }

  /** Shutdown ends: without new submissions every run after destroy has begun is
      bounded, and a run that cannot be continued has torn the pool down. */
  lemma {:induction false} ShutdownEnds(s: State, actors: seq<Actor>, t: State)
    requires Inv(s) && s.destroyer != NotBegun && Reaches(s, actors, t) && NoNewWorkIn(s, actors)
    ensures |actors| <= Measure(s)
    ensures t.destroyer == Finished || exists a :: Enabled(t, a) && NoNewWork(t, a)
    decreases |actors|
  {
    if actors == [] {
      if t.destroyer != Finished {
        var a := ShutdownNeverStuck(t);
      }
    } else {
      ShutdownStepDecreases(s, actors[0]);
      StepKeepsInv(s, actors[0]);
      ShutdownEnds(Next(s, actors[0]), actors[1..], t);
    }
  }

  // ---------- a pool in service ----------

  /** An upper bound on the steps left without new submissions while the pool is in service:
      a token is good for the nine steps from sem_wait back to it. */
  function Load(s: State): nat {
    Total(Service, s.threads) + 9 * s.sem
  }

  lemma LighterStep(s: State, i: nat)
    requires Enabled(s, ByThread(i)) && s.keepAlive && s.threads[i] != Idle
    requires s.threads[i].Peek? || s.threads[i].Remove? ==> s.queue != []
    ensures Weight(Service, After(s, s.threads[i])) + 9 * ThreadStep(s, i).sem <
            Weight(Service, s.threads[i]) + 9 * s.sem
  {
  }

  lemma ServiceStepDecreases(s: State, i: nat)
    requires Inv(s) && s.keepAlive && Enabled(s, ByThread(i)) && s.threads[i] != Idle
    ensures Load(ThreadStep(s, i)) < Load(s) && ThreadStep(s, i).keepAlive
  {
    if s.threads[i].Peek? || s.threads[i].Remove? {
      CommittedBound(s, i);
    }
    ThreadFrame(s, i);
    LighterStep(s, i);
    hide Inv, After, Weight, Blocked, Total, ThreadStep;
    TotalUpdate(Service, s.threads, i, After(s, s.threads[i]));
  }

  /** Every worker waits for a token, there is none, and no submission is in flight. */
  predicate AtRest(s: State) {
    s.sem == 0 && forall i {:trigger s.threads[i]} | 0 <= i < |s.threads| ::
      s.threads[i] == if i < s.workers then SemWait else Idle
  }

  /** In service some thread can go on unless all are at rest: the mutex holder, else one
      that is neither waiting nor idle, else a waiting worker that finds a token. */
  lemma ServiceMoves(s: State) returns (i: nat)
    requires Inv(s) && s.keepAlive && !AtRest(s)
    ensures Enabled(s, ByThread(i)) && s.threads[i] != Idle
  {
    hide Tokens, Peeked, Released, Conserved, RanThenFreed, Joined, FifoOrder;
    if s.holder.Thread? {
      i := s.holder.id;
    } else if k :| 0 <= k < |s.threads| && s.threads[k] != if k < s.workers then SemWait else Idle {
      i := k;
    } else {
      i := 0;
    }
  }

  /** At rest every job ever submitted was called and freed exactly once. */
  lemma RestMeans(s: State)
    requires Inv(s) && s.keepAlive && AtRest(s)
    ensures s.queue == [] && s.removed == s.appended
    ensures forall j: nat :: s.ran[j] == s.freedByWorker[j] == if j < s.nextJob then 1 else 0
  {
    TotalZero(PastWait, s.threads);
    TotalZero(Unposted, s.threads);
    forall j: nat
      ensures s.ran[j] == s.freedByWorker[j] == if j < s.nextJob then 1 else 0
    {
      assert Places(s, j) == if j < s.nextJob then 1 else 0;
      TotalZero(Holding(j), s.threads);
      TotalZero(Finishing(j), s.threads);
    }
  }

  /** A run of threads alone, none of which starts a submission. */
  ghost predicate ServiceRun(s: State, actors: seq<Actor>)
    decreases |actors|
  {
    actors == [] || (&& actors[0].ByThread? && NoNewWork(s, actors[0]) && Enabled(s, actors[0])
                     && ServiceRun(Next(s, actors[0]), actors[1..]))
  }

  /** A pool in service catches up: without new submissions every run is bounded, and one
      that cannot be continued has called and freed every job submitted so far. */
  lemma {:induction false} ServiceEnds(s: State, actors: seq<Actor>, t: State)
    requires Inv(s) && s.keepAlive && Reaches(s, actors, t) && ServiceRun(s, actors)
    ensures |actors| <= Load(s)
    ensures || (exists i: nat :: Enabled(t, ByThread(i)) && t.threads[i] != Idle)
            || (t.queue == [] && forall j: nat :: t.ran[j] == t.freedByWorker[j] == if j < t.nextJob then 1 else 0)
    decreases |actors|
  {
    hide Inv, Load, ThreadStep, Blocked;
    if actors == [] {
      if AtRest(t) {
        RestMeans(t);
      } else {
        var i := ServiceMoves(t);
      }
    } else {
      ServiceStepDecreases(s, actors[0].i);
      StepKeepsInv(s, actors[0]);
      ServiceEnds(Next(s, actors[0]), actors[1..], t);
    }
  }

  /** When the pool is gone all workers have exited, and if no submission is in
      flight every job ever submitted was freed exactly once: by the worker that
      ran it, or unrun by the emptying of the queue. */
  lemma EveryJobFreedOnce(workers: nat, submitters: nat, actors: seq<Actor>, t: State)
    requires 1 <= workers && Reaches(Init(workers, submitters), actors, t)
    requires t.destroyer == Finished
    requires forall i | t.workers <= i < |t.threads| :: t.threads[i] == Idle
    ensures forall i | 0 <= i < t.workers <= |t.threads| :: t.threads[i] == Exited
    ensures forall j: nat :: t.freedByWorker[j] + t.freedByEmpty[j] == if j < t.nextJob then 1 else 0
    ensures t.ran == t.freedByWorker
  {
    InitInv(workers, submitters);
    InvAlways(Init(workers, submitters), actors, t);
    hide Reaches, Init;
    forall j: nat
      ensures t.freedByWorker[j] + t.freedByEmpty[j] == if j < t.nextJob then 1 else 0
      ensures t.ran[j] == t.freedByWorker[j]
    {
      NobodyHolds(t, j);
    }
  }

  /** With all workers gone and no submission in flight, a job is where it was freed. */
  lemma NobodyHolds(t: State, j: nat)
    requires Inv(t) && t.destroyer == Finished
    requires forall i | t.workers <= i < |t.threads| :: t.threads[i] == Idle
    ensures t.freedByWorker[j] + t.freedByEmpty[j] == if j < t.nextJob then 1 else 0
    ensures t.ran[j] == t.freedByWorker[j]
  {
    assert Places(t, j) == if j < t.nextJob then 1 else 0;
    TotalZero(Holding(j), t.threads);
    TotalZero(Finishing(j), t.threads);
    hide Weight, Total;
  }
}
