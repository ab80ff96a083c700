/** The functor queue of EventLoop. */
module EventLoops {
  /** A functor: what its body does with the loop it runs on, in order. */
  datatype Functor = Functor(id: nat, body: Body)
  datatype Body = End | RunNow(f: Functor, then_: Body) | Queue(f: Functor, then_: Body)

  /** The functors that run when `f` is run on the loop's thread: `f`, and what it runs inline. */
  function Ran(f: Functor): seq<nat> {
    [f.id] + RanByBody(f.body)
  }

  function RanByBody(body: Body): seq<nat> {
    match body
    case End => []
    case RunNow(f, rest) => Ran(f) + RanByBody(rest)
    case Queue(_, rest) => RanByBody(rest)
  }

  /** The functors that running a body leaves in the queue. */
  function Queued(body: Body): seq<Functor> {
    match body
    case End => []
    case RunNow(f, rest) => Queued(f.body) + Queued(rest)
    case Queue(f, rest) => [f] + Queued(rest)
  }

  function RanAll(fs: seq<Functor>): seq<nat> {
    if fs == [] then [] else Ran(fs[0]) + RanAll(fs[1..])
  }

  function QueuedAll(fs: seq<Functor>): seq<Functor> {
    if fs == [] then [] else Queued(fs[0].body) + QueuedAll(fs[1..])
  }

  class EventLoop {
    var pending: seq<Functor>
    var callingPendingFunctor: bool
    /** How often wakeupFd has been written. */
    var wakeups: nat
    /** The functors run so far. */
    var executed: seq<nat>

    constructor ()
      ensures pending == [] && !callingPendingFunctor && wakeups == 0 && executed == []
    {
      pending, callingPendingFunctor, wakeups, executed := [], false, 0, [];
    }

    /** A push is followed by a wakeup unless the loop itself will look at the queue anyway. */
    method QueueInLoop(f: Functor, inLoopThread: bool)
      modifies this`pending, this`wakeups
      ensures pending == old(pending) + [f]
      ensures wakeups == old(wakeups) + if !inLoopThread || callingPendingFunctor then 1 else 0
    {
      pending := pending + [f];
      if !inLoopThread || callingPendingFunctor {
        wakeups := wakeups + 1;
      }
    }

    /** Inline in the loop's own thread, queued from any other. */
    method RunInLoop(f: Functor, inLoopThread: bool)
      modifies this`pending, this`wakeups, this`executed
      ensures inLoopThread ==> executed == old(executed) + Ran(f) && pending == old(pending) + Queued(f.body)
      ensures inLoopThread ==> wakeups == old(wakeups) + if callingPendingFunctor then |Queued(f.body)| else 0
      ensures !inLoopThread ==>
                executed == old(executed) && pending == old(pending) + [f] && wakeups == old(wakeups) + 1
      decreases f, 1
    {
      if inLoopThread {
        Invoke(f);
      } else {
        QueueInLoop(f, false);
      }
    }

    method Invoke(f: Functor)
      modifies this`pending, this`wakeups, this`executed
      ensures executed == old(executed) + Ran(f) && pending == old(pending) + Queued(f.body)
      ensures wakeups == old(wakeups) + if callingPendingFunctor then |Queued(f.body)| else 0
      decreases f, 0
    {
      executed := executed + [f.id];
      Perform(f.body);
    }

    method Perform(body: Body)
      modifies this`pending, this`wakeups, this`executed
      ensures executed == old(executed) + RanByBody(body) && pending == old(pending) + Queued(body)
      ensures wakeups == old(wakeups) + if callingPendingFunctor then |Queued(body)| else 0
      decreases body, 0
    {
      match body
      case End =>
      case RunNow(f, rest) =>
        RunInLoop(f, true);
        Perform(rest);
      case Queue(f, rest) =>
        QueueInLoop(f, true);
        Perform(rest);
    }

    /**
     * Runs exactly the functors that were pending when it began, in their order, whatever
     * they queue; what they queue is left for the next round, and each such push wakes the loop.
     */
    method DoPendingFunctors()
      modifies this
      ensures executed == old(executed) + RanAll(old(pending))
      ensures pending == QueuedAll(old(pending))
      ensures wakeups == old(wakeups) + |pending|
      ensures !callingPendingFunctor
    {
      var functors := pending;
      pending := [];
      callingPendingFunctor := true;
      var i := 0;
      while i < |functors|
        invariant 0 <= i <= |functors| && callingPendingFunctor
        invariant executed + RanAll(functors[i..]) == old(executed) + RanAll(functors)
        invariant pending + QueuedAll(functors[i..]) == QueuedAll(functors)
        invariant wakeups == old(wakeups) + |pending|
      {
        assert functors[i..][1..] == functors[i + 1..];
        Invoke(functors[i]);
        i := i + 1;
      }
      callingPendingFunctor := false;
    }
  }

  // ---------------------------------------------------------------- rounds

  function Max(a: nat, b: nat): nat {
    if a < b then b else a
  }

  /** How many rounds it takes until nothing that a body started is left in the queue. */
  function Depth(body: Body): nat {
    match body
    case End => 0
    case RunNow(f, rest) => Max(Depth(f.body), Depth(rest))
    case Queue(f, rest) => Max(1 + Depth(f.body), Depth(rest))
  }

  function DepthAll(fs: seq<Functor>): nat {
    if fs == [] then 0 else Max(1 + Depth(fs[0].body), DepthAll(fs[1..]))
  }

  /** The queue after k rounds of doPendingFunctors without pushes from elsewhere. */
  function AfterRounds(fs: seq<Functor>, k: nat): seq<Functor>
    decreases k
  {
    if k == 0 then fs else AfterRounds(QueuedAll(fs), k - 1)
  }

  lemma {:induction false} DepthOfBoth(a: seq<Functor>, b: seq<Functor>)
    ensures DepthAll(a + b) == Max(DepthAll(a), DepthAll(b))
  {
    if a == [] {
      assert a + b == b;
    } else {
      DepthOfBoth(a[1..], b);
      assert (a + b)[1..] == a[1..] + b;
    }
  }

  lemma {:induction false} DepthOfQueued(body: Body)
    ensures DepthAll(Queued(body)) == Depth(body)
  {
    match body
    case End =>
    case RunNow(f, rest) =>
      DepthOfQueued(f.body);
      DepthOfQueued(rest);
      DepthOfBoth(Queued(f.body), Queued(rest));
    case Queue(f, rest) =>
      DepthOfQueued(rest);
      DepthOfBoth([f], Queued(rest));
  }

  /** Each round takes one level of nesting off the queue. */
  lemma {:induction false} RoundTakesOneLevel(fs: seq<Functor>)
    ensures DepthAll(QueuedAll(fs)) == if fs == [] then 0 else DepthAll(fs) - 1
  {
    if fs != [] {
      RoundTakesOneLevel(fs[1..]);
      DepthOfQueued(fs[0].body);
      DepthOfBoth(Queued(fs[0].body), QueuedAll(fs[1..]));
    }
  }

  /** Left alone, the loop empties its queue after exactly as many rounds as functors are nested. */
  lemma {:induction false} QueueRunsDry(fs: seq<Functor>, k: nat)
    ensures AfterRounds(fs, k) == [] <==> DepthAll(fs) <= k
    decreases k
  {
    if k > 0 {
      RoundTakesOneLevel(fs);
      QueueRunsDry(QueuedAll(fs), k - 1);
    }
  }
}
