/** EventLoopThreadPool: it starts the I/O loops and deals out connections to them in turn. */
module LoopPools {
  import RoundRobin

  /** The loop the k-th call of getNextLoop returns. */
  function Dealt<L>(base: L, loops: seq<L>, k: nat): L {
    if loops == [] then base else loops[k % |loops|]
  }

  /** How often `loop` is among the first k loops dealt out. */
  function TimesDealt<L(==)>(base: L, loops: seq<L>, loop: L, k: nat): nat {
    if k == 0 then 0 else TimesDealt(base, loops, loop, k - 1) + if Dealt(base, loops, k - 1) == loop then 1 else 0
  }

  ghost predicate AllDifferent<L>(loops: seq<L>) {
    forall i, j :: 0 <= i < j < |loops| ==> loops[i] != loops[j]
  }

  lemma {:induction false} DealtByTurns<L>(base: L, loops: seq<L>, i: nat, k: nat)
    requires i < |loops| && AllDifferent(loops)
    ensures TimesDealt(base, loops, loops[i], k) == RoundRobin.TurnsOf(i, k, |loops|)
  {
    if k > 0 {
      DealtByTurns(base, loops, i, k - 1);
      var turn := (k - 1) % |loops|;
      assert loops[turn] == loops[i] <==> turn == i;
    }
  }

  /** After any k calls each I/O loop has been chosen k / n times, or once more. */
  lemma DealtEvenly<L>(base: L, loops: seq<L>, i: nat, k: nat)
    requires i < |loops| && AllDifferent(loops)
    ensures var t := TimesDealt(base, loops, loops[i], k);
      t == k / |loops| + (if i < k % |loops| then 1 else 0)
  {
    DealtByTurns(base, loops, i, k);
    RoundRobin.TurnsAreEven(i, k, |loops|);
  }

  /** Without I/O loops every call returns the base loop. */
  lemma {:induction false} BaseDoesAll<L>(base: L, k: nat)
    ensures TimesDealt(base, [], base, k) == k
  {
    if k > 0 { BaseDoesAll(base, k - 1); }
  }

  class EventLoopThreadPool<L(==)> {
    const baseLoop: L
    var next: nat
    var numThreads: nat
    var started: bool
    var loops: seq<L>
    /** How often getNextLoop has returned. */
    ghost var calls: nat

    ghost predicate Valid()
      reads this
    {
      && (loops == [] ==> next == 0)
      && (loops != [] ==> next == calls % |loops|)
      && (!started ==> loops == [] && calls == 0)
    }

    constructor (baseLoop: L)
      ensures Valid() && this.baseLoop == baseLoop && numThreads == 0 && !started && loops == [] && calls == 0
    {
      this.baseLoop := baseLoop;
      next, numThreads, started, loops, calls := 0, 0, false, [], 0;
    }

    /** Takes effect in start(). */
    method SetNumThreads(num: nat)
      requires Valid()
      modifies this`numThreads
      ensures Valid() && numThreads == num
    {
      numThreads := num;
    }

    /**
     * `made` are the loops that startLoop returns, one for each thread.  Fails only if the
     * pool was started before; `initBase` says that the callback runs on the base loop,
     * as it does when there is no thread to run it.
     */
    method Start(made: seq<L>, hasCallback: bool) returns (ok: bool, initBase: bool)
      requires Valid() && (!started ==> |made| == numThreads)
      modifies this
      ensures Valid() && numThreads == old(numThreads) && started && calls == old(calls)
      ensures ok <==> !old(started)
      ensures loops == if ok then made else old(loops)
      ensures initBase <==> ok && numThreads == 0 && hasCallback
    {
      if started { return false, false; }
      var i := 0;
      while i < numThreads
        invariant 0 <= i <= numThreads == old(numThreads) && !started
        invariant loops == made[..i] && calls == old(calls) && next == old(next)
      {
        loops := loops + [made[i]];
        i := i + 1;
      }
      RoundRobinStart(|loops|);
      started := true;
      ok, initBase := true, numThreads == 0 && hasCallback;
    }

    /** The k-th call returns the k-th loop dealt out; it fails only before start(). */
    method GetNextLoop() returns (ok: bool, loop: L)
      requires Valid()
      modifies this`next, this`calls
      ensures Valid() && (ok <==> started)
      ensures calls == old(calls) + if ok then 1 else 0
      ensures ok ==> loop == Dealt(baseLoop, loops, old(calls))
    {
      loop := baseLoop;
      if !started { return false, loop; }
      if loops != [] {
        RoundRobin.TurnsGoRound(calls, |loops|);
        loop := loops[next];
        next := next + 1;
        next := next % |loops|;
      }
      calls := calls + 1;
      ok := true;
    }
  }

  lemma RoundRobinStart(n: nat)
    ensures n > 0 ==> 0 % n == 0
  {
    if n > 0 { RoundRobin.RemainderIs(0, 0, 0, n); }
  }
}
