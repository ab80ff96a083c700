/** What holds over every run of the reactor. */
module ReactorSafety {
  import P = Pollers
  import opened Reactors
  import opened ReactorInvariants
  import opened ReactorOperations
  import opened ReactorSteps

  // ---------------------------------------------------------------- handling an event

  /** The step makes handleClose meet a connection that is not connected. */
  predicate ClosesUnconnected(s: Sys, step: Step) {
    && step.Handle? && step.t < |s.loops|
    && var pc := s.loops[step.t].pc;
    && pc.Handling? && pc.c < |s.conns|
    && s.conns[pc.c].state != Connected
    && ((pc.stage == AtClose && P.Hup in pc.rcv) || (pc.stage.Writing? && step.act == Wrote(0)))
  }

  lemma HandledConn(s: Sys, t: nat)
    requires Inv(s, Nothing) && t < |s.loops| && s.loops[t].pc.Handling?
    ensures InItsThread(s, t, s.loops[t].pc.c) && HandlingOk(s, t, s.loops[t].pc)
  {
    assert LoopActive(s, t);
  }

  /** A connection that still has write interest is live. */
  lemma WriterIsLive(s: Sys, t: nat, c: nat)
    requires Inv(s, Nothing) && InItsThread(s, t, c) && s.conns[c].channel.IsWriting()
    requires PhaseAt(s, c) in {Live, RemovalQueued, DestroyQueued}
    ensures PhaseAt(s, c) == Live
  {
    InvAgrees(s, Nothing);
    hide Inv, Identities, Actives, Tokens;
    if PhaseAt(s, c) != Live {
      assert LifeOk(s.conns[c], s.conns[c].name in s.registry);
      DeletedIsNonEvent(s, c) by { hide P.Agree; }
      assert false;
    }
  }

  lemma CloseStage(s: Sys, t: nat, act: Action)
    requires Inv(s, Nothing) && t < |s.loops| && t !in s.owes
    requires s.loops[t].pc.Handling? && s.loops[t].pc.stage == AtClose && InItsThread(s, t, s.loops[t].pc.c)
    ensures var pc := s.loops[t].pc;
      var r := HandleStage(s, t, pc.c, pc.rcv, AtClose, act);
      && (r.Abort? <==> P.Hup in pc.rcv && s.conns[pc.c].state != Connected)
      && (r.Next? ==> Inv(r.sys, Nothing) && Forward(s, r.sys))
  {
    var pc := s.loops[t].pc;
    hide Inv, Forward, DoClose;
    SetPcKeeps(s, t, Handling(pc.c, pc.rcv, AtRead));
    var m := SetPc(s, t, Handling(pc.c, pc.rcv, AtRead));
    if P.Hup in pc.rcv {
      CloseKeeps(m, t, pc.c);
      if DoClose(m, t, pc.c).Next? { ForwardTwice(s, m, DoClose(m, t, pc.c).sys); }
    }
  }

  lemma ReadStage(s: Sys, t: nat, act: Action)
    requires Inv(s, Nothing) && t < |s.loops| && s.loops[t].pc.Handling? && s.loops[t].pc.stage == AtRead
    requires InItsThread(s, t, s.loops[t].pc.c)
    ensures var pc := s.loops[t].pc;
      var r := HandleStage(s, t, pc.c, pc.rcv, AtRead, act);
      r.Next? && Inv(r.sys, Nothing) && Forward(s, r.sys)
  {
    var pc := s.loops[t].pc;
    hide Inv, Forward, DoSend;
    SameForward(s);
    if act.Send? {
      SendKeeps(s, pc.c, act.kept);
    } else if act.Shutdown? {
      if s.conns[pc.c].state == Connected { ShutdownKeeps(s, pc.c); }
    } else {
      SetPcKeeps(s, t, Handling(pc.c, pc.rcv, AtWrite));
    }
  }

  lemma EntryStage(s: Sys, t: nat, act: Action)
    requires Inv(s, Nothing) && t < |s.loops| && s.loops[t].pc.Handling? && s.loops[t].pc.stage == AtWrite
    requires InItsThread(s, t, s.loops[t].pc.c)
    ensures var pc := s.loops[t].pc;
      var r := HandleStage(s, t, pc.c, pc.rcv, AtWrite, act);
      r.Next? && Inv(r.sys, Nothing) && Forward(s, r.sys)
  {
    var pc := s.loops[t].pc;
    HandledConn(s, t);
    hide Inv, Forward;
    if P.Out in pc.rcv && s.conns[pc.c].channel.IsWriting() {
      WriterIsLive(s, t, pc.c);
      SetPcKeeps(s, t, Handling(pc.c, pc.rcv, Writing(0)));
    } else {
      SetPcKeeps(s, t, Dispatching);
    }
  }

  /** While output is being written the connection is live and registered for writing. */
  lemma WriterIsArmed(s: Sys, t: nat)
    requires Inv(s, Nothing) && t < |s.loops| && s.loops[t].pc.Handling? && s.loops[t].pc.stage.Writing?
    requires InItsThread(s, t, s.loops[t].pc.c) && s.conns[s.loops[t].pc.c].writeIdx > 0
    ensures var c := s.loops[t].pc.c; PhaseAt(s, c) == Live && s.conns[c].channel.IsWriting()
  {
    HandledConn(s, t);
    LiveConn(s, s.loops[t].pc.c);
    hide Inv;
    WritingBit(s.conns[s.loops[t].pc.c].channel);
  }

  lemma WriteStage(s: Sys, t: nat, act: Action)
    requires Inv(s, Nothing) && t < |s.loops| && t !in s.owes
    requires s.loops[t].pc.Handling? && s.loops[t].pc.stage.Writing? && InItsThread(s, t, s.loops[t].pc.c)
    requires MayDo(s.conns[s.loops[t].pc.c], s.loops[t].pc.rcv, s.loops[t].pc.stage, act)
    ensures var pc := s.loops[t].pc;
      var r := DoWrite(s, t, pc.c, pc.rcv, pc.stage.sent, act);
      && (r.Abort? <==> act == Wrote(0) && s.conns[pc.c].state != Connected)
      && (r.Next? ==> Inv(r.sys, Nothing) && Forward(s, r.sys))
  {
    var pc := s.loops[t].pc;
    SameForward(s);
    hide Inv, Forward, DoClose, ChannelOp, DoDrained;
    if act == Wrote(0) {
      CloseKeeps(s, t, pc.c);
    } else if act.WriteFailed? {
      SetPcKeeps(s, t, Dispatching);
    } else {
      WriterIsArmed(s, t);
      if act.Wrote? { WroteSome(s, t, pc.c, pc.rcv, pc.stage.sent, act.n); }
    }
  }

  lemma WroteAll(s: Sys, t: nat, c: nat)
    requires Inv(s, Nothing) && InItsThread(s, t, c) && s.loops[t].pc.Handling? && s.loops[t].pc.c == c
    requires PhaseAt(s, c) == Live && s.conns[c].channel.IsWriting()
    ensures var r := DoDrained(s, t, c); r.Next? && Inv(r.sys, Nothing) && Forward(s, r.sys)
  {
    hide Inv, Forward, ChannelOp;
    SetPcKeeps(s, t, Dispatching);
    var m := SetPc(s, t, Dispatching);
    WritingBit(s.conns[c].channel);
    assert PhaseAt(m, c) == PhaseAt(s, c);
    DisarmingKeeps(m, c);
    var emptied := s.conns[c := s.conns[c].(writeIdx := 0)];
    assert SetPc(s.(conns := emptied), t, Dispatching) == m.(conns := emptied);
    hide SetPc, PhaseAt;
    ForwardTwice(s, m, ChannelOp(m.(conns := emptied), c, P.DisableWrite).sys);
  }

  lemma WrotePart(s: Sys, t: nat, c: nat, rcv: set<P.Bit>, sent: nat)
    requires Inv(s, Nothing) && InItsThread(s, t, c) && s.loops[t].pc.Handling? && s.loops[t].pc.c == c
    requires PhaseAt(s, c) == Live
    ensures var u := SetPc(s, t, Handling(c, rcv, Writing(sent))); Inv(u, Nothing) && Forward(s, u)
  {
    hide Inv, Forward, PhaseAt;
    SetPcKeeps(s, t, Handling(c, rcv, Writing(sent)));
  }

  lemma WroteCases(s: Sys, t: nat, c: nat, rcv: set<P.Bit>, sent: nat, n: nat)
    requires InItsThread(s, t, c) && n > 0
    ensures var r := DoWrite(s, t, c, rcv, sent, Wrote(n));
      r == DoDrained(s, t, c) || r == Next(SetPc(s, t, Handling(c, rcv, Writing(sent + n))))
  {
    hide DoDrained, SetPc, DoClose, ChannelOp;
  }

  lemma WroteSome(s: Sys, t: nat, c: nat, rcv: set<P.Bit>, sent: nat, n: nat)
    requires Inv(s, Nothing) && InItsThread(s, t, c) && s.loops[t].pc.Handling? && s.loops[t].pc.c == c
    requires PhaseAt(s, c) == Live && s.conns[c].channel.IsWriting() && n > 0
    ensures var r := DoWrite(s, t, c, rcv, sent, Wrote(n)); r.Next? && Inv(r.sys, Nothing) && Forward(s, r.sys)
  {
    hide Inv, Forward, DoDrained, PhaseAt, SetPc, DoWrite;
    WroteCases(s, t, c, rcv, sent, n);
    WroteAll(s, t, c);
    WrotePart(s, t, c, rcv, sent + n);
  }

  lemma HandleKeeps(s: Sys, t: nat, act: Action)
    requires Inv(s, Nothing) && Enabled(s, Handle(t, act))
    ensures var r := After(s, Handle(t, act));
      && (r.Abort? <==> ClosesUnconnected(s, Handle(t, act)))
      && (r.Next? ==> Inv(r.sys, Nothing) && Forward(s, r.sys))
  {
    HandledConn(s, t);
    var pc := s.loops[t].pc;
    hide Inv, Forward, DoWrite, HandlingOk;
    match pc.stage
    case AtClose => CloseStage(s, t, act) by { hide HandleStage; }
    case AtRead => ReadStage(s, t, act) by { hide HandleStage; }
    case AtWrite => EntryStage(s, t, act) by { hide HandleStage; }
    case Writing(_) => WriteStage(s, t, act);
  }

  // ---------------------------------------------------------------- every step

  /**
   * A step from a state of the invariant aborts exactly when it closes a connection
   * that is not connected; every other assert passes.  Otherwise the invariant holds
   * again and every connection has stayed where it was or moved to a later phase.
   */
  lemma StepKeepsInv(s: Sys, step: Step)
    requires Inv(s, Nothing) && Enabled(s, step)
    ensures After(s, step).Abort? <==> ClosesUnconnected(s, step)
    ensures After(s, step).Next? ==> Inv(After(s, step).sys, Nothing) && Forward(s, After(s, step).sys)
  {
    hide Forward;
    match step
    case PollReturn(t, reports) => hide Inv, Poll; PollKeeps(s, t, reports);
    case DispatchNext(t, accepted) => hide Inv, Dispatch; DispatchKeeps(s, t, accepted);
    case Handle(t, act) => hide Inv, After; HandleKeeps(s, t, act);
    case Swap(t) => hide Inv; SwapKeeps(s, t);
    case RunNext(t) => hide Inv, RunFunctor; RunNextKeeps(s, t);
    case EndBatch(t) => hide Inv; EndBatchKeeps(s, t);
    case UserQueue(t, l, k) => TaskInHand(s, l, k); hide Inv; EnqueueKeeps(s, t, l, Task(k));
    case Wake(t) => hide Inv; WakeKeeps(s, t);
  }

  /** The invariant holds in every state any run reaches, and phases only move forward on the way. */
  lemma {:induction false} InvAlways(s: Sys, steps: seq<Step>, u: Sys)
    requires Inv(s, Nothing) && Reaches(s, steps, u)
    ensures Inv(u, Nothing) && Forward(s, u)
    decreases |steps|
  {
    hide Inv, Forward, After;
    if steps == [] {
      SameForward(s);
    } else {
      StepKeepsInv(s, steps[0]);
      var m := After(s, steps[0]).sys;
      InvAlways(m, steps[1..], u);
      ForwardTwice(s, m, u);
    }
  }

  // ---------------------------------------------------------------- results over all runs

  lemma ReachableInv(base: string, n: nat, steps: seq<Step>, u: Sys)
    requires Reaches(Init(base, n), steps, u)
    ensures Inv(u, Nothing)
  {
    hide Inv;
    InitInv(base, n);
    InvAlways(Init(base, n), steps, u);
  }

  /**
   * In every run of any server, the only assert that can fail is handleClose's, and it
   * fails exactly when a hang-up, or a write loop with nothing to write, meets a connection
   * that is no longer connected: one the server itself has shut down, or one that an empty
   * write has closed just before.
   */
  lemma OnlyLateCloseAborts(base: string, n: nat, steps: seq<Step>, u: Sys, step: Step)
    requires Reaches(Init(base, n), steps, u) && Enabled(u, step)
    ensures After(u, step).Abort? <==> ClosesUnconnected(u, step)
    ensures ClosesUnconnected(u, step) ==>
      var pc := u.loops[step.t].pc;
      && (pc.stage == AtClose ==> u.conns[pc.c].state == Disconnecting)
      && (pc.stage.Writing? ==> u.conns[pc.c].writeIdx == 0)
  {
    ReachableInv(base, n, steps, u);
    StepKeepsInv(u, step) by { hide Inv; }
    if step.Handle? { HandledConn(u, step.t); }
  }

  /**
   * Each connection is established, erased from the map and destroyed at most once and
   * in that order; names are unique; it is in the map until erased; it belongs to the loop
   * whose turn it was; and the one functor that is due for it is queued exactly once,
   * on the right loop.
   */
  lemma ProtocolOnce(base: string, n: nat, steps: seq<Step>, u: Sys, c: nat)
    requires Reaches(Init(base, n), steps, u) && c < |u.conns|
    ensures var k := u.conns[c];
      && k.destroyed <= k.erased <= k.established <= 1
      && (k.erased == 1 ==> k.state == Disconnected)
      && (k.established == 0 <==> k.state == Connecting)
      && (k.erased == 0 <==> k.name in u.registry)
      && (k.name in u.registry ==> u.registry[k.name] == c)
      && k.loop == LoopFor(|u.loops|, c)
    ensures forall d :: 0 <= d < |u.conns| && d != c ==> u.conns[d].name != u.conns[c].name
    ensures forall l :: 0 <= l < |u.loops| ==>
      && Count(u.loops[l], Established(c)) == (if l == u.conns[c].loop && u.conns[c].established == 0 then 1 else 0)
      && Count(u.loops[l], RemoveInLoop(c)) ==
           (if l == 0 && u.conns[c].state == Disconnected && u.conns[c].erased == 0 then 1 else 0)
      && Count(u.loops[l], Destroyed(c)) ==
           (if l == u.conns[c].loop && u.conns[c].erased == 1 && u.conns[c].destroyed == 0 then 1 else 0)
  {
    ReachableInv(base, n, steps, u);
    InvAgrees(u, Nothing);
    assert IdentityOk(u.base, |u.loops|, u.conns, c);
    hide Inv, Identities, PollersAgree, Actives, Count;
    assert LifeOk(u.conns[c], u.conns[c].name in u.registry);
    forall d | 0 <= d < |u.conns| && d != c
      ensures u.conns[d].name != u.conns[c].name
    {
      ConnNamesDiffer(u, c, d);
    }
    if u.conns[c].name in u.registry { RegistryEntry(u, c); }
    forall l | 0 <= l < |u.loops|
      ensures Count(u.loops[l], Established(c)) == Expected(u, l, Established(c))
      ensures Count(u.loops[l], RemoveInLoop(c)) == Expected(u, l, RemoveInLoop(c))
      ensures Count(u.loops[l], Destroyed(c)) == Expected(u, l, Destroyed(c))
    {
      QueueCounts(u, l, Established(c));
      QueueCounts(u, l, RemoveInLoop(c));
      QueueCounts(u, l, Destroyed(c));
    }
  }

  lemma QueueCounts(s: Sys, l: nat, f: Functor)
    requires Tokens(s, Nothing) && l < |s.loops| && !f.Task?
    ensures Count(s.loops[l], f) == Expected(s, l, f)
  {
    assert Count(s.loops[l], f) + InHand(Nothing, l, f) == Expected(s, l, f);
  }

  lemma RegistryEntry(s: Sys, c: nat)
    requires Identities(s) && c < |s.conns| && s.conns[c].name in s.registry
    ensures s.registry[s.conns[c].name] == c
  {
    var d := s.registry[s.conns[c].name];
    if d != c { ConnNamesDiffer(s, c, d); }
  }

  // ---------------------------------------------------------------- ownership

  predicate Binds(f: Functor, c: nat) {
    !f.Task? && f.c == c
  }

  ghost predicate InMap(s: Sys, c: nat) {
    exists name :: name in s.registry && s.registry[name] == c
  }

  ghost predicate BoundInLoop(at: Loop, c: nat) {
    || (at.pc.Handling? && at.pc.c == c)
    || (exists f :: (f in at.batch || f in at.pending) && Binds(f, c))
    || RanFor(at, c)
  }

  /** The loop's current round has run a functor of the connection. */
  ghost predicate RanFor(at: Loop, c: nat) {
    exists f :: f in at.ran && Binds(f, c)
  }

  /** Some strong reference to the connection exists: in the map, in a functor or in the running frame.
      A round keeps the functors it has run until it ends. */
  ghost predicate Held(s: Sys, c: nat) {
    InMap(s, c) || exists l :: 0 <= l < |s.loops| && BoundInLoop(s.loops[l], c)
  }

  lemma CountedIsBound(at: Loop, f: Functor)
    requires !f.Task? && Count(at, f) >= 1
    ensures BoundInLoop(at, f.c)
  {
    assert f in at.batch || f in at.pending;
    assert Binds(f, f.c);
  }

  lemma UncountedIsUnbound(at: Loop, f: Functor)
    requires Count(at, f) == 0
    ensures f !in at.batch && f !in at.pending
  {
  }

  lemma UnfinishedIsHeld(s: Sys, c: nat)
    requires Inv(s, Nothing) && c < |s.conns| && PhaseAt(s, c) != Gone
    ensures Held(s, c)
  {
    InvAgrees(s, Nothing);
    assert IdentityOk(s.base, |s.loops|, s.conns, c);
    hide Inv, Identities, PollersAgree, Actives, Count, BoundInLoop, Tokens;
    assert LifeOk(s.conns[c], s.conns[c].name in s.registry);
    if s.conns[c].name in s.registry {
      RegistryEntry(s, c);
    } else {
      QueueCounts(s, s.conns[c].loop, Destroyed(c));
      CountedIsBound(s.loops[s.conns[c].loop], Destroyed(c));
    }
  }

  /** Once it is destroyed, only rounds that ran its functors still hold the connection. */
  lemma GoneIsHeldByRounds(s: Sys, c: nat)
    requires Inv(s, Nothing) && c < |s.conns| && PhaseAt(s, c) == Gone
    ensures Held(s, c) <==> exists l :: 0 <= l < |s.loops| && RanFor(s.loops[l], c)
  {
    InvAgrees(s, Nothing);
    assert !InMap(s, c);
    forall l | 0 <= l < |s.loops|
      ensures BoundInLoop(s.loops[l], c) <==> RanFor(s.loops[l], c)
    {
      NotHandledWhenGone(s, l, c);
      hide Inv, Count, Identities, Actives, PollersAgree, Lifecycle, RanFor;
      forall f: Functor | Binds(f, c)
        ensures f !in s.loops[l].batch && f !in s.loops[l].pending
      {
        QueueCounts(s, l, f);
        UncountedIsUnbound(s.loops[l], f);
      }
    }
  }

  /** Every connection a poller, the epoll set or an active list points to is still held. */
  lemma PointersAreHeld(base: string, n: nat, steps: seq<Step>, u: Sys, l: nat)
    requires Reaches(Init(base, n), steps, u) && l < |u.loops|
    ensures forall fd :: fd in u.loops[l].poller.channels ==> Held(u, u.loops[l].poller.channels[fd])
    ensures forall fd :: fd in u.loops[l].poller.kernel ==> Held(u, u.loops[l].poller.kernel[fd].ch)
    ensures forall i :: 0 <= i < |u.loops[l].active| && u.loops[l].active[i].Ready? ==> Held(u, u.loops[l].active[i].c)
  {
    ReachableInv(base, n, steps, u);
    assert LoopActive(u, l);
    hide Inv, Held;
    forall fd | fd in u.loops[l].poller.channels
      ensures Held(u, u.loops[l].poller.channels[fd])
    {
      RegisteredIsHeld(u, l, fd);
    }
    forall fd | fd in u.loops[l].poller.kernel
      ensures Held(u, u.loops[l].poller.kernel[fd].ch)
    {
      PolledIsRegistered(u, l, fd);
      RegisteredIsHeld(u, l, fd);
    }
    forall i | 0 <= i < |u.loops[l].active| && u.loops[l].active[i].Ready?
      ensures Held(u, u.loops[l].active[i].c)
    {
      assert ItemOk(u, l, u.loops[l].active[i]);
      UnfinishedIsHeld(u, u.loops[l].active[i].c);
    }
  }

  lemma RegisteredIsHeld(s: Sys, l: nat, fd: int)
    requires Inv(s, Nothing) && l < |s.loops| && fd in s.loops[l].poller.channels
    ensures Held(s, s.loops[l].poller.channels[fd])
  {
    hide Inv, Held;
    RegisteredIsUnfinished(s, l, fd);
    UnfinishedIsHeld(s, s.loops[l].poller.channels[fd]);
  }

  /**
   * A connection is held at least until it has been destroyed, and after that only by the
   * rounds of functors, still running, that have run a functor of it.  When the last
   * reference is gone the asserts of its destructor and of its channel's hold: it is
   * disconnected, its channel is in no poller, no epoll set and no active list, and it is
   * not being handled.
   */
  lemma DestructorsPass(base: string, n: nat, steps: seq<Step>, u: Sys, c: nat)
    requires Reaches(Init(base, n), steps, u) && c < |u.conns|
    ensures Held(u, c) <==>
            || u.conns[c].destroyed == 0
            || exists l :: 0 <= l < |u.loops| && u.loops[l].pc.Running? && RanFor(u.loops[l], c)
    ensures !Held(u, c) ==>
      && u.conns[c].state == Disconnected
      && !u.conns[c].channel.addedToLoop
      && forall l :: 0 <= l < |u.loops| ==> Unreferenced(u.loops[l], c)
  {
    ReachableInv(base, n, steps, u);
    InvAgrees(u, Nothing);
    RanOnlyWhileRunning(u, c);
    hide Inv, Held, Tokens, Actives, Identities, PollersAgree, RanFor;
    assert LifeOk(u.conns[c], u.conns[c].name in u.registry);
    if PhaseAt(u, c) == Gone {
      GoneIsHeldByRounds(u, c);
      GoneIsNotAdded(u, c);
      GoneIsUnreferenced(u, c);
    } else {
      UnfinishedIsHeld(u, c);
    }
  }

  lemma RanOnlyWhileRunning(s: Sys, c: nat)
    requires Actives(s)
    ensures forall l :: 0 <= l < |s.loops| && RanFor(s.loops[l], c) ==> s.loops[l].pc.Running?
  {
    forall l | 0 <= l < |s.loops| && RanFor(s.loops[l], c)
      ensures s.loops[l].pc.Running?
    {
      assert LoopActive(s, l);
    }
  }

  /** No loop refers to a connection that has been destroyed. */
  lemma GoneIsUnreferenced(s: Sys, c: nat)
    requires Inv(s, Nothing) && c < |s.conns| && PhaseAt(s, c) == Gone
    ensures forall l :: 0 <= l < |s.loops| ==> Unreferenced(s.loops[l], c)
  {
    forall l | 0 <= l < |s.loops|
      ensures Unreferenced(s.loops[l], c)
    {
      NotHandledWhenGone(s, l, c);
      assert LoopActive(s, l);
      hide Inv;
      forall fd | fd in s.loops[l].poller.channels
        ensures s.loops[l].poller.channels[fd] != c
      {
        RegisteredIsUnfinished(s, l, fd);
      }
      forall fd | fd in s.loops[l].poller.kernel
        ensures s.loops[l].poller.kernel[fd].ch != c
      {
        PolledIsRegistered(s, l, fd);
        RegisteredIsUnfinished(s, l, fd);
      }
      forall i | 0 <= i < |s.loops[l].active|
        ensures !(s.loops[l].active[i].Ready? && s.loops[l].active[i].c == c)
      {
        assert ItemOk(s, l, s.loops[l].active[i]);
      }
    }
  }

  lemma PolledIsRegistered(s: Sys, l: nat, fd: int)
    requires Inv(s, Nothing) && l < |s.loops| && fd in s.loops[l].poller.kernel
    ensures fd in s.loops[l].poller.channels && s.loops[l].poller.kernel[fd].ch == s.loops[l].poller.channels[fd]
  {
    assert P.Agree(s.loops[l].poller, ChansOf(s.conns, l));
    hide Inv;
    P.EpollReturnsKnownChannels(s.loops[l].poller, ChansOf(s.conns, l), fd) by { hide P.Agree; }
  }

  lemma RegisteredIsUnfinished(s: Sys, l: nat, fd: int)
    requires Inv(s, Nothing) && l < |s.loops| && fd in s.loops[l].poller.channels
    ensures s.loops[l].poller.channels[fd] < |s.conns| && PhaseAt(s, s.loops[l].poller.channels[fd]) != Gone
  {
    InvAgrees(s, Nothing);
    var p := s.loops[l].poller;
    var c := p.channels[fd];
    hide Inv, Identities, Tokens, Actives;
    assert P.Agree(p, ChansOf(s.conns, l));
    assert c in ChansOf(s.conns, l) && s.conns[c].channel.fd == fd;
    assert P.ChannelAgrees(p, c, ChansOf(s.conns, l)[c]);
    assert LifeOk(s.conns[c], s.conns[c].name in s.registry);
  }

  /** The loop's poller, epoll set, active list and running handler do not involve the connection. */
  ghost predicate Unreferenced(at: Loop, c: nat) {
    && (forall fd :: fd in at.poller.channels ==> at.poller.channels[fd] != c)
    && (forall fd :: fd in at.poller.kernel ==> at.poller.kernel[fd].ch != c)
    && (forall i :: 0 <= i < |at.active| ==> !(at.active[i].Ready? && at.active[i].c == c))
    && !(at.pc.Handling? && at.pc.c == c)
  }

  lemma NotHandledWhenGone(s: Sys, l: nat, c: nat)
    requires Inv(s, Nothing) && l < |s.loops| && c < |s.conns| && PhaseAt(s, c) == Gone
    ensures !(s.loops[l].pc.Handling? && s.loops[l].pc.c == c)
  {
    assert LoopActive(s, l);
  }

  lemma GoneIsNotAdded(s: Sys, c: nat)
    requires Inv(s, Nothing) && c < |s.conns| && PhaseAt(s, c) == Gone
    ensures !s.conns[c].channel.addedToLoop
  {
    var l := s.conns[c].loop;
    assert IdentityOk(s.base, |s.loops|, s.conns, c);
    assert P.Agree(s.loops[l].poller, ChansOf(s.conns, l));
    hide Inv;
    assert ChansOf(s.conns, l)[c] == s.conns[c].channel;
    assert P.ChannelAgrees(s.loops[l].poller, c, s.conns[c].channel);
  }

  // ---------------------------------------------------------------- queues

  /**
   * No wakeup is lost: a loop at poll owes no wakeup itself, and with functors pending it
   * either can be woken by its own descriptor at once, or some other thread has pushed to
   * this very loop and is about to make the descriptor readable.
   */
  lemma PendingWillBeSeen(base: string, n: nat, steps: seq<Step>, u: Sys, l: nat)
    requires Reaches(Init(base, n), steps, u) && l < |u.loops| && u.loops[l].pc.Polling?
    ensures l !in u.owes
    ensures u.loops[l].pending != [] ==>
              || Enabled(u, PollReturn(l, [WakeReady]))
              || exists t :: t in u.owes && u.owes[t] == l && Enabled(u, Wake(t))
  {
    ReachableInv(base, n, steps, u);
    if u.loops[l].pending != [] {
      if u.loops[l].signal {
        assert Enabled(u, PollReturn(l, [WakeReady]));
      } else {
        var t :| t in u.owes && u.owes[t] == l;
        assert Enabled(u, Wake(t));
      }
    }
  }

  lemma SplitLog(log: seq<Functor>, executed: seq<Functor>, batch: seq<Functor>, pending: seq<Functor>)
    requires log == executed + batch + pending
    ensures executed <= log && log[|executed|..] == batch + pending
  {
    assert log == executed + (batch + pending);
  }

  /** Functors are taken out in the order in which they were pushed, none skipped and none twice. */
  lemma FunctorsRunInOrder(base: string, n: nat, steps: seq<Step>, u: Sys, l: nat)
    requires Reaches(Init(base, n), steps, u) && l < |u.loops|
    ensures u.loops[l].executed <= u.loops[l].log
    ensures u.loops[l].log[|u.loops[l].executed|..] == u.loops[l].batch + u.loops[l].pending
  {
    ReachableInv(base, n, steps, u);
    var at := u.loops[l];
    assert at.log == at.executed + at.batch + at.pending;
    hide Inv, Reaches, Init;
    SplitLog(at.log, at.executed, at.batch, at.pending);
  }
}
