/** More consequences for whole runs: when a server cannot abort at all, what is left when it
    rests, and that output kept in the buffer will be written. */
module ReactorRest {
  import P = Pollers
  import opened Reactors
  import opened ReactorInvariants
  import opened ReactorOperations
  import opened ReactorSteps
  import opened ReactorSafety

  // ---------------------------------------------------------------- servers that cannot abort

  /** Nothing is half closed, nothing waits to be written and nothing is being written. */
  ghost predicate Tame(s: Sys) {
    && (forall c :: 0 <= c < |s.conns| ==> TameConn(s.conns[c]))
    && (forall l :: 0 <= l < |s.loops| ==> TamePc(s.loops[l].pc))
  }

  predicate TameConn(conn: Conn) {
    conn.state != Disconnecting && P.Out !in conn.channel.events
  }

  predicate TamePc(pc: Pc) {
    pc.Handling? ==> !pc.stage.Writing?
  }

  lemma TameOp(s: Sys, c: nat, op: P.Op)
    requires Tame(s) && c < |s.conns| && s.conns[c].loop < |s.loops| && op in {P.EnableRead, P.DisableAll, P.Remove}
    ensures ChannelOp(s, c, op).Next? ==> Tame(ChannelOp(s, c, op).sys)
  {
    assert P.Out !in P.NewEvents(op, s.conns[c].channel.events);
    var r := P.Apply(s.loops[s.conns[c].loop].poller, c, s.conns[c].channel, op);
    if r.Done? {
      assert r.channel.events == P.NewEvents(op, s.conns[c].channel.events);
      hide P.Apply;
      assert TameConn(s.conns[c].(channel := r.channel));
    }
  }

  lemma TameChange(s: Sys, c: nat, conn: Conn)
    requires Tame(s) && c < |s.conns| && TameConn(conn)
    ensures Tame(s.(conns := s.conns[c := conn]))
  {
  }

  lemma TameEstablished(s: Sys, t: nat, c: nat)
    requires Tame(s)
    ensures DoEstablished(s, t, c).Next? ==> Tame(DoEstablished(s, t, c).sys)
  {
    hide ChannelOp, Tame;
    if InItsThread(s, t, c) {
      assert TameConn(s.conns[c]) by { TameAt(s, c); }
      var conn := s.conns[c].(state := Connected, established := s.conns[c].established + 1);
      TameChange(s, c, conn);
      TameOp(s.(conns := s.conns[c := conn]), c, P.EnableRead);
    }
  }

  lemma TameAt(s: Sys, c: nat)
    requires Tame(s) && c < |s.conns|
    ensures TameConn(s.conns[c])
  {
  }

  lemma TameRemoved(s: Sys, t: nat, c: nat)
    requires Tame(s)
    ensures DoRemove(s, t, c).Next? ==> Tame(DoRemove(s, t, c).sys)
  {
  }

  lemma TameDestroyed(s: Sys, t: nat, c: nat)
    requires Tame(s)
    ensures DoDestroyed(s, t, c).Next? ==> Tame(DoDestroyed(s, t, c).sys)
  {
    hide ChannelOp, MayRemove, Tame;
    if InItsThread(s, t, c) {
      assert TameConn(s.conns[c]) by { TameAt(s, c); }
      var conn := s.conns[c].(destroyed := s.conns[c].destroyed + 1);
      TameChange(s, c, conn);
      TameOp(s.(conns := s.conns[c := conn]), c, P.Remove);
      var half := s.(conns := s.conns[c := conn.(state := Disconnected)]);
      TameChange(s, c, conn.(state := Disconnected));
      TameOp(half, c, P.DisableAll);
      var r := ChannelOp(half, c, P.DisableAll);
      if r.Next? {
        SameLoopAfter(half, c, P.DisableAll);
        TameOp(r.sys, c, P.Remove);
      }
    }
  }

  lemma SameLoopAfter(s: Sys, c: nat, op: P.Op)
    requires c < |s.conns| && s.conns[c].loop < |s.loops|
    ensures var r := ChannelOp(s, c, op);
      r.Next? ==> c < |r.sys.conns| && r.sys.conns[c].loop == s.conns[c].loop < |r.sys.loops|
  {
    hide P.Apply;
  }

  lemma TameQueued(s: Sys, t: nat, l: nat, f: Functor)
    requires Tame(s) && l < |s.loops|
    ensures Tame(Enqueue(s, t, l, f))
  {
  }

  lemma TameClosed(s: Sys, t: nat, c: nat)
    requires Tame(s)
    ensures DoClose(s, t, c).Next? ==> Tame(DoClose(s, t, c).sys)
  {
    hide ChannelOp, DoRemove, Tame, Enqueue;
    if InItsThread(s, t, c) {
      assert TameConn(s.conns[c]) by { TameAt(s, c); }
      var conn := s.conns[c].(state := Disconnected);
      TameChange(s, c, conn);
      TameOp(s.(conns := s.conns[c := conn]), c, P.DisableAll);
      var r := ChannelOp(s.(conns := s.conns[c := conn]), c, P.DisableAll);
      if r.Next? {
        TameRemoved(r.sys, 0, c);
        TameQueued(r.sys, t, 0, RemoveInLoop(c));
      }
    }
  }

  lemma TameAccepted(s: Sys, t: nat, fd: int)
    requires Tame(s)
    ensures NewConnection(s, t, fd).Next? ==> Tame(NewConnection(s, t, fd).sys)
  {
    assert Tame(AddConn(s, fd)) by { hide ConnName; }
    hide Tame, DoEstablished, AddConn, Enqueue;
    TameEstablished(AddConn(s, fd), t, |s.conns|);
    var l := ChosenLoop(s);
    if l < |s.loops| { TameQueued(AddConn(s, fd), t, l, Established(|s.conns|)) by { AddConnLoops(s, fd); } }
  }

  /** No callback closes the connection from this side, and the socket takes every answer whole. */
  predicate Prompt(step: Step) {
    step.Handle? ==> !step.act.Shutdown? && (step.act.Send? ==> step.act.kept == 0)
  }

  lemma TameHandler(s: Sys, t: nat, act: Action)
    requires Tame(s) && Enabled(s, Handle(t, act)) && Prompt(Handle(t, act))
    ensures After(s, Handle(t, act)).Next? ==> Tame(After(s, Handle(t, act)).sys)
  {
    var pc := s.loops[t].pc;
    assert TamePc(pc);
    hide DoClose, DoWrite;
    if InItsThread(s, t, pc.c) {
      assert TameConn(s.conns[pc.c]);
      assert !s.conns[pc.c].channel.IsWriting() by { WritingBit(s.conns[pc.c].channel); }
      TameClosed(SetPc(s, t, Handling(pc.c, pc.rcv, AtRead)), t, pc.c);
    }
  }

  lemma TameFunctor(s: Sys, t: nat, f: Functor)
    requires Tame(s)
    ensures RunFunctor(s, t, f).Next? ==> Tame(RunFunctor(s, t, f).sys)
  {
    hide Tame, DoEstablished, DoRemove, DoDestroyed;
    match f
    case Established(c) => TameEstablished(s, t, c);
    case RemoveInLoop(c) => TameRemoved(s, t, c);
    case Destroyed(c) => TameDestroyed(s, t, c);
    case Task(_) =>
  }

  lemma TameStep(s: Sys, step: Step)
    requires Tame(s) && Enabled(s, step) && Prompt(step)
    ensures After(s, step).Next? ==> Tame(After(s, step).sys)
  {
    match step
    case Handle(t, act) => hide Tame, After; TameHandler(s, t, act);
    case RunNext(t) => hide RunFunctor; TameFunctor(TakeFromBatch(s, t), t, s.loops[t].batch[0]);
    case DispatchNext(t, accepted) =>
      hide NewConnection;
      var at := s.loops[t].(active := s.loops[t].active[1..], seen := s.loops[t].seen + [s.loops[t].active[0]]);
      TameAccepted(s.(loops := s.loops[t := at]), t, accepted);
    case PollReturn(_, _) => hide Known, ValidReports;
    case _ =>
  }

  lemma {:induction false} TameRun(s: Sys, steps: seq<Step>, u: Sys)
    requires Tame(s) && Reaches(s, steps, u) && forall i :: 0 <= i < |steps| ==> Prompt(steps[i])
    ensures Tame(u)
    decreases |steps|
  {
    if steps != [] {
      TameStep(s, steps[0]);
      hide After, Tame;
      TameRun(After(s, steps[0]).sys, steps[1..], u);
    }
  }

  /**
   * Neither hypothesis can be spared, but both together are enough: no run in which no
   * callback calls shutdown and no answer is kept in part has a step at which an assert
   * fails, whatever clients, kernel and scheduling do.
   */
  lemma PromptRunsNeverAbort(base: string, n: nat, steps: seq<Step>, u: Sys, step: Step)
    requires Reaches(Init(base, n), steps, u) && forall i :: 0 <= i < |steps| ==> Prompt(steps[i])
    requires Enabled(u, step)
    ensures After(u, step).Next?
  {
    OnlyLateCloseAborts(base, n, steps, u, step);
    TameRun(Init(base, n), steps, u);
    hide Enabled, After, Reaches, Init;
    TameClosesNothing(u, step);
  }

  lemma TameClosesNothing(s: Sys, step: Step)
    requires Tame(s)
    requires ClosesUnconnected(s, step) && s.loops[step.t].pc.stage == AtClose ==>
               s.conns[s.loops[step.t].pc.c].state == Disconnecting
    ensures !ClosesUnconnected(s, step)
  {
    if step.Handle? && step.t < |s.loops| {
      var pc := s.loops[step.t].pc;
      assert TamePc(pc);
      if pc.Handling? && pc.c < |s.conns| { TameAt(s, pc.c); }
    }
  }

  // ---------------------------------------------------------------- at rest

  /** Every loop is at poll with an empty queue, and no wakeup is owed. */
  ghost predicate AtRest(s: Sys) {
    s.owes == map[] && forall l :: 0 <= l < |s.loops| ==> s.loops[l].pc.Polling? && s.loops[l].pending == []
  }

  /**
   * At rest nothing is left half done: every connection is either open, in the map and
   * polled for by its loop, or closed, out of the map, destroyed and no longer held.
   */
  lemma NothingLeaks(base: string, n: nat, steps: seq<Step>, u: Sys, c: nat)
    requires Reaches(Init(base, n), steps, u) && AtRest(u) && c < |u.conns|
    ensures var k := u.conns[c];
      if k.name in u.registry then
        && k.state in {Connected, Disconnecting} && k.destroyed == 0
        && k.loop < |u.loops| && k.channel.fd in u.loops[k.loop].poller.kernel
        && u.loops[k.loop].poller.kernel[k.channel.fd] == P.Entry(k.channel.events + {P.Et}, c)
      else k.state == Disconnected && k.established == k.erased == k.destroyed == 1 && !Held(u, c)
  {
    ReachableInv(base, n, steps, u);
    DestructorsPass(base, n, steps, u, c);
    RestingPhase(u, c);
    hide Inv, Held;
    if PhaseAt(u, c) == Live {
      InvAgrees(u, Nothing);
      LiveIsPolled(u, c);
    }
  }

  lemma RestingPhase(s: Sys, c: nat)
    requires Inv(s, Nothing) && AtRest(s) && c < |s.conns|
    ensures PhaseAt(s, c) in {Live, Gone} && LifeOk(s.conns[c], s.conns[c].name in s.registry)
    ensures PhaseAt(s, c) == Live ==> s.conns[c].name in s.registry
    ensures PhaseAt(s, c) == Gone ==> s.conns[c].name !in s.registry
  {
    InvAgrees(s, Nothing);
    var l := s.conns[c].loop;
    assert IdentityOk(s.base, |s.loops|, s.conns, c);
    assert LoopActive(s, l) && LoopActive(s, 0);
    hide Inv, Identities, PollersAgree, Actives, Tokens, Lifecycle;
    assert LifeOk(s.conns[c], s.conns[c].name in s.registry) by { LifeAt(s, c); }
    QueueCounts(s, l, Established(c));
    QueueCounts(s, 0, RemoveInLoop(c));
    QueueCounts(s, l, Destroyed(c));
  }

  lemma LifeAt(s: Sys, c: nat)
    requires Lifecycle(s) && c < |s.conns|
    ensures LifeOk(s.conns[c], s.conns[c].name in s.registry)
  {
  }

  lemma LiveIsPolled(s: Sys, c: nat)
    requires Lifecycle(s) && Identities(s) && PollersAgree(s) && |s.loops| >= 1
    requires c < |s.conns| && PhaseAt(s, c) == Live
    ensures var k := s.conns[c];
      && k.loop < |s.loops| && k.channel.fd in s.loops[k.loop].poller.kernel
      && s.loops[k.loop].poller.kernel[k.channel.fd] == P.Entry(k.channel.events + {P.Et}, c)
  {
    var k := s.conns[c];
    LiveConn(s, c);
    assert IdentityOk(s.base, |s.loops|, s.conns, c);
    assert P.Agree(s.loops[k.loop].poller, ChansOf(s.conns, k.loop));
    assert ChansOf(s.conns, k.loop)[c] == k.channel;
    assert P.ChannelAgrees(s.loops[k.loop].poller, c, k.channel);
  }

  lemma SendResult(s: Sys, t: nat, c: nat, kept: nat)
    requires Inv(s, Nothing) && InItsThread(s, t, c) && s.conns[c].state == Connected && kept > 0
    ensures var r := DoSend(s, c, kept);
      && r.Next? && |r.sys.conns| == |s.conns| && |r.sys.loops| == |s.loops|
      && r.sys.conns[c].state == Connected && r.sys.conns[c].loop == t
      && P.Out in r.sys.conns[c].channel.events
  {
    var conn := s.conns[c].(writeIdx := s.conns[c].writeIdx + kept);
    InvAgrees(s, Nothing);
    WritingBit(s.conns[c].channel);
    hide Inv, ChannelOp, Identities, Tokens, Actives, PollersAgree, Moved;
    assert P.Out in P.NewEvents(P.EnableWrite, conn.channel.events);
    StateThenOp(s, c, conn, P.EnableWrite);
  }

  /**
   * A send that leaves output in the buffer arms the write event: epoll then reports when
   * the connection can go on.
   */
  lemma KeptOutputIsArmed(s: Sys, t: nat, c: nat, kept: nat)
    requires Inv(s, Nothing) && InItsThread(s, t, c) && s.conns[c].state == Connected && kept > 0
    ensures var r := DoSend(s, c, kept);
      && r.Next? && c < |r.sys.conns| && t < |r.sys.loops|
      && var fd, kernel := r.sys.conns[c].channel.fd, r.sys.loops[t].poller.kernel;
      fd in kernel && P.Out in kernel[fd].events && kernel[fd].ch == c
  {
    SendResult(s, t, c, kept);
    SendKeeps(s, c, kept);
    hide DoSend;
    var u := DoSend(s, c, kept).sys;
    InvAgrees(u, Nothing);
    hide Inv, Identities, Tokens, Actives, PollersAgree, Lifecycle;
    LiveIsPolled(u, c);
  }
}
