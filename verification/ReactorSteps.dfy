/** Every step of the reactor keeps its invariant, and exactly when a step aborts. */
module ReactorSteps {
  import P = Pollers
  import RoundRobin
  import opened Reactors
  import opened ReactorInvariants
  import opened ReactorOperations

  // ---------------------------------------------------------------- a live connection stays live

  lemma LiveBalance(s: Sys, u: Sys, c: nat)
    requires c < |s.conns| == |u.conns| && s.conns[c].loop == u.conns[c].loop
    requires PhaseAt(s, c) == PhaseAt(u, c)
    ensures Balanced(s, u, c, Nothing, Nothing)
  {
  }

  lemma StaysLive(s: Sys, u: Sys, c: nat)
    requires Inv(s, Nothing) && Moved(s, u, c) && PollersAgree(u) && u.registry == s.registry
    requires PhaseAt(s, c) == Live
    requires u.conns[c].state in {Connected, Disconnecting} && u.conns[c].channel.status == P.Added
    requires u.conns[c].writeIdx > 0 ==> P.Out in u.conns[c].channel.events
    requires (u.conns[c].established, u.conns[c].erased, u.conns[c].destroyed)
          == (s.conns[c].established, s.conns[c].erased, s.conns[c].destroyed)
    ensures Inv(u, Nothing) && Forward(s, u)
  {
    LiveConn(s, c);
    assert Identities(s);
    hide Inv, Identities, PollersAgree, Forward, Balanced, NotAwaited, NotHandled;
    LiveBalance(s, u, c);
    MovedForward(s, u, c);
    MovedInv(s, u, c, Nothing, Nothing);
  }

  /** Arming write interest on a live connection, with output of any length waiting afterwards. */
  lemma ArmingKeeps(s: Sys, c: nat, writeIdx: nat)
    requires Inv(s, Nothing) && c < |s.conns| && s.conns[c].loop < |s.loops| && PhaseAt(s, c) == Live
    ensures var r := ChannelOp(s.(conns := s.conns[c := s.conns[c].(writeIdx := writeIdx)]), c, P.EnableWrite);
      r.Next? && Inv(r.sys, Nothing) && Forward(s, r.sys)
  {
    LiveConn(s, c);
    assert P.Out in P.NewEvents(P.EnableWrite, s.conns[c].channel.events);
    hide Inv, PollersAgree, ChannelOp, Moved, Forward;
    InvAgrees(s, Nothing);
    var conn := s.conns[c].(writeIdx := writeIdx);
    StateThenOp(s, c, conn, P.EnableWrite);
    StaysLive(s, ChannelOp(s.(conns := s.conns[c := conn]), c, P.EnableWrite).sys, c);
  }

  /** Turning write interest off, once the output has been sent, leaves the connection live. */
  lemma DisarmingKeeps(s: Sys, c: nat)
    requires Inv(s, Nothing) && c < |s.conns| && s.conns[c].loop < |s.loops| && PhaseAt(s, c) == Live
    requires P.Out in s.conns[c].channel.events
    ensures var r := ChannelOp(s.(conns := s.conns[c := s.conns[c].(writeIdx := 0)]), c, P.DisableWrite);
      r.Next? && Inv(r.sys, Nothing) && Forward(s, r.sys)
  {
    LiveConn(s, c);
    assert P.Out in P.NewEvents(P.DisableWrite, s.conns[c].channel.events);
    hide Inv, PollersAgree, ChannelOp, Moved, Forward;
    InvAgrees(s, Nothing);
    var conn := s.conns[c].(writeIdx := 0);
    StateThenOp(s, c, conn, P.DisableWrite);
    StaysLive(s, ChannelOp(s.(conns := s.conns[c := conn]), c, P.DisableWrite).sys, c);
  }

  lemma BufferingKeeps(s: Sys, c: nat, writeIdx: nat)
    requires Inv(s, Nothing) && c < |s.conns| && PhaseAt(s, c) == Live && P.Out in s.conns[c].channel.events
    ensures var u := s.(conns := s.conns[c := s.conns[c].(writeIdx := writeIdx)]); Inv(u, Nothing) && Forward(s, u)
  {
    LiveConn(s, c);
    var conn := s.conns[c].(writeIdx := writeIdx);
    hide Inv, PollersAgree, Forward;
    InvAgrees(s, Nothing);
    StateChange(s, c, conn);
    hide Moved;
    StaysLive(s, s.(conns := s.conns[c := conn]), c);
  }

  /** Whatever a send leaves in the buffer, the connection stays live and is armed for it. */
  lemma SendKeeps(s: Sys, c: nat, kept: nat)
    requires Inv(s, Nothing) && c < |s.conns| && s.conns[c].loop < |s.loops|
    ensures var r := DoSend(s, c, kept); r.Next? && Inv(r.sys, Nothing) && Forward(s, r.sys)
  {
    hide Inv, Forward, ChannelOp;
    WritingBit(s.conns[c].channel);
    if s.conns[c].state == Connected && kept > 0 {
      if s.conns[c].channel.IsWriting() {
        BufferingKeeps(s, c, s.conns[c].writeIdx + kept);
      } else {
        ArmingKeeps(s, c, s.conns[c].writeIdx + kept);
      }
    } else {
      SameForward(s);
    }
  }

  lemma SameForward(s: Sys)
    ensures Forward(s, s)
  {
  }

  lemma WritingBit(ch: P.Channel)
    ensures ch.IsWriting() <==> P.Out in ch.events
  {
    assert P.Out in ch.events ==> P.Out in ch.events * P.WRITE_EVENT;
    if ch.IsWriting() { var bit :| bit in ch.events * P.WRITE_EVENT; }
  }

  lemma InvAgrees(s: Sys, hand: Hand)
    requires Inv(s, hand)
    ensures PollersAgree(s) && Identities(s) && Lifecycle(s) && Actives(s) && Tokens(s, hand) && Shape(s)
  {
  }

  lemma ShutdownKeeps(s: Sys, c: nat)
    requires Inv(s, Nothing) && c < |s.conns| && s.conns[c].loop < |s.loops| && s.conns[c].state == Connected
    ensures var u := s.(conns := s.conns[c := s.conns[c].(state := Disconnecting)]);
      Inv(u, Nothing) && Forward(s, u)
  {
    LiveConn(s, c);
    hide Inv, PollersAgree, Forward;
    InvAgrees(s, Nothing);
    StateChange(s, c, s.conns[c].(state := Disconnecting));
    StaysLive(s, s.(conns := s.conns[c := s.conns[c].(state := Disconnecting)]), c);
  }

  // ---------------------------------------------------------------- a new connection

  lemma NewNameIsFree(s: Sys)
    requires Identities(s) && s.nextConnId == |s.conns| + 1
    ensures ConnName(s.base, s.nextConnId) !in s.registry
    ensures forall c :: 0 <= c < |s.conns| ==> s.conns[c].name != ConnName(s.base, s.nextConnId)
  {
    forall c | 0 <= c < |s.conns|
      ensures s.conns[c].name != ConnName(s.base, s.nextConnId)
    {
      assert IdentityOk(s.base, |s.loops|, s.conns, c);
      hide ConnName;
      if s.conns[c].name == ConnName(s.base, s.nextConnId) {
        NamesAreUnique(s.base, c + 1, s.nextConnId);
      }
    }
  }

  lemma AddConnIdentities(s: Sys, fd: int)
    requires Shape(s) && Identities(s) && FreshFd(s, fd)
    ensures Identities(AddConn(s, fd))
  {
    var u := AddConn(s, fd);
    hide ConnName;
    forall c | 0 <= c < |u.conns|
      ensures IdentityOk(u.base, |u.loops|, u.conns, c)
    {
      if c < |s.conns| { assert IdentityOk(s.base, |s.loops|, s.conns, c); }
    }
    assert DistinctFds(u.conns);
    NewNameIsFree(s);
    assert RegistryOk(u.conns, u.registry);
  }

  lemma AddConnPhases(s: Sys, fd: int, c: nat)
    requires Shape(s) && Identities(s) && c < |s.conns|
    ensures var u := AddConn(s, fd);
      && c < |u.conns| && u.conns[c] == s.conns[c]
      && (u.conns[c].name in u.registry <==> s.conns[c].name in s.registry)
      && PhaseAt(u, c) == PhaseAt(s, c)
  {
    NewNameIsFree(s);
  }

  lemma AddConnLifecycle(s: Sys, fd: int)
    requires Shape(s) && Identities(s) && Lifecycle(s)
    ensures Lifecycle(AddConn(s, fd))
    ensures PhaseAt(AddConn(s, fd), |s.conns|) == EstablishQueued
  {
    var u := AddConn(s, fd);
    hide Identities, Shape, ConnName;
    forall c | 0 <= c < |u.conns|
      ensures LifeOk(u.conns[c], u.conns[c].name in u.registry)
    {
      if c < |s.conns| { AddConnPhases(s, fd, c); }
    }
  }

  lemma ChansAppend(conns: seq<Conn>, conn: Conn, l: nat)
    ensures ChansOf(conns + [conn], l) ==
            if conn.loop == l then ChansOf(conns, l)[|conns| := conn.channel] else ChansOf(conns, l)
  {
  }

  lemma AddConnPollers(s: Sys, fd: int)
    requires PollersAgree(s) && FreshFd(s, fd)
    ensures PollersAgree(AddConn(s, fd))
  {
    var u := AddConn(s, fd);
    hide ConnName, NextAfter;
    forall l | 0 <= l < |u.loops|
      ensures P.Agree(u.loops[l].poller, ChansOf(u.conns, l))
    {
      assert P.Agree(s.loops[l].poller, ChansOf(s.conns, l));
      ChansAppend(s.conns, FreshConn(s, fd), l);
      P.NewcomerAgrees(s.loops[l].poller, ChansOf(s.conns, l), |s.conns|, fd) by { hide P.Agree; }
    }
  }

  lemma AddConnTokens(s: Sys, fd: int)
    requires Shape(s) && Identities(s) && Tokens(s, Nothing)
    ensures Tokens(AddConn(s, fd), Holding(ChosenLoop(s), Established(|s.conns|)))
  {
    var u := AddConn(s, fd);
    var hand := Holding(ChosenLoop(s), Established(|s.conns|));
    hide Identities, ConnName;
    forall l: nat, f: Functor | l < |u.loops| && !f.Task?
      ensures Count(u.loops[l], f) + InHand(hand, l, f) == Expected(u, l, f)
    {
      assert Count(s.loops[l], f) + InHand(Nothing, l, f) == Expected(s, l, f);
      if f.c < |s.conns| { AddConnPhases(s, fd, f.c); }
    }
  }

  lemma AddConnActives(s: Sys, fd: int)
    requires Shape(s) && Identities(s) && Actives(s)
    ensures Actives(AddConn(s, fd))
  {
    var u := AddConn(s, fd);
    forall l | 0 <= l < |u.loops|
      ensures LoopActive(u, l)
    {
      assert LoopActive(s, l);
      hide Identities, Shape, ConnName, PhaseAt, AddConn;
      assert u.loops == s.loops by { AddConnLoops(s, fd); }
      var at := s.loops[l];
      forall i | 0 <= i < |at.active|
        ensures ItemOk(u, l, at.active[i])
      {
        assert ItemOk(s, l, at.active[i]);
        if at.active[i].Ready? { AddConnPhases(s, fd, at.active[i].c); }
      }
      if at.pc.Handling? { AddConnPhases(s, fd, at.pc.c); }
    }
  }

  lemma AddConnLoops(s: Sys, fd: int)
    ensures AddConn(s, fd).loops == s.loops && AddConn(s, fd).owes == s.owes
  {
  }

  lemma AddConnForward(s: Sys, fd: int)
    requires Shape(s) && Identities(s)
    ensures Forward(s, AddConn(s, fd))
  {
    var u := AddConn(s, fd);
    hide Identities, Shape, ConnName, PhaseAt;
    forall c | 0 <= c < |s.conns|
      ensures SameIdentity(s.conns[c], u.conns[c]) && Rank(PhaseAt(s, c)) <= Rank(PhaseAt(u, c))
    {
      AddConnPhases(s, fd, c);
    }
  }

  lemma AddConnShape(s: Sys, fd: int)
    requires Shape(s) && NoLostWakeup(s) && QueueOrder(s)
    ensures Shape(AddConn(s, fd)) && NoLostWakeup(AddConn(s, fd)) && QueueOrder(AddConn(s, fd))
  {
    var u := AddConn(s, fd);
    if |s.loops| > 1 { RoundRobin.TurnsGoRound(|s.conns|, |s.loops| - 1); }
    hide ConnName;
    forall k | 0 <= k < |u.loops| && (u.loops[k].pc.Polling? || u.loops[k].pc.Running?) && u.loops[k].pending != []
      ensures u.loops[k].signal || Owed(u, k)
    {
      assert Owed(u, k) == Owed(s, k);
    }
  }

  lemma AddConnKeeps(s: Sys, fd: int)
    requires Inv(s, Nothing) && FreshFd(s, fd)
    ensures Inv(AddConn(s, fd), Holding(ChosenLoop(s), Established(|s.conns|))) && Forward(s, AddConn(s, fd))
  {
    hide Shape, Identities, Lifecycle, PollersAgree, Tokens, Actives, NoLostWakeup, QueueOrder, AddConn;
    AddConnIdentities(s, fd);
    AddConnLifecycle(s, fd);
    AddConnPollers(s, fd);
    AddConnTokens(s, fd);
    AddConnActives(s, fd);
    AddConnForward(s, fd);
    AddConnShape(s, fd);
  }

  /** newConnection on the base thread always succeeds. */
  lemma NewConnectionKeeps(s: Sys, fd: int)
    requires Inv(s, Nothing) && FreshFd(s, fd) && 0 !in s.owes && !s.loops[0].pc.Polling?
    ensures var r := NewConnection(s, 0, fd); r.Next? && Inv(r.sys, Nothing) && Forward(s, r.sys)
  {
    assert ChosenLoop(s) < |s.loops| by { InvAgrees(s, Nothing); hide Identities; }
    hide Inv, Forward;
    AddConnKeeps(s, fd);
    var m := AddConn(s, fd);
    var l := ChosenLoop(s);
    if l == 0 {
      EstablishKeeps(m, 0, |s.conns|);
      ForwardTwice(s, m, DoEstablished(m, 0, |s.conns|).sys);
    } else {
      EnqueueKeeps(m, 0, l, Established(|s.conns|));
      ForwardTwice(s, m, Enqueue(m, 0, l, Established(|s.conns|)));
    }
  }

  // ---------------------------------------------------------------- steps of the loop itself

  /** Only loop `l`, apart from its poller, and the debts of wakeups differ. */
  ghost predicate Controlled(s: Sys, u: Sys, l: nat) {
    && l < |s.loops| == |u.loops|
    && u == s.(loops := s.loops[l := u.loops[l]], owes := u.owes)
    && u.loops[l].poller == s.loops[l].poller
  }

  predicate InOrder(at: Loop) {
    at.log == at.executed + at.batch + at.pending
  }

  ghost predicate SameCounts(a: Loop, b: Loop, l: nat, hand: Hand, hand': Hand) {
    forall f: Functor :: !f.Task? ==> Count(a, f) + InHand(hand, l, f) == Count(b, f) + InHand(hand', l, f)
  }

  predicate HeldAt(hand: Hand, l: nat) {
    hand.Holding? ==> hand.l == l
  }

  lemma ControlledTokens(s: Sys, u: Sys, l: nat, hand: Hand, hand': Hand)
    requires Tokens(s, hand) && Controlled(s, u, l) && HeldAt(hand, l) && HeldAt(hand', l)
    requires SameCounts(s.loops[l], u.loops[l], l, hand, hand')
    ensures Tokens(u, hand')
  {
    hide Count;
    forall k: nat, f: Functor | k < |u.loops| && !f.Task?
      ensures Count(u.loops[k], f) + InHand(hand', k, f) == Expected(u, k, f)
    {
      assert Count(s.loops[k], f) + InHand(hand, k, f) == Expected(s, k, f);
    }
  }

  lemma ControlledActives(s: Sys, u: Sys, l: nat)
    requires Actives(s) && Controlled(s, u, l) && LoopActive(u, l)
    ensures Actives(u)
  {
    forall k | 0 <= k < |u.loops|
      ensures LoopActive(u, k)
    {
      assert LoopActive(s, k);
      if k != l { SameConnsActive(s, u, k) by { hide LoopActive; } }
    }
  }

  lemma ControlKeeps(s: Sys, u: Sys, l: nat, hand: Hand, hand': Hand)
    requires Inv(s, hand) && Controlled(s, u, l) && HeldAt(hand, l) && HeldAt(hand', l)
    requires SameCounts(s.loops[l], u.loops[l], l, hand, hand')
    requires LoopActive(u, l) && InOrder(u.loops[l]) && NoLostWakeup(u)
    requires forall t :: t in u.owes ==> t in s.owes && u.owes[t] == s.owes[t]
    requires u.loops[l].pc.Polling? ==> s.loops[l].pc.Polling? || l !in u.owes
    ensures Inv(u, hand') && Forward(s, u)
  {
    hide Identities, Tokens, Actives, NoLostWakeup, LoopActive, SameCounts, PollersAgree;
    SameConnsIdentities(s, u);
    SamePollers(s, u);
    ControlledTokens(s, u, l, hand, hand');
    ControlledActives(s, u, l);
  }

  /** With the same debts, only the changed loop's own wakeup has to be looked at. */
  lemma ControlledWakeups(s: Sys, u: Sys, l: nat)
    requires NoLostWakeup(s) && Controlled(s, u, l) && u.owes == s.owes
    requires (u.loops[l].pc.Polling? || u.loops[l].pc.Running?) && u.loops[l].pending != [] ==>
               u.loops[l].signal || Owed(u, l)
    ensures NoLostWakeup(u)
  {
    forall k | 0 <= k < |u.loops| && (u.loops[k].pc.Polling? || u.loops[k].pc.Running?) && u.loops[k].pending != []
      ensures u.loops[k].signal || Owed(u, k)
    {
      assert Owed(u, k) == Owed(s, k);
    }
  }

  /** What epoll reports for a connection is a live connection of the loop. */
  lemma ReportIsLive(s: Sys, l: nat, r: Report)
    requires Inv(s, Nothing) && l < |s.loops| && r.FdReady? && r.fd in s.loops[l].poller.kernel
    ensures Known(s, s.loops[l], r)
    ensures var c := s.loops[l].poller.kernel[r.fd].ch; LiveOn(s, l, c) && s.conns[c].channel.fd == r.fd
  {
    InvAgrees(s, Nothing);
    var p := s.loops[l].poller;
    var c := p.kernel[r.fd].ch;
    hide Inv, Identities, Actives, Tokens;
    assert P.Agree(p, ChansOf(s.conns, l));
    P.EpollReturnsKnownChannels(p, ChansOf(s.conns, l), r.fd);
    assert LifeOk(s.conns[c], s.conns[c].name in s.registry);
  }

  lemma PollItem(s: Sys, t: nat, r: Report)
    requires Inv(s, Nothing) && t < |s.loops| && Reportable(s.loops[t], t, r)
    ensures ItemOk(s, t, ItemOf(s.loops[t], r))
  {
    hide Inv;
    if r.FdReady? { ReportIsLive(s, t, r); }
  }

  lemma PollDistinct(s: Sys, t: nat, r: Report, q: Report)
    requires Inv(s, Nothing) && t < |s.loops| && Reportable(s.loops[t], t, r) && Reportable(s.loops[t], t, q)
    requires !SameSource(r, q)
    ensures !SameConn(ItemOf(s.loops[t], r), ItemOf(s.loops[t], q))
  {
    hide Inv;
    if r.FdReady? && q.FdReady? {
      ReportIsLive(s, t, r);
      ReportIsLive(s, t, q);
    }
  }

  function Polled(s: Sys, t: nat, reports: seq<Report>): Sys
    requires t < |s.loops|
    requires forall i :: 0 <= i < |reports| && reports[i].FdReady? ==> reports[i].fd in s.loops[t].poller.kernel
  {
    s.(loops := s.loops[t := s.loops[t].(pc := Dispatching, active := Items(s.loops[t], reports), seen := [])])
  }

  lemma ReportsAreRegistered(at: Loop, l: nat, reports: seq<Report>)
    requires ValidReports(at, l, reports)
    ensures forall i :: 0 <= i < |reports| && reports[i].FdReady? ==> reports[i].fd in at.poller.kernel
  {
    forall i | 0 <= i < |reports| && reports[i].FdReady?
      ensures reports[i].fd in at.poller.kernel
    {
      assert Reportable(at, l, reports[i]);
    }
  }

  lemma PollActive(s: Sys, t: nat, reports: seq<Report>)
    requires Inv(s, Nothing) && t < |s.loops| && s.loops[t].pc.Polling? && ValidReports(s.loops[t], t, reports)
    requires forall i :: 0 <= i < |reports| && reports[i].FdReady? ==> reports[i].fd in s.loops[t].poller.kernel
    ensures LoopActive(Polled(s, t, reports), t)
  {
    assert LoopActive(s, t);
    var u := Polled(s, t, reports);
    var at := s.loops[t];
    hide Inv, PhaseAt, Reportable, ItemOf, SameConn, SameSource;
    forall i | 0 <= i < |reports|
      ensures ItemOk(u, t, u.loops[t].active[i])
    {
      PollItem(s, t, reports[i]);
      SamePhases(s, u, t, u.loops[t].active[i]);
    }
    forall i, j | 0 <= i < j < |reports|
      ensures !SameConn(u.loops[t].active[i], u.loops[t].active[j])
    {
      PollDistinct(s, t, reports[i], reports[j]);
    }
  }

  lemma SamePhases(s: Sys, u: Sys, l: nat, item: Item)
    requires u.conns == s.conns && u.registry == s.registry && ItemOk(s, l, item)
    ensures ItemOk(u, l, item)
  {
    hide PhaseOf;
  }

  /** epoll_wait's results always pass the lookup asserts. */
  lemma PollKeeps(s: Sys, t: nat, reports: seq<Report>)
    requires Inv(s, Nothing) && t < |s.loops| && s.loops[t].pc.Polling? && ValidReports(s.loops[t], t, reports)
    ensures var r := Poll(s, t, reports); r.Next? && Inv(r.sys, Nothing) && Forward(s, r.sys)
  {
    forall i | 0 <= i < |reports|
      ensures Known(s, s.loops[t], reports[i])
    {
      assert Reportable(s.loops[t], t, reports[i]);
      if reports[i].FdReady? { ReportIsLive(s, t, reports[i]) by { hide Inv; } }
    }
    ReportsAreRegistered(s.loops[t], t, reports);
    var u := Polled(s, t, reports);
    hide Known, LoopActive, Forward, Owed, ValidReports;
    PollActive(s, t, reports) by { hide Inv; }
    ControlledWakeups(s, u, t);
    assert SameCounts(s.loops[t], u.loops[t], t, Nothing, Nothing);
    ControlKeeps(s, u, t, Nothing, Nothing) by { hide Inv; }
  }

  /** The first active channel has been taken, with the pc and signal that follow. */
  function Popped(s: Sys, t: nat, pc: Pc, signal: bool): Sys
    requires t < |s.loops| && s.loops[t].active != []
  {
    var at := s.loops[t];
    var popped := at.(active := at.active[1..], seen := at.seen + [at.active[0]], pc := pc, signal := signal);
    s.(loops := s.loops[t := popped])
  }

  lemma TailActive(s: Sys, t: nat, pc: Pc)
    requires t < |s.loops| && LoopActive(s, t) && s.loops[t].active != [] && s.loops[t].pc.Dispatching?
    requires pc.Dispatching? || (pc.Handling? && pc.stage == AtClose && s.loops[t].active[0] == Ready(pc.c, pc.rcv))
    ensures forall signal :: LoopActive(Popped(s, t, pc, signal), t)
  {
    var at := s.loops[t];
    assert ItemOk(s, t, at.active[0]);
    forall signal
      ensures LoopActive(Popped(s, t, pc, signal), t)
    {
      var u := Popped(s, t, pc, signal);
      hide PhaseOf;
      forall i | 0 <= i < |u.loops[t].active|
        ensures ItemOk(u, t, u.loops[t].active[i])
        ensures !SameConn(at.active[0], u.loops[t].active[i])
      {
        assert ItemOk(s, t, at.active[i + 1]);
        assert !SameConn(at.active[0], at.active[i + 1]);
      }
      forall i, j | 0 <= i < j < |u.loops[t].active|
        ensures !SameConn(u.loops[t].active[i], u.loops[t].active[j])
      {
        assert !SameConn(at.active[i + 1], at.active[j + 1]);
      }
    }
  }

  lemma PopKeeps(s: Sys, t: nat, pc: Pc, signal: bool)
    requires Inv(s, Nothing) && t < |s.loops| && s.loops[t].active != [] && s.loops[t].pc.Dispatching?
    requires pc.Dispatching? || (pc.Handling? && pc.stage == AtClose && s.loops[t].active[0] == Ready(pc.c, pc.rcv))
    ensures var u := Popped(s, t, pc, signal); Inv(u, Nothing) && Forward(s, u)
  {
    var at := s.loops[t];
    var u := Popped(s, t, pc, signal);
    assert LoopActive(s, t);
    hide LoopActive, Forward;
    TailActive(s, t, pc);
    ControlledWakeups(s, u, t);
    assert SameCounts(s.loops[t], u.loops[t], t, Nothing, Nothing);
    ControlKeeps(s, u, t, Nothing, Nothing) by { hide Inv; }
  }

  lemma DispatchKeeps(s: Sys, t: nat, accepted: int)
    requires Inv(s, Nothing) && t < |s.loops| && s.loops[t].active != [] && s.loops[t].pc.Dispatching?
    requires t !in s.owes && (accepted > 0 ==> FreshFd(s, accepted))
    ensures var r := Dispatch(s, t, accepted); r.Next? && Inv(r.sys, Nothing) && Forward(s, r.sys)
  {
    var at := s.loops[t];
    assert ItemOk(s, t, at.active[0]) by { InvAgrees(s, Nothing); assert LoopActive(s, t); }
    hide Inv, Forward;
    match at.active[0]
    case Wakeup => PopKeeps(s, t, Dispatching, false);
    case Accept =>
      PopKeeps(s, t, Dispatching, at.signal);
      var m := Popped(s, t, Dispatching, at.signal);
      if accepted > 0 {
        NewConnectionKeeps(m, accepted);
        ForwardTwice(s, m, NewConnection(m, t, accepted).sys);
      }
    case Ready(c, rcv) => PopKeeps(s, t, Handling(c, rcv, AtClose), at.signal);
  }

  /** Changing only the program counter of a loop that is not, and does not get, to the queues. */
  lemma SetPcKeeps(s: Sys, t: nat, pc: Pc)
    requires Inv(s, Nothing) && t < |s.loops| && s.loops[t].pc.Handling?
    requires pc.Dispatching? || (pc.Handling? && pc.c == s.loops[t].pc.c)
    requires pc.Handling? && pc.c < |s.conns| && NeedsLive(s, pc.c, pc.stage) ==> PhaseAt(s, pc.c) == Live
    ensures Inv(SetPc(s, t, pc), Nothing) && Forward(s, SetPc(s, t, pc))
  {
    var u := SetPc(s, t, pc);
    assert LoopActive(u, t) by {
      assert LoopActive(s, t);
      hide PhaseOf;
      forall i | 0 <= i < |u.loops[t].active|
        ensures ItemOk(u, t, u.loops[t].active[i])
      {
        assert ItemOk(s, t, s.loops[t].active[i]);
      }
    }
    hide LoopActive, Forward;
    ControlledWakeups(s, u, t);
    assert SameCounts(s.loops[t], u.loops[t], t, Nothing, Nothing);
    ControlKeeps(s, u, t, Nothing, Nothing) by { hide Inv; }
  }

  lemma SwapKeeps(s: Sys, t: nat)
    requires Inv(s, Nothing) && t < |s.loops| && s.loops[t].pc.Dispatching? && s.loops[t].active == []
    ensures var at := s.loops[t];
      var u := s.(loops := s.loops[t := at.(pc := Running, batch := at.pending, pending := [], ran := [])]);
      Inv(u, Nothing) && Forward(s, u)
  {
    var at := s.loops[t];
    var u := s.(loops := s.loops[t := at.(pc := Running, batch := at.pending, pending := [], ran := [])]);
    assert LoopActive(s, t);
    assert LoopActive(u, t);
    assert at.executed + [] + at.pending == at.executed + at.pending + [];
    hide LoopActive, Forward;
    ControlledWakeups(s, u, t);
    assert SameCounts(s.loops[t], u.loops[t], t, Nothing, Nothing);
    ControlKeeps(s, u, t, Nothing, Nothing) by { hide Inv; }
  }

  lemma EndBatchKeeps(s: Sys, t: nat)
    requires Inv(s, Nothing) && t < |s.loops| && t !in s.owes && s.loops[t].pc.Running? && s.loops[t].batch == []
    ensures var u := s.(loops := s.loops[t := s.loops[t].(pc := Polling, ran := [])]); Inv(u, Nothing) && Forward(s, u)
  {
    var u := s.(loops := s.loops[t := s.loops[t].(pc := Polling, ran := [])]);
    assert LoopActive(s, t);
    assert LoopActive(u, t);
    assert Owed(u, t) == Owed(s, t);
    hide LoopActive, Forward;
    ControlledWakeups(s, u, t);
    assert SameCounts(s.loops[t], u.loops[t], t, Nothing, Nothing);
    ControlKeeps(s, u, t, Nothing, Nothing) by { hide Inv; }
  }

  lemma TakeOrder(executed: seq<Functor>, batch: seq<Functor>, pending: seq<Functor>)
    requires batch != []
    ensures executed + batch + pending == executed + [batch[0]] + batch[1..] + pending
  {
    assert batch == [batch[0]] + batch[1..];
  }

  lemma TakeCounts(at: Loop, l: nat)
    requires at.batch != []
    ensures SameCounts(at, at.(batch := at.batch[1..], ran := at.ran + [at.batch[0]],
                               executed := at.executed + [at.batch[0]]), l, Nothing, Holding(l, at.batch[0]))
  {
    assert at.batch == [at.batch[0]] + at.batch[1..];
  }

  lemma TakeKeeps(s: Sys, t: nat)
    requires Inv(s, Nothing) && t < |s.loops| && s.loops[t].pc.Running? && s.loops[t].batch != []
    ensures Inv(TakeFromBatch(s, t), Holding(t, s.loops[t].batch[0])) && Forward(s, TakeFromBatch(s, t))
  {
    var u := TakeFromBatch(s, t);
    var at := s.loops[t];
    assert LoopActive(s, t);
    assert LoopActive(u, t);
    assert Owed(u, t) == Owed(s, t);
    TakeOrder(at.executed, at.batch, at.pending);
    hide LoopActive, Forward;
    ControlledWakeups(s, u, t);
    TakeCounts(at, t);
    hide SameCounts;
    ControlKeeps(s, u, t, Nothing, Holding(t, at.batch[0])) by { hide Inv; }
  }

  /** A functor of the user's own is none of the protocol's. */
  lemma TaskInHand(s: Sys, l: nat, k: nat)
    ensures Inv(s, Holding(l, Task(k))) <==> Inv(s, Nothing)
  {
    hide Shape, Identities, Lifecycle, PollersAgree, Actives, NoLostWakeup, QueueOrder, Count, Expected;
    forall m: nat, f: Functor | m < |s.loops| && !f.Task?
      ensures InHand(Holding(l, Task(k)), m, f) == InHand(Nothing, m, f)
    {
    }
    assert Tokens(s, Holding(l, Task(k))) <==> Tokens(s, Nothing);
  }

  /** Whatever functor a loop runs, it is one that is due and it does not abort. */
  lemma RunNextKeeps(s: Sys, t: nat)
    requires Inv(s, Nothing) && t < |s.loops| && t !in s.owes && s.loops[t].pc.Running? && s.loops[t].batch != []
    ensures var r := RunFunctor(TakeFromBatch(s, t), t, s.loops[t].batch[0]);
      r.Next? && Inv(r.sys, Nothing) && Forward(s, r.sys)
  {
    var f := s.loops[t].batch[0];
    var m := TakeFromBatch(s, t);
    TakeKeeps(s, t);
    hide Forward;
    match f
    case Established(c) =>
      hide Inv;
      EstablishKeeps(m, t, c);
      ForwardTwice(s, m, RunFunctor(m, t, f).sys);
    case RemoveInLoop(c) =>
      assert t == 0 by { InvAgrees(m, Holding(t, f)); HandIsExpected(m, t, f); }
      hide Inv;
      RemoveKeeps(m, c);
      ForwardTwice(s, m, RunFunctor(m, t, f).sys);
    case Destroyed(c) =>
      hide Inv;
      DestroyKeeps(m, t, c);
      ForwardTwice(s, m, RunFunctor(m, t, f).sys);
    case Task(k) => TaskInHand(m, t, k);
  }

  lemma WakeKeeps(s: Sys, t: nat)
    requires Inv(s, Nothing) && t in s.owes && s.owes[t] < |s.loops|
    ensures var u := s.(loops := s.loops[s.owes[t] := s.loops[s.owes[t]].(signal := true)], owes := s.owes - {t});
      Inv(u, Nothing) && Forward(s, u)
  {
    var l := s.owes[t];
    var u := s.(loops := s.loops[l := s.loops[l].(signal := true)], owes := s.owes - {t});
    forall k | 0 <= k < |u.loops| && (u.loops[k].pc.Polling? || u.loops[k].pc.Running?) && u.loops[k].pending != []
      ensures u.loops[k].signal || Owed(u, k)
    {
      if k != l && !s.loops[k].signal {
        var t' :| t' in s.owes && s.owes[t'] == k;
        assert t' in u.owes && u.owes[t'] == k;
      }
    }
    assert LoopActive(s, l);
    assert LoopActive(u, l) by { SameConnsActive(s, u, l); }
    hide LoopActive, Forward;
    assert SameCounts(s.loops[l], u.loops[l], l, Nothing, Nothing);
    ControlKeeps(s, u, l, Nothing, Nothing) by { hide Inv; }
  }
}
