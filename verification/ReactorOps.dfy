/** Every operation of the reactor keeps its invariant, and no connection ever moves backwards. */
module ReactorOperations {
  import P = Pollers
  import opened Reactors
  import opened ReactorInvariants

  /** Connections stay, keep their identity and never go back to an earlier phase. */
  ghost predicate Forward(s: Sys, u: Sys) {
    && |s.conns| <= |u.conns|
    && (forall c :: 0 <= c < |s.conns| ==>
          SameIdentity(s.conns[c], u.conns[c]) && Rank(PhaseAt(s, c)) <= Rank(PhaseAt(u, c)))
  }

  lemma ForwardTwice(s: Sys, m: Sys, u: Sys)
    requires Forward(s, m) && Forward(m, u)
    ensures Forward(s, u)
  {
    hide PhaseAt;
  }

  lemma MovedForward(s: Sys, u: Sys, c: nat)
    requires Identities(s) && Moved(s, u, c)
    requires Rank(PhaseAt(s, c)) <= Rank(PhaseAt(u, c))
    ensures Forward(s, u)
  {
    hide Identities, PhaseAt;
    forall d | 0 <= d < |s.conns|
      ensures SameIdentity(s.conns[d], u.conns[d]) && Rank(PhaseAt(s, d)) <= Rank(PhaseAt(u, d))
    {
      if d != c { OthersKeepPhase(s, u, c, d); }
    }
  }

  // ---------------------------------------------------------------- one connection

  lemma MovedTwice(s: Sys, m: Sys, u: Sys, c: nat)
    requires Moved(s, m, c) && Moved(m, u, c) && u.registry == m.registry
    ensures Moved(s, u, c)
  {
  }

  lemma ChansUpdate(conns: seq<Conn>, c: nat, conn: Conn, l: nat)
    requires c < |conns| && conn.loop == conns[c].loop
    ensures ChansOf(conns[c := conn], l) ==
            if conn.loop == l then ChansOf(conns, l)[c := conn.channel] else ChansOf(conns, l)
  {
  }

  /** Changing a connection without its channel leaves the pollers in agreement. */
  lemma StateChange(s: Sys, c: nat, conn: Conn)
    requires PollersAgree(s) && c < |s.conns|
    requires conn.name == s.conns[c].name && conn.loop == s.conns[c].loop && conn.channel == s.conns[c].channel
    ensures var u := s.(conns := s.conns[c := conn]); PollersAgree(u) && Moved(s, u, c)
  {
    var u := s.(conns := s.conns[c := conn]);
    forall l | 0 <= l < |s.loops|
      ensures P.Agree(u.loops[l].poller, ChansOf(u.conns, l))
    {
      ChansUpdate(s.conns, c, conn, l);
      assert ChansOf(u.conns, l) == ChansOf(s.conns, l);
    }
  }

  /** A channel operation aborts only as an improper removal, and keeps every poller in agreement. */
  lemma ChannelOpResult(s: Sys, c: nat, op: P.Op)
    requires PollersAgree(s) && c < |s.conns| && s.conns[c].loop < |s.loops|
    ensures ChannelOp(s, c, op).Abort? <==>
            op.Remove? && (s.conns[c].channel.status == P.New || s.conns[c].channel.events != {})
    ensures ChannelOp(s, c, op).Next? ==>
              var u := ChannelOp(s, c, op).sys;
              && |u.conns| == |s.conns| && Moved(s, u, c) && u.registry == s.registry && PollersAgree(u)
              && u.conns[c] == s.conns[c].(channel := P.ChannelAfter(s.conns[c].channel, op))
  {
    var conn := s.conns[c];
    var at := s.loops[conn.loop];
    assert ChansOf(s.conns, conn.loop)[c] == conn.channel;
    P.ApplyKeepsAgreement(at.poller, ChansOf(s.conns, conn.loop), c, op);
    hide P.Apply, P.Agree;
    var r := ChannelOp(s, c, op);
    if r.Next? {
      var u := r.sys;
      forall l | 0 <= l < |u.loops|
        ensures P.Agree(u.loops[l].poller, ChansOf(u.conns, l))
      {
        ChansUpdate(s.conns, c, u.conns[c], l);
        if l != conn.loop { assert P.Agree(s.loops[l].poller, ChansOf(s.conns, l)); }
      }
    }
  }

  /** A change of the connection's own fields followed by a channel operation. */
  lemma StateThenOp(s: Sys, c: nat, conn: Conn, op: P.Op)
    requires PollersAgree(s) && c < |s.conns| && s.conns[c].loop < |s.loops|
    requires conn.name == s.conns[c].name && conn.loop == s.conns[c].loop && conn.channel == s.conns[c].channel
    ensures var r := ChannelOp(s.(conns := s.conns[c := conn]), c, op);
      && (r.Abort? <==> op.Remove? && (conn.channel.status == P.New || conn.channel.events != {}))
      && (r.Next? ==>
            && |r.sys.conns| == |s.conns| && Moved(s, r.sys, c) && PollersAgree(r.sys)
            && r.sys.registry == s.registry
            && r.sys.conns[c] == conn.(channel := P.ChannelAfter(conn.channel, op)))
  {
    hide PollersAgree, ChannelOp, Moved, P.ChannelAfter;
    var m := s.(conns := s.conns[c := conn]);
    StateChange(s, c, conn);
    ChannelOpResult(m, c, op);
    var r := ChannelOp(m, c, op);
    if r.Next? { MovedTwice(s, m, r.sys, c); }
  }

  lemma DeletedIsNonEvent(s: Sys, c: nat)
    requires PollersAgree(s) && c < |s.conns| && s.conns[c].loop < |s.loops|
    requires s.conns[c].channel.status == P.Deleted
    ensures s.conns[c].channel.events == {}
  {
    var l := s.conns[c].loop;
    assert P.Agree(s.loops[l].poller, ChansOf(s.conns, l));
    assert ChansOf(s.conns, l)[c] == s.conns[c].channel;
    assert P.ChannelAgrees(s.loops[l].poller, c, s.conns[c].channel);
  }

  /** A functor in hand is one the protocol expects, so its connection is in the matching phase. */
  lemma HandIsExpected(s: Sys, l: nat, f: Functor)
    requires Tokens(s, Holding(l, f)) && !f.Task? && l < |s.loops|
    ensures Expected(s, l, f) == 1 && Count(s.loops[l], f) == 0
  {
    assert Count(s.loops[l], f) + InHand(Holding(l, f), l, f) == Expected(s, l, f);
  }

  // ---------------------------------------------------------------- queueing

  lemma CountAfterPush(at: Loop, f: Functor, g: Functor)
    ensures Count(at.(pending := at.pending + [f], log := at.log + [f]), g) == Count(at, g) + if f == g then 1 else 0
  {
  }

  lemma EnqueueTokens(s: Sys, t: nat, l: nat, f: Functor)
    requires l < |s.loops| && Tokens(s, Holding(l, f))
    ensures Tokens(Enqueue(s, t, l, f), Nothing)
  {
    var u := Enqueue(s, t, l, f);
    forall k: nat, g: Functor | k < |u.loops| && !g.Task?
      ensures Count(u.loops[k], g) + InHand(Nothing, k, g) == Expected(u, k, g)
    {
      CountAfterPush(s.loops[l], f, g);
      assert Expected(u, k, g) == Expected(s, k, g);
      assert Count(s.loops[k], g) + InHand(Holding(l, f), k, g) == Expected(s, k, g);
    }
  }

  lemma EnqueueWakeups(s: Sys, t: nat, l: nat, f: Functor)
    requires l < |s.loops| && NoLostWakeup(s) && t !in s.owes && (t == l ==> !s.loops[l].pc.Polling?)
    ensures NoLostWakeup(Enqueue(s, t, l, f))
  {
    var u := Enqueue(s, t, l, f);
    forall k | 0 <= k < |u.loops| && (u.loops[k].pc.Polling? || u.loops[k].pc.Running?) && u.loops[k].pending != []
      ensures u.loops[k].signal || Owed(u, k)
    {
      if k == l {
        assert u.owes[t] == l;
      } else if Owed(s, k) {
        var t' :| t' in s.owes && s.owes[t'] == k;
        assert u.owes[t'] == k;
      }
    }
  }

  /** Queueing the functor in hand on its loop restores the table of queued functors. */
  lemma EnqueueKeeps(s: Sys, t: nat, l: nat, f: Functor)
    requires Inv(s, Holding(l, f)) && l < |s.loops| && t !in s.owes
    requires t < |s.loops| ==> !s.loops[t].pc.Polling?
    ensures Inv(Enqueue(s, t, l, f), Nothing) && Forward(s, Enqueue(s, t, l, f))
  {
    var u := Enqueue(s, t, l, f);
    EnqueueTokens(s, t, l, f);
    EnqueueWakeups(s, t, l, f);
    hide Tokens, NoLostWakeup, Identities;
    assert Identities(u) by { assert Identities(s); SameConnsIdentities(s, u); }
    forall k | 0 <= k < |u.loops|
      ensures P.Agree(u.loops[k].poller, ChansOf(u.conns, k))
    {
      assert P.Agree(s.loops[k].poller, ChansOf(s.conns, k));
    }
    QueueOrderAfterPush(s.loops[l], f);
    hide P.Agree;
    forall k | 0 <= k < |u.loops|
      ensures LoopActive(u, k)
    {
      assert LoopActive(s, k);
      SameConnsActive(s, u, k);
    }
  }

  lemma QueueOrderAfterPush(at: Loop, f: Functor)
    requires at.log == at.executed + at.batch + at.pending
    ensures at.log + [f] == at.executed + at.batch + (at.pending + [f])
  {
  }

  lemma SameConnsIdentities(s: Sys, u: Sys)
    requires Identities(s)
    requires u.conns == s.conns && u.registry == s.registry && u.base == s.base && |u.loops| == |s.loops|
    ensures Identities(u)
  {
  }

  /** A loop whose control state is unchanged stays well-formed while the connections do. */
  lemma SameConnsActive(s: Sys, u: Sys, l: nat)
    requires l < |s.loops| == |u.loops| && LoopActive(s, l)
    requires u.conns == s.conns && u.registry == s.registry
    requires u.loops[l].pc == s.loops[l].pc && u.loops[l].active == s.loops[l].active
    requires u.loops[l].batch == s.loops[l].batch && u.loops[l].ran == s.loops[l].ran
    ensures LoopActive(u, l)
  {
    hide PhaseOf;
    forall i | 0 <= i < |u.loops[l].active|
      ensures ItemOk(u, l, u.loops[l].active[i])
    {
      assert ItemOk(s, l, s.loops[l].active[i]);
    }
  }

  // ---------------------------------------------------------------- the protocol's operations

  lemma EstablishReady(s: Sys, t: nat, c: nat)
    requires Inv(s, Holding(t, Established(c))) && t < |s.loops|
    ensures InItsThread(s, t, c) && s.conns[c].state == Connecting
    ensures s.conns[c].name in s.registry && LifeOk(s.conns[c], true)
  {
    hide Identities, PollersAgree, Actives, NoLostWakeup, QueueOrder;
    HandIsExpected(s, t, Established(c));
  }

  /** The connection as connectionEstablished leaves it. */
  function EstablishedConn(conn: Conn): Conn {
    conn.(state := Connected, established := conn.established + 1,
          channel := P.ChannelAfter(conn.channel, P.EnableRead))
  }

  lemma EstablishResult(s: Sys, t: nat, c: nat)
    requires PollersAgree(s) && InItsThread(s, t, c) && s.conns[c].state == Connecting
    ensures var r := DoEstablished(s, t, c);
      && r.Next? && |r.sys.conns| == |s.conns| && Moved(s, r.sys, c) && PollersAgree(r.sys)
      && r.sys.registry == s.registry && r.sys.conns[c] == EstablishedConn(s.conns[c])
  {
    hide PollersAgree, ChannelOp, Moved, P.ChannelAfter;
    StateThenOp(s, c, s.conns[c].(state := Connected, established := s.conns[c].established + 1), P.EnableRead);
  }

  lemma EstablishBalance(s: Sys, u: Sys, t: nat, c: nat)
    requires c < |s.conns| == |u.conns| && s.conns[c].loop == t == u.conns[c].loop
    requires PhaseAt(s, c) == EstablishQueued && PhaseAt(u, c) == Live
    ensures Balanced(s, u, c, Holding(t, Established(c)), Nothing)
  {
  }

  lemma EstablishedLife(conn: Conn)
    requires LifeOk(conn, true) && conn.state == Connecting
    ensures LifeOk(EstablishedConn(conn), true) && PhaseOf(EstablishedConn(conn), true) == Live
    ensures PhaseOf(conn, true) == EstablishQueued && EstablishedConn(conn).writeIdx == conn.writeIdx
    ensures SameIdentity(conn, EstablishedConn(conn))
  {
  }

  /** connectionEstablished never aborts when its functor is due, and makes the connection live. */
  lemma EstablishKeeps(s: Sys, t: nat, c: nat)
    requires Inv(s, Holding(t, Established(c))) && t < |s.loops|
    ensures c < |s.conns| && PhaseAt(s, c) == EstablishQueued
    ensures var r := DoEstablished(s, t, c);
      && r.Next? && Inv(r.sys, Nothing) && Moved(s, r.sys, c) && Forward(s, r.sys)
      && PhaseAt(r.sys, c) == Live
  {
    EstablishReady(s, t, c);
    assert PollersAgree(s) && Identities(s);
    EstablishedLife(s.conns[c]);
    hide Inv, Identities, PollersAgree, Forward, Balanced, LifeOk, EstablishedConn, PhaseOf, NotAwaited, NotHandled;
    EstablishResult(s, t, c);
    hide DoEstablished;
    var u := DoEstablished(s, t, c).sys;
    EstablishBalance(s, u, t, c);
    MovedForward(s, u, c);
    MovedInv(s, u, c, Holding(t, Established(c)), Nothing);
  }

  lemma RemoveReady(s: Sys, c: nat)
    requires Inv(s, Holding(0, RemoveInLoop(c)))
    ensures c < |s.conns| && s.conns[c].loop < |s.loops| && PhaseAt(s, c) == RemovalQueued
    ensures s.conns[c].name in s.registry && LifeOk(s.conns[c], true) && s.conns[c].state == Disconnected
  {
    hide PollersAgree, Actives, NoLostWakeup, QueueOrder;
    HandIsExpected(s, 0, RemoveInLoop(c));
    assert IdentityOk(s.base, |s.loops|, s.conns, c);
  }

  /** The connection has left the map and its last functor is in hand. */
  function Erase(s: Sys, c: nat): Sys
    requires c < |s.conns|
  {
    s.(registry := s.registry - {s.conns[c].name},
       conns := s.conns[c := s.conns[c].(erased := s.conns[c].erased + 1)])
  }

  lemma EraseResult(s: Sys, c: nat)
    requires PollersAgree(s) && c < |s.conns|
    ensures Moved(s, Erase(s, c), c) && PollersAgree(Erase(s, c))
  {
    hide PollersAgree;
    var conn := s.conns[c].(erased := s.conns[c].erased + 1);
    StateChange(s, c, conn);
    SamePollers(s.(conns := s.conns[c := conn]), Erase(s, c));
  }

  lemma SamePollers(s: Sys, u: Sys)
    requires PollersAgree(s) && u.conns == s.conns && |u.loops| == |s.loops|
    requires forall l :: 0 <= l < |s.loops| ==> u.loops[l].poller == s.loops[l].poller
    ensures PollersAgree(u)
  {
    hide P.Agree;
    forall l | 0 <= l < |u.loops|
      ensures P.Agree(u.loops[l].poller, ChansOf(u.conns, l))
    {
      assert P.Agree(s.loops[l].poller, ChansOf(s.conns, l));
    }
  }

  lemma EraseBalance(s: Sys, u: Sys, c: nat)
    requires c < |s.conns| == |u.conns| && s.conns[c].loop == u.conns[c].loop
    requires PhaseAt(s, c) == RemovalQueued && PhaseAt(u, c) == DestroyQueued
    ensures Balanced(s, u, c, Holding(0, RemoveInLoop(c)), Holding(s.conns[c].loop, Destroyed(c)))
  {
  }

  lemma EraseKeeps(s: Sys, c: nat)
    requires Inv(s, Holding(0, RemoveInLoop(c)))
    ensures c < |s.conns| && PhaseAt(s, c) == RemovalQueued
    ensures var u := Erase(s, c);
      && Moved(s, u, c) && Forward(s, u) && Inv(u, Holding(s.conns[c].loop, Destroyed(c)))
      && PhaseAt(u, c) == DestroyQueued
  {
    RemoveReady(s, c);
    assert PollersAgree(s) && Identities(s);
    hide Inv, Identities, PollersAgree, Forward, Balanced;
    EraseResult(s, c);
    var u := Erase(s, c);
    EraseBalance(s, u, c);
    MovedForward(s, u, c);
    MovedInv(s, u, c, Holding(0, RemoveInLoop(c)), Holding(s.conns[c].loop, Destroyed(c)));
  }

  /** removeConnectionInLoop finds the connection in the map: its erase removes exactly one entry. */
  lemma RemoveKeeps(s: Sys, c: nat)
    requires Inv(s, Holding(0, RemoveInLoop(c))) && 0 !in s.owes && !s.loops[0].pc.Polling?
    ensures c < |s.conns| && s.conns[c].name in s.registry && PhaseAt(s, c) == RemovalQueued
    ensures var r := DoRemove(s, 0, c);
      && r.Next? && Inv(r.sys, Nothing) && Forward(s, r.sys)
      && c < |r.sys.conns| && PhaseAt(r.sys, c) == DestroyQueued
      && r.sys.registry == s.registry - {s.conns[c].name}
  {
    hide Inv, Moved, Forward, LifeOk, DoRemove, PhaseOf;
    RemoveReady(s, c);
    EraseKeeps(s, c);
    RemoveIsErase(s, c);
    var m := Erase(s, c);
    var l := s.conns[c].loop;
    MovedControl(s, m, c);
    EnqueueKeeps(m, 0, l, Destroyed(c));
    ForwardTwice(s, m, Enqueue(m, 0, l, Destroyed(c)));
  }

  lemma RemoveIsErase(s: Sys, c: nat)
    requires c < |s.conns| && s.conns[c].loop < |s.loops| && s.conns[c].name in s.registry
    ensures DoRemove(s, 0, c) == Next(Enqueue(Erase(s, c), 0, s.conns[c].loop, Destroyed(c)))
  {
  }

  lemma MovedControl(s: Sys, u: Sys, c: nat)
    requires Moved(s, u, c)
    ensures |u.loops| == |s.loops| && u.owes == s.owes
    ensures forall l :: 0 <= l < |s.loops| ==> u.loops[l].pc == s.loops[l].pc
  {
  }

  /** While a loop runs its functors, none of its connections is in an active list. */
  lemma RunningAwaitsNothing(s: Sys, t: nat, c: nat)
    requires Actives(s) && InItsThread(s, t, c) && s.loops[t].pc.Running?
    ensures NotAwaited(s, c) && NotHandled(s, c)
  {
    hide PhaseOf;
    forall l | 0 <= l < |s.loops|
      ensures forall i :: 0 <= i < |s.loops[l].active| ==> !(s.loops[l].active[i].Ready? && s.loops[l].active[i].c == c)
      ensures !(s.loops[l].pc.Handling? && s.loops[l].pc.c == c)
    {
      assert LoopActive(s, l);
      forall i | 0 <= i < |s.loops[l].active|
        ensures !(s.loops[l].active[i].Ready? && s.loops[l].active[i].c == c)
      {
        assert ItemOk(s, l, s.loops[l].active[i]);
      }
    }
  }

  lemma DestroyReady(s: Sys, t: nat, c: nat)
    requires Inv(s, Holding(t, Destroyed(c))) && t < |s.loops|
    ensures InItsThread(s, t, c) && s.conns[c].state == Disconnected
    ensures s.conns[c].name !in s.registry && LifeOk(s.conns[c], false) && s.conns[c].channel.status == P.Deleted
    ensures s.conns[c].channel.events == {}
  {
    hide Identities, PollersAgree, Actives, NoLostWakeup, QueueOrder;
    HandIsExpected(s, t, Destroyed(c));
    DeletedIsNonEvent(s, c);
  }

  function DestroyedConn(conn: Conn): Conn {
    conn.(destroyed := conn.destroyed + 1, channel := P.ChannelAfter(conn.channel, P.Remove))
  }

  lemma DestroyResult(s: Sys, t: nat, c: nat)
    requires PollersAgree(s) && InItsThread(s, t, c) && s.conns[c].state == Disconnected
    requires s.conns[c].channel.status == P.Deleted && s.conns[c].channel.events == {}
    requires s.loops[t].pc.Running?
    ensures var r := DoDestroyed(s, t, c);
      && r.Next? && |r.sys.conns| == |s.conns| && Moved(s, r.sys, c) && PollersAgree(r.sys)
      && r.sys.registry == s.registry && r.sys.conns[c] == DestroyedConn(s.conns[c])
  {
    hide PollersAgree, ChannelOp, Moved, P.ChannelAfter;
    StateThenOp(s, c, s.conns[c].(destroyed := s.conns[c].destroyed + 1), P.Remove);
  }

  lemma DestroyBalance(s: Sys, u: Sys, t: nat, c: nat)
    requires c < |s.conns| == |u.conns| && s.conns[c].loop == t == u.conns[c].loop
    requires PhaseAt(s, c) == DestroyQueued && PhaseAt(u, c) == Gone
    ensures Balanced(s, u, c, Holding(t, Destroyed(c)), Nothing)
  {
  }

  /** connectionDestroyed finds the connection closed and its channel removable. */
  lemma DestroyKeeps(s: Sys, t: nat, c: nat)
    requires Inv(s, Holding(t, Destroyed(c))) && t < |s.loops| && s.loops[t].pc.Running?
    ensures c < |s.conns| && PhaseAt(s, c) == DestroyQueued
    ensures var r := DoDestroyed(s, t, c);
      && r.Next? && Inv(r.sys, Nothing) && Moved(s, r.sys, c) && Forward(s, r.sys)
      && PhaseAt(r.sys, c) == Gone
  {
    DestroyReady(s, t, c);
    RunningAwaitsNothing(s, t, c) by { hide Identities, PollersAgree, Tokens, Lifecycle; }
    assert PollersAgree(s) && Identities(s);
    hide Inv, Identities, PollersAgree, Forward, Balanced, NotAwaited, NotHandled;
    DestroyResult(s, t, c);
    hide DoDestroyed;
    var u := DoDestroyed(s, t, c).sys;
    DestroyBalance(s, u, t, c);
    MovedForward(s, u, c);
    MovedInv(s, u, c, Holding(t, Destroyed(c)), Nothing);
  }

  /** The connection its loop is handling is in no active list any more. */
  lemma HandledIsNotAwaited(s: Sys, t: nat, c: nat)
    requires Actives(s) && InItsThread(s, t, c)
    requires s.loops[t].pc.Handling? && s.loops[t].pc.c == c && !NeedsLive(s, c, s.loops[t].pc.stage)
    ensures NotAwaited(s, c)
  {
    hide PhaseOf;
    forall l | 0 <= l < |s.loops|
      ensures forall i :: 0 <= i < |s.loops[l].active| ==> !(s.loops[l].active[i].Ready? && s.loops[l].active[i].c == c)
      ensures !(s.loops[l].pc.Handling? && s.loops[l].pc.c == c && NeedsLive(s, c, s.loops[l].pc.stage))
    {
      assert LoopActive(s, l);
      forall i | 0 <= i < |s.loops[l].active|
        ensures !(s.loops[l].active[i].Ready? && s.loops[l].active[i].c == c)
      {
        assert ItemOk(s, l, s.loops[l].active[i]);
      }
    }
  }

  /** The connection is closed and its removal in hand, for the base loop. */
  function ClosedConn(conn: Conn): Conn {
    conn.(state := Disconnected, channel := P.ChannelAfter(conn.channel, P.DisableAll))
  }

  function Closing(s: Sys, c: nat): Outcome
    requires c < |s.conns| && s.conns[c].loop < |s.loops|
  {
    ChannelOp(s.(conns := s.conns[c := s.conns[c].(state := Disconnected)]), c, P.DisableAll)
  }

  lemma ClosingResult(s: Sys, c: nat)
    requires PollersAgree(s) && c < |s.conns| && s.conns[c].loop < |s.loops|
    ensures var r := Closing(s, c);
      && r.Next? && |r.sys.conns| == |s.conns| && Moved(s, r.sys, c) && PollersAgree(r.sys)
      && r.sys.registry == s.registry && r.sys.conns[c] == ClosedConn(s.conns[c])
  {
    hide PollersAgree, ChannelOp, Moved, P.ChannelAfter;
    StateThenOp(s, c, s.conns[c].(state := Disconnected), P.DisableAll);
  }

  lemma ClosingBalance(s: Sys, u: Sys, c: nat)
    requires c < |s.conns| == |u.conns| && s.conns[c].loop == u.conns[c].loop
    requires PhaseAt(s, c) == Live && PhaseAt(u, c) == RemovalQueued
    ensures Balanced(s, u, c, Nothing, Holding(0, RemoveInLoop(c)))
  {
  }

  lemma LiveConn(s: Sys, c: nat)
    requires Lifecycle(s) && c < |s.conns| && PhaseAt(s, c) == Live
    ensures s.conns[c].name in s.registry && LifeOk(s.conns[c], true) && s.conns[c].channel.status == P.Added
  {
  }

  lemma ClosingKeeps(s: Sys, t: nat, c: nat)
    requires Inv(s, Nothing) && InItsThread(s, t, c) && PhaseAt(s, c) == Live && NotAwaited(s, c)
    ensures var r := Closing(s, c);
      && r.Next? && Moved(s, r.sys, c) && Forward(s, r.sys) && Inv(r.sys, Holding(0, RemoveInLoop(c)))
      && PhaseAt(r.sys, c) == RemovalQueued
  {
    LiveConn(s, c);
    assert PollersAgree(s) && Identities(s);
    hide Inv, Identities, PollersAgree, Forward, Balanced, NotAwaited;
    ClosingResult(s, c);
    hide Closing;
    var u := Closing(s, c).sys;
    ClosingBalance(s, u, c);
    MovedForward(s, u, c);
    MovedInv(s, u, c, Nothing, Holding(0, RemoveInLoop(c)));
  }

  /** Once the removal is in hand, the close callback of thread `t` passes it on. */
  lemma CloseCallbackKeeps(s: Sys, m: Sys, t: nat, c: nat)
    requires Inv(m, Holding(0, RemoveInLoop(c))) && Forward(s, m)
    requires t < |m.loops| && t !in m.owes && !m.loops[t].pc.Polling?
    ensures var r := if t == 0 then DoRemove(m, 0, c) else Next(Enqueue(m, t, 0, RemoveInLoop(c)));
      && r.Next? && Inv(r.sys, Nothing) && Forward(s, r.sys) && Forward(m, r.sys)
  {
    hide Inv, Forward, DoRemove;
    if t == 0 {
      RemoveKeeps(m, c);
      ForwardTwice(s, m, DoRemove(m, 0, c).sys);
    } else {
      EnqueueKeeps(m, t, 0, RemoveInLoop(c));
      ForwardTwice(s, m, Enqueue(m, t, 0, RemoveInLoop(c)));
    }
  }

  lemma HandledPhase(s: Sys, t: nat, c: nat)
    requires Inv(s, Nothing) && InItsThread(s, t, c)
    requires s.loops[t].pc.Handling? && s.loops[t].pc.c == c && !NeedsLive(s, c, s.loops[t].pc.stage)
    ensures PhaseAt(s, c) != EstablishQueued && NotAwaited(s, c)
  {
    assert LoopActive(s, t);
    HandledIsNotAwaited(s, t, c);
  }

  /** handleClose aborts exactly when the connection is not connected. */
  lemma CloseKeeps(s: Sys, t: nat, c: nat)
    requires Inv(s, Nothing) && InItsThread(s, t, c) && t !in s.owes
    requires s.loops[t].pc.Handling? && s.loops[t].pc.c == c && !NeedsLive(s, c, s.loops[t].pc.stage)
    ensures DoClose(s, t, c).Abort? <==> s.conns[c].state != Connected
    ensures var r := DoClose(s, t, c);
      r.Next? ==>
        && Inv(r.sys, Nothing) && Forward(s, r.sys)
        && c < |r.sys.conns| && PhaseAt(r.sys, c) in {RemovalQueued, DestroyQueued, Gone}
  {
    hide Inv, NotAwaited, Forward, DoRemove, ChannelOp;
    HandledPhase(s, t, c);
    if s.conns[c].state == Connected {
      ClosingKeeps(s, t, c);
      var m := Closing(s, c).sys;
      MovedControl(s, m, c);
      hide Moved;
      CloseCallbackKeeps(s, m, t, c);
      LaterPhase(m, DoClose(s, t, c).sys, c);
    }
  }

  lemma LaterPhase(s: Sys, u: Sys, c: nat)
    requires Forward(s, u) && c < |s.conns| && PhaseAt(s, c) == RemovalQueued
    ensures c < |u.conns| && PhaseAt(u, c) in {RemovalQueued, DestroyQueued, Gone}
  {
    hide PhaseAt;
  }
}
