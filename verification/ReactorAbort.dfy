/** What can go wrong does: runs of a single-threaded server that end in the assert of
    handleClose, in both of its ways, and one that never gets out of handleWrite. */
module ReactorAborts {
  import P = Pollers
  import opened Reactors

  const NAME := ConnName("", 1)
  const ARMED: set<P.Bit> := P.READ_EVENT + P.WRITE_EVENT

  /** How far the one connection is: its state, its interest bits and the output that waits. */
  datatype Link = Link(state: ConnState, events: set<P.Bit>, writeIdx: nat)

  /** A single-threaded server with one connection, on descriptor 7, established. */
  function Serving(pc: Pc, active: seq<Item>, seen: seq<Item>, link: Link): Sys {
    var poller := P.Poller(map[7 := 0], map[7 := P.Entry(link.events + {P.Et}, 0)]);
    var conn := Conn(NAME, 0, link.state, P.Channel(7, P.Added, link.events, true), link.writeIdx, 1, 0, 0);
    Sys("", [Loop(pc, active, seen, [], [], [], false, poller, [], [])], [conn], map[NAME := 0], 2, 0, map[])
  }

  const OPEN := Link(Connected, P.READ_EVENT, 0)

  lemma {:induction false} ReachesThen(s: Sys, steps: seq<Step>, m: Sys, step: Step, u: Sys)
    requires Reaches(s, steps, m) && Enabled(m, step) && After(m, step) == Next(u)
    ensures Reaches(s, steps + [step], u)
    decreases |steps|
  {
    hide After, Enabled;
    if steps == [] {
      assert steps + [step] == [step];
      assert Reaches(u, [], u);
      assert [step][1..] == [];
    } else {
      ReachesThen(After(s, steps[0]).sys, steps[1..], m, step, u);
      assert (steps + [step])[1..] == steps[1..] + [step];
    }
  }

  /** A run from the start of the server; without a local shutdown, unless one is allowed. */
  ghost predicate Run(shut: bool, steps: seq<Step>, u: Sys) {
    Reaches(Init("", 0), steps, u) && (shut || Handle(0, Shutdown) !in steps)
  }

  lemma RunThen(shut: bool, steps: seq<Step>, m: Sys, step: Step, u: Sys)
    requires Run(shut, steps, m) && Enabled(m, step) && After(m, step) == Next(u)
    requires shut || step != Handle(0, Shutdown)
    ensures Run(shut, steps + [step], u)
  {
    hide Reaches, After, Enabled;
    ReachesThen(Init("", 0), steps, m, step, u);
  }

  /** The server has just been told that a connection waits to be accepted. */
  function Accepting(): Sys {
    var at := Loop(Dispatching, [Accept], [], [], [], [], false, P.Poller(map[], map[]), [], []);
    Sys("", [at], [], map[], 1, 0, map[])
  }

  lemma FirstConnection()
    ensures Dispatch(Accepting(), 0, 7) == Next(Serving(Dispatching, [], [Accept], OPEN))
  {
    var m := Accepting();
    var s1 := m.(loops := [m.loops[0].(active := [], seen := [Accept])]);
    assert m.loops[0].active[1..] == [] && m.loops[0].seen + [Accept] == [Accept];
    assert Dispatch(m, 0, 7) == NewConnection(s1, 0, 7);
    assert AddConn(s1, 7).conns == [Conn(NAME, 0, Connecting, P.FreshChannel(7), 0, 0, 0, 0)];
    assert P.NewEvents(P.EnableRead, {}) == P.READ_EVENT;
    var r := DoEstablished(AddConn(s1, 7), 0, 0);
    assert r.sys.conns == Serving(Dispatching, [], [Accept], OPEN).conns;
    assert r.sys.registry == map[NAME := 0];
    assert r.sys.loops == Serving(Dispatching, [], [Accept], OPEN).loops;
  }

  lemma RunToServing() returns (steps: seq<Step>)
    ensures Run(false, steps, Serving(Dispatching, [], [Accept], OPEN))
  {
    var s := Init("", 0);
    var step := PollReturn(0, [AcceptReady]);
    assert Items(s.loops[0], [AcceptReady]) == [Accept];
    assert After(s, step) == Next(Accepting());
    assert Run(false, [], s);
    RunThen(false, [], s, step, Accepting());
    FirstConnection();
    RunThen(false, [] + [step], Accepting(), DispatchNext(0, 7), Serving(Dispatching, [], [Accept], OPEN));
    steps := [] + [step] + [DispatchNext(0, 7)];
  }

  /** The idle end of a round: nothing left to dispatch, no functors. */
  lemma EndRound(shut: bool, steps: seq<Step>, seen: seq<Item>, link: Link) returns (more: seq<Step>)
    requires Run(shut, steps, Serving(Dispatching, [], seen, link))
    ensures Run(shut, more, Serving(Polling, [], seen, link))
  {
    var s, m := Serving(Dispatching, [], seen, link), Serving(Running, [], seen, link);
    var u := Serving(Polling, [], seen, link);
    assert After(s, Swap(0)) == Next(m);
    assert After(m, EndBatch(0)) == Next(u);
    hide Serving, After, Run;
    RunThen(shut, steps, s, Swap(0), m);
    RunThen(shut, steps + [Swap(0)], m, EndBatch(0), u);
    more := steps + [Swap(0)] + [EndBatch(0)];
  }

  lemma PollServing(seen: seq<Item>, link: Link, rcv: set<P.Bit>)
    requires rcv <= link.events + {P.Hup}
    ensures var s, poll := Serving(Polling, [], seen, link), PollReturn(0, [FdReady(7, rcv)]);
      Enabled(s, poll) && After(s, poll) == Next(Serving(Dispatching, [Ready(0, rcv)], [], link))
  {
    var s, poll := Serving(Polling, [], seen, link), PollReturn(0, [FdReady(7, rcv)]);
    assert Items(s.loops[0], [FdReady(7, rcv)]) == [Ready(0, rcv)];
    assert Known(s, s.loops[0], FdReady(7, rcv));
    assert Enabled(s, poll);
  }

  lemma DispatchServing(link: Link, rcv: set<P.Bit>)
    ensures var s := Serving(Dispatching, [Ready(0, rcv)], [], link);
      && Enabled(s, DispatchNext(0, 0))
      && After(s, DispatchNext(0, 0)) == Next(Serving(Handling(0, rcv, AtClose), [], [Ready(0, rcv)], link))
  {
    var s := Serving(Dispatching, [Ready(0, rcv)], [], link);
    var u := Serving(Handling(0, rcv, AtClose), [], [Ready(0, rcv)], link);
    assert s.loops[0].seen + [Ready(0, rcv)] == [Ready(0, rcv)] && s.loops[0].active[1..] == [];
    assert Dispatch(s, 0, 0).sys.loops == u.loops;
  }

  /** The round before ends, epoll reports `rcv` for the connection and its handling begins. */
  lemma BeginHandling(shut: bool, steps: seq<Step>, seen: seq<Item>, link: Link, rcv: set<P.Bit>)
      returns (more: seq<Step>)
    requires Run(shut, steps, Serving(Dispatching, [], seen, link))
    requires rcv <= link.events + {P.Hup}
    ensures Run(shut, more, Serving(Handling(0, rcv, AtClose), [], [Ready(0, rcv)], link))
  {
    var poll := PollReturn(0, [FdReady(7, rcv)]);
    var s, m := Serving(Polling, [], seen, link), Serving(Dispatching, [Ready(0, rcv)], [], link);
    var u := Serving(Handling(0, rcv, AtClose), [], [Ready(0, rcv)], link);
    hide Serving, After, Enabled, Run;
    var rest := EndRound(shut, steps, seen, link);
    PollServing(seen, link, rcv);
    DispatchServing(link, rcv);
    RunThen(shut, rest, s, poll, m);
    RunThen(shut, rest + [poll], m, DispatchNext(0, 0), u);
    more := rest + [poll] + [DispatchNext(0, 0)];
  }

  /** One step of the handler, from one stage and link to the next. */
  ghost predicate Handles(rcv: set<P.Bit>, pc: Pc, link: Link, act: Action, pc': Pc, link': Link) {
    var seen := [Ready(0, rcv)];
    && Enabled(Serving(pc, [], seen, link), Handle(0, act))
    && After(Serving(pc, [], seen, link), Handle(0, act)) == Next(Serving(pc', [], seen, link'))
  }

  lemma HandleStep(shut: bool, steps: seq<Step>, rcv: set<P.Bit>, pc: Pc, link: Link,
                   act: Action, pc': Pc, link': Link)
      returns (more: seq<Step>)
    requires Run(shut, steps, Serving(pc, [], [Ready(0, rcv)], link))
    requires Handles(rcv, pc, link, act, pc', link') && (shut || !act.Shutdown?)
    ensures Run(shut, more, Serving(pc', [], [Ready(0, rcv)], link'))
  {
    hide Serving, After, Enabled, Run;
    var seen := [Ready(0, rcv)];
    RunThen(shut, steps, Serving(pc, [], seen, link), Handle(0, act), Serving(pc', [], seen, link'));
    more := steps + [Handle(0, act)];
  }

  lemma NoHangUp(rcv: set<P.Bit>, link: Link)
    requires P.Hup !in rcv
    ensures Handles(rcv, Handling(0, rcv, AtClose), link, Proceed, Handling(0, rcv, AtRead), link)
  {
  }

  lemma ReadOver(rcv: set<P.Bit>, link: Link)
    ensures Handles(rcv, Handling(0, rcv, AtRead), link, Proceed, Handling(0, rcv, AtWrite), link)
  {
  }

  lemma NothingToWrite(rcv: set<P.Bit>, link: Link)
    requires P.Out !in rcv
    ensures Handles(rcv, Handling(0, rcv, AtWrite), link, Proceed, Dispatching, link)
  {
  }

  lemma WriteBegins(rcv: set<P.Bit>, link: Link)
    requires P.Out in rcv && P.Out in link.events
    ensures Handles(rcv, Handling(0, rcv, AtWrite), link, Proceed, Handling(0, rcv, Writing(0)), link)
  {
    assert P.Out in link.events * P.WRITE_EVENT;
  }

  // ---------------------------------------------------------------- a hang-up after a shutdown

  const HALF_CLOSED := Link(Disconnecting, P.READ_EVENT, 0)

  lemma ShutdownStep()
    ensures Handles({P.In}, Handling(0, {P.In}, AtRead), OPEN, Shutdown, Handling(0, {P.In}, AtRead), HALF_CLOSED)
  {
    assert P.In in {P.In} * {P.In, P.Pri};
  }

  lemma LateHangUp()
    ensures var u := Serving(Handling(0, {P.Hup}, AtClose), [], [Ready(0, {P.Hup})], HALF_CLOSED);
      Enabled(u, Handle(0, Proceed)) && After(u, Handle(0, Proceed)).Abort?
  {
  }

  /**
   * A client sends a request, the server answers it and shuts the connection down, and
   * the client then hangs up: the server aborts.
   */
  lemma HangUpAfterShutdownAborts() returns (steps: seq<Step>, u: Sys)
    ensures Reaches(Init("", 0), steps, u)
    ensures Enabled(u, Handle(0, Proceed)) && After(u, Handle(0, Proceed)).Abort?
  {
    var rcv := {P.In};
    hide Serving, Enabled, After, Handles;
    LateHangUp();
    ShutdownStep();
    NoHangUp(rcv, OPEN);
    ReadOver(rcv, HALF_CLOSED);
    NothingToWrite(rcv, HALF_CLOSED);
    steps := RunToServing();
    hide Reaches, Init;
    steps := BeginHandling(true, steps, [Accept], OPEN, rcv);
    steps := HandleStep(true, steps, rcv, Handling(0, rcv, AtClose), OPEN, Proceed, Handling(0, rcv, AtRead), OPEN);
    steps := HandleStep(true, steps, rcv, Handling(0, rcv, AtRead), OPEN, Shutdown,
                        Handling(0, rcv, AtRead), HALF_CLOSED);
    steps := HandleStep(true, steps, rcv, Handling(0, rcv, AtRead), HALF_CLOSED, Proceed,
                        Handling(0, rcv, AtWrite), HALF_CLOSED);
    steps := HandleStep(true, steps, rcv, Handling(0, rcv, AtWrite), HALF_CLOSED, Proceed, Dispatching, HALF_CLOSED);
    steps := BeginHandling(true, steps, [Ready(0, rcv)], HALF_CLOSED, {P.Hup});
    u := Serving(Handling(0, {P.Hup}, AtClose), [], [Ready(0, {P.Hup})], HALF_CLOSED);
  }

  // ---------------------------------------------------------------- an event with nothing to write

  /** One byte of an answer is kept because the socket is full. */
  const KEPT := Link(Connected, ARMED, 1)

  /** The byte has been sent; of the interest bits only that for writing is left. */
  const DRAINED := Link(Connected, P.WRITE_EVENT, 0)

  lemma SendStep()
    ensures Handles({P.In}, Handling(0, {P.In}, AtRead), OPEN, Send(1), Handling(0, {P.In}, AtRead), KEPT)
  {
    var rcv, seen := {P.In}, [Ready(0, {P.In})];
    assert P.In in rcv * {P.In, P.Pri};
    var s, u := Serving(Handling(0, rcv, AtRead), [], seen, OPEN), Serving(Handling(0, rcv, AtRead), [], seen, KEPT);
    assert P.READ_EVENT * P.WRITE_EVENT == {};
    assert !s.conns[0].channel.IsWriting();
    var r := DoSend(s, 0, 1);
    assert r.Next? && r.sys.conns == u.conns;
    assert r.sys.loops[0].poller == u.loops[0].poller;
    assert r.sys.loops == u.loops;
  }

  lemma DrainStep()
    ensures Handles({P.Out}, Handling(0, {P.Out}, Writing(0)), KEPT, Wrote(1), Dispatching, DRAINED)
  {
    var rcv, seen := {P.Out}, [Ready(0, {P.Out})];
    var s, u := Serving(Handling(0, rcv, Writing(0)), [], seen, KEPT), Serving(Dispatching, [], seen, DRAINED);
    assert ARMED * P.WRITE_EVENT == P.WRITE_EVENT;
    var r := DoDrained(s, 0, 0);
    assert r.Next? && r.sys.conns == u.conns;
    assert r.sys.loops[0].poller == u.loops[0].poller;
    assert r.sys.loops == u.loops;
  }

  /** The server is in the write loop with one byte to send. */
  lemma RunToWriting() returns (steps: seq<Step>)
    ensures Run(false, steps, Serving(Handling(0, {P.Out}, Writing(0)), [], [Ready(0, {P.Out})], KEPT))
  {
    var rcv := {P.In};
    var out := {P.Out};
    hide Run, Serving, Enabled, After, Handles;
    SendStep();
    NoHangUp(rcv, OPEN);
    ReadOver(rcv, KEPT);
    NothingToWrite(rcv, KEPT);
    steps := RunToServing();
    steps := BeginHandling(false, steps, [Accept], OPEN, rcv);
    steps := HandleStep(false, steps, rcv, Handling(0, rcv, AtClose), OPEN, Proceed, Handling(0, rcv, AtRead), OPEN);
    steps := HandleStep(false, steps, rcv, Handling(0, rcv, AtRead), OPEN, Send(1), Handling(0, rcv, AtRead), KEPT);
    steps := HandleStep(false, steps, rcv, Handling(0, rcv, AtRead), KEPT, Proceed, Handling(0, rcv, AtWrite), KEPT);
    steps := HandleStep(false, steps, rcv, Handling(0, rcv, AtWrite), KEPT, Proceed, Dispatching, KEPT);
    steps := ToWriting(false, steps, [Ready(0, rcv)], KEPT);
  }

  /** EPOLLOUT is reported and the handler enters the write loop. */
  lemma ToWriting(shut: bool, steps: seq<Step>, seen: seq<Item>, link: Link) returns (more: seq<Step>)
    requires Run(shut, steps, Serving(Dispatching, [], seen, link)) && P.Out in link.events
    ensures Run(shut, more, Serving(Handling(0, {P.Out}, Writing(0)), [], [Ready(0, {P.Out})], link))
  {
    var out := {P.Out};
    hide Run, Serving, Enabled, After, Handles;
    NoHangUp(out, link);
    ReadOver(out, link);
    WriteBegins(out, link);
    more := BeginHandling(shut, steps, seen, link, out);
    more := HandleStep(shut, more, out, Handling(0, out, AtClose), link, Proceed, Handling(0, out, AtRead), link);
    more := HandleStep(shut, more, out, Handling(0, out, AtRead), link, Proceed, Handling(0, out, AtWrite), link);
    more := HandleStep(shut, more, out, Handling(0, out, AtWrite), link, Proceed, Handling(0, out, Writing(0)), link);
  }

  /** The first empty write closes the connection and the loop goes on; the second aborts. */
  lemma EmptyWrites()
    ensures var s := Serving(Handling(0, {P.Out}, Writing(0)), [], [Ready(0, {P.Out})], DRAINED);
      && Enabled(s, Handle(0, Wrote(0))) && After(s, Handle(0, Wrote(0))).Next?
      && var u := After(s, Handle(0, Wrote(0))).sys;
      Enabled(u, Handle(0, Wrote(0))) && After(u, Handle(0, Wrote(0))).Abort?
  {
    var s := Serving(Handling(0, {P.Out}, Writing(0)), [], [Ready(0, {P.Out})], DRAINED);
    var r := DoClose(s, 0, 0);
    assert After(s, Handle(0, Wrote(0))) == r;
    assert r.Next? && r.sys.owes == map[] && |r.sys.conns| == 1 && |r.sys.loops| == 1;
    assert r.sys.loops[0].pc == s.loops[0].pc;
    assert r.sys.conns[0].state == Disconnected && r.sys.conns[0].writeIdx == 0;
    assert DoClose(r.sys, 0, 0).Abort?;
  }

  /**
   * A client sends a request and reads its answer slowly, so that part of it is sent
   * later.  Nobody closes anything, yet at the next EPOLLOUT there is nothing to write:
   * the empty write closes the connection, the loop writes again, and the server aborts.
   */
  lemma SlowReaderAborts() returns (steps: seq<Step>, u: Sys)
    ensures Reaches(Init("", 0), steps, u) && Handle(0, Shutdown) !in steps
    ensures Enabled(u, Handle(0, Wrote(0))) && After(u, Handle(0, Wrote(0))).Abort?
  {
    var out := {P.Out};
    var s := Serving(Handling(0, out, Writing(0)), [], [Ready(0, out)], DRAINED);
    EmptyWrites();
    hide Reaches, Serving, Init, Enabled, After, Handles;
    DrainStep();
    steps := RunToWriting();
    steps := HandleStep(false, steps, out, Handling(0, out, Writing(0)), KEPT, Wrote(1), Dispatching, DRAINED);
    steps := ToWriting(false, steps, [Ready(0, out)], DRAINED);
    u := After(s, Handle(0, Wrote(0))).sys;
    RunThen(false, steps, s, Handle(0, Wrote(0)), u);
    steps := steps + [Handle(0, Wrote(0))];
  }

  // ---------------------------------------------------------------- a write loop that does not end

  function Retries(k: nat): seq<Step> {
    if k == 0 then [] else [Handle(0, WriteAgain)] + Retries(k - 1)
  }

  lemma {:induction false} RetryForEver(u: Sys, k: nat)
    requires Enabled(u, Handle(0, WriteAgain)) && After(u, Handle(0, WriteAgain)) == Next(u)
    ensures Reaches(u, Retries(k), u)
    decreases k
  {
    hide Enabled, After;
    if k > 0 {
      RetryForEver(u, k - 1);
      assert Retries(k)[1..] == Retries(k - 1);
    }
  }

  lemma RetryStep()
    ensures var s := Serving(Handling(0, {P.Out}, Writing(0)), [], [Ready(0, {P.Out})], KEPT);
      && Enabled(s, UserQueue(1, 0, 0))
      && var u := Enqueue(s, 1, 0, Task(0));
      && After(s, UserQueue(1, 0, 0)) == Next(u) && u.loops[0].pending == [Task(0)]
      && Enabled(u, Handle(0, WriteAgain)) && After(u, Handle(0, WriteAgain)) == Next(u)
  {
    assert P.Out in ARMED * P.WRITE_EVENT;
  }

  /**
   * A peer that stops reading keeps the server in its write loop: there is a state in
   * which the loop can try again any number of times while a functor stays pending.
   */
  lemma WriteLoopStarves() returns (steps: seq<Step>, u: Sys)
    ensures Reaches(Init("", 0), steps, u) && |u.loops| == 1 && u.loops[0].pending != []
    ensures forall k: nat :: Reaches(u, Retries(k), u)
  {
    var s := Serving(Handling(0, {P.Out}, Writing(0)), [], [Ready(0, {P.Out})], KEPT);
    u := Enqueue(s, 1, 0, Task(0));
    hide Serving, Enabled, After;
    RetryStep();
    steps := RunToWriting();
    ReachesThen(Init("", 0), steps, s, UserQueue(1, 0, 0), u);
    steps := steps + [UserQueue(1, 0, 0)];
    forall k: nat
      ensures Reaches(u, Retries(k), u)
    {
      RetryForEver(u, k);
    }
    assert |u.loops| == 1 by { ServesAlone(); }
  }

  lemma ServesAlone()
    ensures |Serving(Handling(0, {P.Out}, Writing(0)), [], [Ready(0, {P.Out})], KEPT).loops| == 1
  {
  }
}
