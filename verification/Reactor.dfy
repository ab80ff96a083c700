/**
 * The connection protocol of the multi-reactor server as a step system.
 *
 * Loop 0 is the base loop: it accepts connections and owns the connection map.
 * Loops 1..n are the I/O loops; with n = 0 the base loop does their work as well.
 * Thread `t < |loops|` is the thread of loop `t`; larger numbers are foreign threads.
 * A step is what one thread does without meeting another thread's data: queues are
 * only touched under their mutex, a connection only by the thread of its loop, the
 * connection map only by the base thread.  A failing `assert` is the outcome `Abort`.
 */
module Reactors {
  import P = Pollers
  import Decimal

  datatype ConnState = Connecting | Connected | Disconnecting | Disconnected

  /** A TcpConnection with its Channel, the output that waits in its buffer (writeIdx_),
      and how often each protocol step ran for it. */
  datatype Conn = Conn(
    name: string, loop: nat, state: ConnState, channel: P.Channel, writeIdx: nat,
    established: nat, erased: nat, destroyed: nat)

  /** What the queues hold; a functor keeps the connection it binds alive. */
  datatype Functor = Established(c: nat) | RemoveInLoop(c: nat) | Destroyed(c: nat) | Task(k: nat)

  /** An element of activeChannels_. */
  datatype Item = Wakeup | Accept | Ready(c: nat, rcv: set<P.Bit>)

  /** Where Channel::handleEventWithGuard is; `Writing` is the loop of handleWrite with so
      many bytes sent in it. */
  datatype Stage = AtClose | AtRead | AtWrite | Writing(sent: nat)

  /** Where the loop's thread is inside EventLoop::loop. */
  datatype Pc = Polling | Dispatching | Handling(c: nat, rcv: set<P.Bit>, stage: Stage) | Running

  datatype Loop = Loop(
    pc: Pc,
    active: seq<Item>,        // the part of activeChannels_ not dispatched yet
    seen: seq<Item>,          // the part dispatched in this round
    batch: seq<Functor>,      // the swapped-out functors not run yet
    ran: seq<Functor>,        // those run already, kept until the round ends
    pending: seq<Functor>,    // pendingFunctor_
    signal: bool,             // wakeupFd is readable
    poller: P.Poller<nat>,
    executed: seq<Functor>,   // functors taken out of a batch, in order
    log: seq<Functor>)        // functors ever pushed, in order

  datatype Sys = Sys(
    base: string,             // the server's name
    loops: seq<Loop>,
    conns: seq<Conn>,         // every connection ever created
    registry: map<string, nat>, // connections_
    nextConnId: nat,
    next: nat,                // next_ of the loop pool
    owes: map<nat, nat>)      // thread |-> loop it has pushed to and still has to wake

  datatype Outcome = Abort | Next(sys: Sys)

  function ConnName(base: string, id: nat): string {
    base + "-9000*" + Decimal.Render(id)
  }

  // ---------------------------------------------------------------- queues

  /** EventLoop::queueInLoop called by thread `t` on loop `l`, up to the wakeup it may still owe. */
  function Enqueue(s: Sys, t: nat, l: nat, f: Functor): Sys
    requires l < |s.loops|
  {
    var at := s.loops[l];
    s.(loops := s.loops[l := at.(pending := at.pending + [f], log := at.log + [f])],
       owes := if t != l || at.pc.Running? then s.owes[t := l] else s.owes)
  }

  // ---------------------------------------------------------------- channel and connection operations

  /** A Channel operation of connection `c`, passed through its loop to the loop's poller. */
  function ChannelOp(s: Sys, c: nat, op: P.Op): (r: Outcome)
    requires c < |s.conns| && s.conns[c].loop < |s.loops|
    ensures r.Next? ==> |r.sys.loops| == |s.loops|
  {
    var conn := s.conns[c];
    var at := s.loops[conn.loop];
    match P.Apply(at.poller, c, conn.channel, op)
    case Abort => Abort
    case Done(q, ch, _) =>
      Next(s.(loops := s.loops[conn.loop := at.(poller := q)],
              conns := s.conns[c := conn.(channel := ch)]))
  }

  /** `c` is a connection whose loop's thread is `t`. */
  predicate InItsThread(s: Sys, t: nat, c: nat) {
    c < |s.conns| && s.conns[c].loop == t && t < |s.loops|
  }

  /** TcpConnection::connectionEstablished in thread `t`. */
  function DoEstablished(s: Sys, t: nat, c: nat): Outcome {
    if !InItsThread(s, t, c) || s.conns[c].state != Connecting then Abort
    else
      var conn := s.conns[c];
      ChannelOp(s.(conns := s.conns[c := conn.(state := Connected, established := conn.established + 1)]),
                c, P.EnableRead)
  }

  /** TcpServer::removeConnectionInLoop in thread `t`. */
  function DoRemove(s: Sys, t: nat, c: nat): (r: Outcome)
    ensures r.Next? ==> |r.sys.loops| == |s.loops|
  {
    if t != 0 || c >= |s.conns| || s.conns[c].loop >= |s.loops| then Abort
    else
      var conn := s.conns[c];
      if conn.name !in s.registry then Abort
      else
        Next(Enqueue(s.(registry := s.registry - {conn.name},
                        conns := s.conns[c := conn.(erased := conn.erased + 1)]),
                     t, conn.loop, Destroyed(c)))
  }

  /** The assert of EventLoop::removeChannel: not in the middle of a round that involves the channel. */
  predicate MayRemove(at: Loop, c: nat) {
    at.pc.Dispatching? || at.pc.Handling? ==>
      || (at.pc.Handling? && at.pc.c == c)
      || forall i :: 0 <= i < |at.seen + at.active| ==>
           !((at.seen + at.active)[i].Ready? && (at.seen + at.active)[i].c == c)
  }

  /** TcpConnection::connectionDestroyed in thread `t`. */
  function DoDestroyed(s: Sys, t: nat, c: nat): Outcome {
    if !InItsThread(s, t, c) || !MayRemove(s.loops[t], c) then Abort
    else
      var conn := s.conns[c].(destroyed := s.conns[c].destroyed + 1);
      if conn.state != Connected then
        ChannelOp(s.(conns := s.conns[c := conn]), c, P.Remove)
      else
        match ChannelOp(s.(conns := s.conns[c := conn.(state := Disconnected)]), c, P.DisableAll)
        case Abort => Abort
        case Next(s1) => ChannelOp(s1, c, P.Remove)
  }

  /** TcpConnection::handleClose in thread `t`, with TcpServer::removeConnection as its close callback. */
  function DoClose(s: Sys, t: nat, c: nat): (r: Outcome)
    ensures r.Next? ==> t < |r.sys.loops| == |s.loops|
  {
    if !InItsThread(s, t, c) || !(s.conns[c].state in {Connected, Connecting}) then Abort
    else
      match ChannelOp(s.(conns := s.conns[c := s.conns[c].(state := Disconnected)]), c, P.DisableAll)
      case Abort => Abort
      case Next(s1) => if t == 0 then DoRemove(s1, 0, c) else Next(Enqueue(s1, t, 0, RemoveInLoop(c)))
  }

  /** EventLoopThreadPool::getNextLoop. */
  function ChosenLoop(s: Sys): nat {
    if |s.loops| <= 1 then 0 else 1 + s.next
  }

  function NextAfter(s: Sys): nat {
    if |s.loops| <= 1 then s.next else (s.next + 1) % (|s.loops| - 1)
  }

  function FreshConn(s: Sys, fd: int): Conn {
    Conn(ConnName(s.base, s.nextConnId), ChosenLoop(s), Connecting, P.FreshChannel(fd), 0, 0, 0, 0)
  }

  /** The new connection is in the map; its functor is still to be run or queued. */
  function AddConn(s: Sys, fd: int): Sys {
    var conn := FreshConn(s, fd);
    s.(conns := s.conns + [conn],
       registry := s.registry[conn.name := |s.conns|],
       nextConnId := s.nextConnId + 1,
       next := NextAfter(s))
  }

  /** TcpServer::newConnection in thread `t`. */
  function NewConnection(s: Sys, t: nat, fd: int): Outcome {
    var l := ChosenLoop(s);
    if t != 0 || l >= |s.loops| then Abort
    else if l == t then DoEstablished(AddConn(s, fd), t, |s.conns|)
    else Next(Enqueue(AddConn(s, fd), t, l, Established(|s.conns|)))
  }

  function RunFunctor(s: Sys, t: nat, f: Functor): Outcome {
    match f
    case Established(c) => DoEstablished(s, t, c)
    case RemoveInLoop(c) => DoRemove(s, t, c)
    case Destroyed(c) => DoDestroyed(s, t, c)
    case Task(_) => Next(s)
  }

  // ---------------------------------------------------------------- one event being handled

  /** What callbacks and the kernel decide while an event is handled. */
  datatype Action =
    | Proceed          // the stage has nothing (more) to do
    | Send(kept: nat)  // the message callback sends; so many bytes stay in the buffer
    | Shutdown         // the message callback calls shutdown()
    | Wrote(n: nat)    // write() takes n bytes
    | WriteAgain       // write() fails with EAGAIN
    | WriteFailed      // write() fails for good

  /** A write of no bytes returns 0 or fails for good; any other takes at least one byte, and at
      most what it is given, or fails. */
  predicate MayDo(conn: Conn, rcv: set<P.Bit>, stage: Stage, act: Action) {
    match stage
    case AtClose => act.Proceed?
    case AtRead => act.Proceed? || (rcv * {P.In, P.Pri} != {} && (act.Send? || act.Shutdown?))
    case AtWrite => act.Proceed?
    case Writing(_) =>
      if conn.writeIdx == 0 then act.WriteFailed? || act == Wrote(0)
      else act.WriteFailed? || act.WriteAgain? || (act.Wrote? && 0 < act.n <= conn.writeIdx)
  }

  function SetPc(s: Sys, t: nat, pc: Pc): Sys
    requires t < |s.loops|
  {
    s.(loops := s.loops[t := s.loops[t].(pc := pc)])
  }

  /** The message callback sends: what the socket does not take is kept and write interest armed. */
  function DoSend(s: Sys, c: nat, kept: nat): Outcome
    requires c < |s.conns| && s.conns[c].loop < |s.loops|
  {
    var conn := s.conns[c];
    if conn.state != Connected || kept == 0 then Next(s)
    else
      var m := s.(conns := s.conns[c := conn.(writeIdx := conn.writeIdx + kept)]);
      if conn.channel.IsWriting() then Next(m) else ChannelOp(m, c, P.EnableWrite)
  }

  /** Enough has been sent: the buffer is emptied, write interest taken back, the handler ends. */
  function DoDrained(s: Sys, t: nat, c: nat): Outcome
    requires InItsThread(s, t, c)
  {
    var emptied := s.conns[c := s.conns[c].(writeIdx := 0)];
    ChannelOp(SetPc(s.(conns := emptied), t, Dispatching), c, P.DisableWrite)
  }

  /** One turn of the write loop, `sent` bytes into it; it ends once as much is sent as is left. */
  function DoWrite(s: Sys, t: nat, c: nat, rcv: set<P.Bit>, sent: nat, act: Action): Outcome
    requires InItsThread(s, t, c)
  {
    var conn := s.conns[c];
    match act
    case Wrote(n) =>
      if n == 0 then DoClose(s, t, c)
      else if conn.writeIdx - (sent + n) <= sent + n then DoDrained(s, t, c)
      else Next(SetPc(s, t, Handling(c, rcv, Writing(sent + n))))
    case WriteAgain => if conn.channel.IsWriting() then Next(s) else ChannelOp(s, c, P.EnableWrite)
    case _ => Next(SetPc(s, t, Dispatching))
  }

  /** One stage of handling an event. */
  function HandleStage(s: Sys, t: nat, c: nat, rcv: set<P.Bit>, stage: Stage, act: Action): Outcome
    requires InItsThread(s, t, c)
  {
    var conn := s.conns[c];
    match stage
    case AtClose =>
      var s1 := SetPc(s, t, Handling(c, rcv, AtRead));
      if P.Hup in rcv then DoClose(s1, t, c) else Next(s1)
    case AtRead =>
      if act.Send? then DoSend(s, c, act.kept)
      else if act.Shutdown? then
        if conn.state == Connected
        then Next(s.(conns := s.conns[c := conn.(state := Disconnecting)])) else Next(s)
      else Next(SetPc(s, t, Handling(c, rcv, AtWrite)))
    case AtWrite =>
      var entered := P.Out in rcv && conn.channel.IsWriting();
      Next(SetPc(s, t, if entered then Handling(c, rcv, Writing(0)) else Dispatching))
    case Writing(sent) => DoWrite(s, t, c, rcv, sent, act)
  }

  // ---------------------------------------------------------------- epoll_wait

  /** One event epoll_wait returns; connection events carry the descriptor. */
  datatype Report = WakeReady | AcceptReady | FdReady(fd: int, rcv: set<P.Bit>)

  predicate SameSource(a: Report, b: Report) {
    (a.WakeReady? && b.WakeReady?) || (a.AcceptReady? && b.AcceptReady?)
    || (a.FdReady? && b.FdReady? && a.fd == b.fd)
  }

  predicate Reportable(at: Loop, l: nat, r: Report) {
    match r
    case WakeReady => at.signal
    case AcceptReady => l == 0
    case FdReady(fd, rcv) => fd in at.poller.kernel && rcv <= at.poller.kernel[fd].events + {P.Err, P.Hup}
  }

  ghost predicate ValidReports(at: Loop, l: nat, reports: seq<Report>) {
    && (forall i :: 0 <= i < |reports| ==> Reportable(at, l, reports[i]))
    && (forall i, j :: 0 <= i < j < |reports| ==> !SameSource(reports[i], reports[j]))
  }

  /** The lookup asserts of EpollPoller::fillActiveChannel. */
  predicate Known(s: Sys, at: Loop, r: Report) {
    r.FdReady? ==>
      && r.fd in at.poller.kernel
      && var c := at.poller.kernel[r.fd].ch;
      && c < |s.conns|
      && s.conns[c].channel.fd in at.poller.channels
      && at.poller.channels[s.conns[c].channel.fd] == c
  }

  function ItemOf(at: Loop, r: Report): Item
    requires r.FdReady? ==> r.fd in at.poller.kernel
  {
    match r
    case WakeReady => Wakeup
    case AcceptReady => Accept
    case FdReady(fd, rcv) => Ready(at.poller.kernel[fd].ch, rcv)
  }

  function Items(at: Loop, reports: seq<Report>): (items: seq<Item>)
    requires forall i :: 0 <= i < |reports| && reports[i].FdReady? ==> reports[i].fd in at.poller.kernel
    ensures |items| == |reports|
    ensures forall i :: 0 <= i < |reports| ==> items[i] == ItemOf(at, reports[i])
  {
    if reports == [] then [] else [ItemOf(at, reports[0])] + Items(at, reports[1..])
  }

  // ---------------------------------------------------------------- steps

  datatype Step =
    | PollReturn(t: nat, reports: seq<Report>)
    | DispatchNext(t: nat, accepted: int)   // `accepted`: what accept() returns, if it is called
    | Handle(t: nat, act: Action)
    | Swap(t: nat)
    | RunNext(t: nat)
    | EndBatch(t: nat)
    | UserQueue(t: nat, l: nat, k: nat)     // thread t queues a functor of its own on loop l
    | Wake(t: nat)

  ghost predicate Enabled(s: Sys, step: Step) {
    if step.Wake? then step.t in s.owes && s.owes[step.t] < |s.loops|
    else
      && step.t !in s.owes
      && (if step.UserQueue? then
            step.l < |s.loops| && (step.t < |s.loops| ==> !s.loops[step.t].pc.Polling?)
          else step.t < |s.loops| && EnabledInLoop(s, s.loops[step.t], step))
  }

  ghost predicate EnabledInLoop(s: Sys, at: Loop, step: Step) {
    match step
    case PollReturn(t, reports) => at.pc.Polling? && ValidReports(at, t, reports)
    case DispatchNext(t, accepted) =>
      && at.pc.Dispatching? && at.active != []
      && (accepted > 0 ==> FreshFd(s, accepted))
    case Handle(t, act) =>
      && at.pc.Handling?
      && (at.pc.c < |s.conns| ==> MayDo(s.conns[at.pc.c], at.pc.rcv, at.pc.stage, act))
    case Swap(t) => at.pc.Dispatching? && at.active == []
    case RunNext(t) => at.pc.Running? && at.batch != []
    case EndBatch(t) => at.pc.Running? && at.batch == []
    case _ => false
  }

  /** accept() returns a descriptor that is open nowhere else; connections never close theirs. */
  ghost predicate FreshFd(s: Sys, fd: int) {
    forall c :: 0 <= c < |s.conns| ==> s.conns[c].channel.fd != fd
  }

  ghost function Poll(s: Sys, t: nat, reports: seq<Report>): Outcome
    requires t < |s.loops| && ValidReports(s.loops[t], t, reports)
  {
    var at := s.loops[t];
    if exists i :: 0 <= i < |reports| && !Known(s, at, reports[i]) then Abort
    else Next(s.(loops := s.loops[t := at.(pc := Dispatching, active := Items(at, reports), seen := [])]))
  }

  function Dispatch(s: Sys, t: nat, accepted: int): Outcome
    requires t < |s.loops| && s.loops[t].active != []
  {
    var at := s.loops[t].(active := s.loops[t].active[1..], seen := s.loops[t].seen + [s.loops[t].active[0]]);
    match s.loops[t].active[0]
    case Wakeup => Next(s.(loops := s.loops[t := at.(signal := false)]))
    case Accept =>
      var s1 := s.(loops := s.loops[t := at]);
      if accepted > 0 then NewConnection(s1, t, accepted) else Next(s1)
    case Ready(c, rcv) => Next(s.(loops := s.loops[t := at.(pc := Handling(c, rcv, AtClose))]))
  }

  function TakeFromBatch(s: Sys, t: nat): Sys
    requires t < |s.loops| && s.loops[t].batch != []
  {
    var at := s.loops[t];
    s.(loops := s.loops[t := at.(batch := at.batch[1..], ran := at.ran + [at.batch[0]],
                                             executed := at.executed + [at.batch[0]])])
  }

  ghost function After(s: Sys, step: Step): Outcome
    requires Enabled(s, step)
  {
    match step
    case PollReturn(t, reports) => Poll(s, t, reports)
    case DispatchNext(t, accepted) => Dispatch(s, t, accepted)
    case Handle(t, act) =>
      var pc := s.loops[t].pc;
      if !InItsThread(s, t, pc.c) then Abort else HandleStage(s, t, pc.c, pc.rcv, pc.stage, act)
    case Swap(t) =>
      var at := s.loops[t];
      Next(s.(loops := s.loops[t := at.(pc := Running, batch := at.pending, pending := [], ran := [])]))
    case RunNext(t) => RunFunctor(TakeFromBatch(s, t), t, s.loops[t].batch[0])
    case EndBatch(t) => Next(s.(loops := s.loops[t := s.loops[t].(pc := Polling, ran := [])]))
    case UserQueue(t, l, k) => Next(Enqueue(s, t, l, Task(k)))
    case Wake(t) =>
      var l := s.owes[t];
      Next(s.(loops := s.loops[l := s.loops[l].(signal := true)], owes := s.owes - {t}))
  }

  function IdleLoop(): Loop {
    Loop(Polling, [], [], [], [], [], false, P.Poller(map[], map[]), [], [])
  }

  /** A started server with `n` I/O loops and no connection yet. */
  function Init(base: string, n: nat): Sys {
    Sys(base, seq(n + 1, _ => IdleLoop()), [], map[], 1, 0, map[])
  }

  /** The steps can be taken one after another from `s`, none aborts, and they lead to `u`. */
  ghost predicate Reaches(s: Sys, steps: seq<Step>, u: Sys)
    decreases |steps|
  {
    if steps == [] then s == u
    else Enabled(s, steps[0]) && After(s, steps[0]).Next? && Reaches(After(s, steps[0]).sys, steps[1..], u)
  }
}
