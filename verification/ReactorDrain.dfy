/**
 * Progress: what an event sets going comes to an end, but for write loops that the kernel
 * keeps waiting.  A weight on states falls with every step the server takes of its own,
 * except a write that is to be tried again, which changes nothing.
 */
module ReactorDrain {
  import P = Pollers
  import opened Reactors
  import opened ReactorInvariants
  import ReactorOperations
  import opened ReactorSteps
  import opened ReactorSafety
  import opened ReactorRest

  // ---------------------------------------------------------------- the weight

  const OWED := 9
  const SIGNAL := 8
  const CLOSING := 22

  function FunctorWeight(f: Functor): nat {
    if f.RemoveInLoop? then 12 else 1
  }

  function QueueWeight(q: seq<Functor>): nat {
    if q == [] then 0 else FunctorWeight(q[0]) + QueueWeight(q[1..])
  }

  /** What closing the connection may still set going. */
  function CloseCredit(conns: seq<Conn>, c: nat): nat {
    if c < |conns| && conns[c].state == Disconnected then 0 else CLOSING
  }

  /** The output that waits, of which `sent` bytes have been sent in the running loop. */
  function Unsent(conns: seq<Conn>, c: nat, sent: nat): nat {
    if c < |conns| && conns[c].writeIdx > sent then conns[c].writeIdx - sent else 0
  }

  function Credit(conns: seq<Conn>, c: nat, sent: nat): nat {
    CloseCredit(conns, c) + Unsent(conns, c, sent)
  }

  function ItemWeight(conns: seq<Conn>, item: Item): nat {
    match item
    case Wakeup => 1
    case Accept => 12
    case Ready(c, _) => 7 + Credit(conns, c, 0)
  }

  function ItemsWeight(conns: seq<Conn>, items: seq<Item>): nat {
    if items == [] then 0 else ItemWeight(conns, items[0]) + ItemsWeight(conns, items[1..])
  }

  function PcWeight(conns: seq<Conn>, pc: Pc): nat {
    match pc
    case Polling => 0
    case Running => 1
    case Dispatching => 2
    case Handling(c, _, Writing(sent)) => 3 + Credit(conns, c, sent)
    case Handling(c, _, AtWrite) => 4 + Credit(conns, c, 0)
    case Handling(c, _, AtRead) => 5 + Credit(conns, c, 0)
    case Handling(c, _, AtClose) => 6 + Credit(conns, c, 0)
  }

  function LoopWeight(conns: seq<Conn>, at: Loop): nat {
    PcWeight(conns, at.pc) + ItemsWeight(conns, at.active) + QueueWeight(at.batch) + QueueWeight(at.pending)
    + if at.signal && Wakeup !in at.active then SIGNAL else 0
  }

  function LoopsWeight(conns: seq<Conn>, loops: seq<Loop>): nat {
    if loops == [] then 0 else LoopWeight(conns, loops[0]) + LoopsWeight(conns, loops[1..])
  }

  function Weight(s: Sys): nat {
    LoopsWeight(s.conns, s.loops) + OWED * |s.owes|
  }

  lemma {:induction false} ReplaceLoop(conns: seq<Conn>, loops: seq<Loop>, l: nat, at: Loop)
    requires l < |loops|
    ensures LoopsWeight(conns, loops[l := at]) ==
            LoopsWeight(conns, loops) - LoopWeight(conns, loops[l]) + LoopWeight(conns, at)
    ensures LoopsWeight(conns, loops) >= LoopWeight(conns, loops[l])
    decreases l
  {
    hide LoopWeight;
    if l == 0 {
      assert loops[0 := at][1..] == loops[1..];
    } else {
      ReplaceLoop(conns, loops[1..], l - 1, at);
      assert loops[l := at][1..] == loops[1..][l - 1 := at];
    }
  }

  lemma {:induction false} PushWeight(q: seq<Functor>, f: Functor)
    ensures QueueWeight(q + [f]) == QueueWeight(q) + FunctorWeight(f)
    decreases |q|
  {
    if q == [] {
      assert q + [f] == [f] && [f][1..] == [];
    } else {
      assert (q + [f])[1..] == q[1..] + [f];
      PushWeight(q[1..], f);
    }
  }

  lemma OweOne(owes: map<nat, nat>, t: nat, l: nat)
    ensures |owes[t := l]| <= |owes| + 1
  {
    assert owes[t := l].Keys == owes.Keys + {t};
    if t in owes { assert owes[t := l].Keys == owes.Keys; }
  }

  lemma PayOne(owes: map<nat, nat>, t: nat)
    requires t in owes
    ensures |owes - {t}| == |owes| - 1
  {
    assert (owes - {t}).Keys == owes.Keys - {t};
  }

  // ---------------------------------------------------------------- connections that weigh no more

  predicate LighterAt(a: seq<Conn>, b: seq<Conn>, c: nat) {
    CloseCredit(b, c) <= CloseCredit(a, c) && Unsent(b, c, 0) <= Unsent(a, c, 0)
  }

  /** No connection is open or has output in `b` that it had not in `a`. */
  ghost predicate Lighter(a: seq<Conn>, b: seq<Conn>) {
    forall c: nat :: LighterAt(a, b, c)
  }

  lemma {:induction false} LighterItems(a: seq<Conn>, b: seq<Conn>, items: seq<Item>)
    requires Lighter(a, b)
    ensures ItemsWeight(b, items) <= ItemsWeight(a, items)
    decreases |items|
  {
    if items != [] {
      if items[0].Ready? { assert LighterAt(a, b, items[0].c); }
      LighterItems(a, b, items[1..]);
    }
  }

  lemma LighterLoop(a: seq<Conn>, b: seq<Conn>, at: Loop)
    requires Lighter(a, b)
    ensures LoopWeight(b, at) <= LoopWeight(a, at)
  {
    LighterItems(a, b, at.active);
    if at.pc.Handling? { assert LighterAt(a, b, at.pc.c); }
    hide QueueWeight, ItemsWeight, Lighter;
  }

  lemma {:induction false} LighterLoops(a: seq<Conn>, b: seq<Conn>, loops: seq<Loop>)
    requires Lighter(a, b)
    ensures LoopsWeight(b, loops) <= LoopsWeight(a, loops)
    decreases |loops|
  {
    hide LoopWeight, Lighter;
    if loops != [] {
      LighterLoop(a, b, loops[0]);
      LighterLoops(a, b, loops[1..]);
    }
  }

  /** Where one loop weighs `d` less, so do all together. */
  lemma {:induction false} LighterLoopsBy(a: seq<Conn>, b: seq<Conn>, loops: seq<Loop>, l: nat, d: nat)
    requires Lighter(a, b) && l < |loops| && LoopWeight(b, loops[l]) + d <= LoopWeight(a, loops[l])
    ensures LoopsWeight(b, loops) + d <= LoopsWeight(a, loops)
    decreases l
  {
    hide LoopWeight, Lighter;
    if l == 0 {
      LighterLoops(a, b, loops[1..]);
    } else {
      LighterLoop(a, b, loops[0]);
      LighterLoopsBy(a, b, loops[1..], l - 1, d);
    }
  }

  /** Replacing a connection by one that is no more open and has no more output. */
  lemma LighterConn(conns: seq<Conn>, c: nat, conn: Conn)
    requires c < |conns| && conn.writeIdx <= conns[c].writeIdx
    requires conns[c].state == Disconnected ==> conn.state == Disconnected
    ensures Lighter(conns, conns[c := conn])
  {
    var changed := conns[c := conn];
    forall d: nat
      ensures LighterAt(conns, changed, d)
    {
    }
  }

  // ---------------------------------------------------------------- what the operations add

  lemma EnqueueWeight(s: Sys, t: nat, l: nat, f: Functor)
    requires l < |s.loops|
    ensures Weight(Enqueue(s, t, l, f)) <= Weight(s) + FunctorWeight(f) + OWED
  {
    var at := s.loops[l];
    PushWeight(at.pending, f);
    OweOne(s.owes, t, l);
    hide LoopsWeight, QueueWeight, ItemsWeight, FunctorWeight, PcWeight;
    ReplaceLoop(s.conns, s.loops, l, at.(pending := at.pending + [f], log := at.log + [f]));
  }

  lemma ConnWeight(s: Sys, c: nat, conn: Conn)
    requires c < |s.conns| && conn.writeIdx <= s.conns[c].writeIdx
    requires s.conns[c].state == Disconnected ==> conn.state == Disconnected
    ensures Weight(s.(conns := s.conns[c := conn])) <= Weight(s)
  {
    LighterConn(s.conns, c, conn);
    hide LoopsWeight, Lighter;
    LighterLoops(s.conns, s.conns[c := conn], s.loops);
  }

  lemma ChannelOpWeight(s: Sys, c: nat, op: P.Op)
    requires c < |s.conns| && s.conns[c].loop < |s.loops|
    ensures ChannelOp(s, c, op).Next? ==> Weight(ChannelOp(s, c, op).sys) <= Weight(s)
  {
    var conn := s.conns[c];
    var at := s.loops[conn.loop];
    hide P.Apply, LoopsWeight, QueueWeight, ItemsWeight, PcWeight;
    match P.Apply(at.poller, c, conn.channel, op)
    case Abort =>
    case Done(q, ch, _) =>
      ReplaceLoop(s.conns, s.loops, conn.loop, at.(poller := q));
      ConnWeight(s.(loops := s.loops[conn.loop := at.(poller := q)]), c, conn.(channel := ch));
  }

  lemma EstablishedWeight(s: Sys, t: nat, c: nat)
    ensures DoEstablished(s, t, c).Next? ==> Weight(DoEstablished(s, t, c).sys) <= Weight(s)
  {
    hide ChannelOp, Weight;
    if InItsThread(s, t, c) && s.conns[c].state == Connecting {
      var conn := s.conns[c].(state := Connected, established := s.conns[c].established + 1);
      ConnWeight(s, c, conn);
      ChannelOpWeight(s.(conns := s.conns[c := conn]), c, P.EnableRead);
    }
  }

  lemma ErasedWeight(s: Sys, c: nat)
    requires c < |s.conns|
    ensures Weight(ReactorOperations.Erase(s, c)) <= Weight(s)
  {
    hide LoopsWeight;
    ConnWeight(s, c, s.conns[c].(erased := s.conns[c].erased + 1));
  }

  lemma RemovedWeight(s: Sys, t: nat, c: nat)
    ensures DoRemove(s, t, c).Next? ==> Weight(DoRemove(s, t, c).sys) <= Weight(s) + 1 + OWED
  {
    if DoRemove(s, t, c).Next? {
      ReactorOperations.RemoveIsErase(s, c);
      ErasedWeight(s, c);
      EnqueueWeight(ReactorOperations.Erase(s, c), 0, s.conns[c].loop, Destroyed(c));
      hide Weight, Enqueue, ReactorOperations.Erase;
    }
  }

  lemma DestroyedWeight(s: Sys, t: nat, c: nat)
    ensures DoDestroyed(s, t, c).Next? ==> Weight(DoDestroyed(s, t, c).sys) <= Weight(s)
  {
    hide ChannelOp, Weight, MayRemove;
    if InItsThread(s, t, c) {
      var conn := s.conns[c].(destroyed := s.conns[c].destroyed + 1);
      ConnWeight(s, c, conn);
      ChannelOpWeight(s.(conns := s.conns[c := conn]), c, P.Remove);
      var half := s.(conns := s.conns[c := conn.(state := Disconnected)]);
      ConnWeight(s, c, conn.(state := Disconnected));
      ChannelOpWeight(half, c, P.DisableAll);
      var r := ChannelOp(half, c, P.DisableAll);
      if r.Next? {
        SameLoopAfter(half, c, P.DisableAll);
        ChannelOpWeight(r.sys, c, P.Remove);
      }
    }
  }

  /** Closing a connection spends the credit of its handler. */
  lemma ClosingCredit(s: Sys, t: nat, c: nat)
    requires InItsThread(s, t, c) && s.loops[t].pc.Handling? && s.loops[t].pc.c == c && s.conns[c].state != Disconnected
    ensures var m := s.(conns := s.conns[c := s.conns[c].(state := Disconnected)]); Weight(m) + CLOSING <= Weight(s)
  {
    var conns := s.conns[c := s.conns[c].(state := Disconnected)];
    LighterConn(s.conns, c, conns[c]);
    LighterItems(s.conns, conns, s.loops[t].active);
    hide LoopsWeight, QueueWeight, ItemsWeight, Lighter;
    LighterLoopsBy(s.conns, conns, s.loops, t, CLOSING);
  }

  lemma ClosedWeight(s: Sys, t: nat, c: nat)
    requires InItsThread(s, t, c) && s.loops[t].pc.Handling? && s.loops[t].pc.c == c
    ensures DoClose(s, t, c).Next? ==> Weight(DoClose(s, t, c).sys) < Weight(s)
  {
    hide ChannelOp, Weight, DoRemove, Enqueue;
    if s.conns[c].state in {Connected, Connecting} {
      ClosingCredit(s, t, c);
      var m := s.(conns := s.conns[c := s.conns[c].(state := Disconnected)]);
      ChannelOpWeight(m, c, P.DisableAll);
      var r := ChannelOp(m, c, P.DisableAll);
      if r.Next? {
        SameLoopAfter(m, c, P.DisableAll);
        RemovedWeight(r.sys, 0, c);
        EnqueueWeight(r.sys, t, 0, RemoveInLoop(c));
      }
    }
  }

  lemma AddConnWeight(s: Sys, fd: int)
    ensures Weight(AddConn(s, fd)) <= Weight(s)
  {
    var u := AddConn(s, fd);
    forall c: nat
      ensures LighterAt(s.conns, u.conns, c)
    {
    }
    hide ConnName, LoopsWeight;
    LighterLoops(s.conns, u.conns, s.loops);
  }

  lemma AcceptedWeight(s: Sys, t: nat, fd: int)
    ensures NewConnection(s, t, fd).Next? ==> Weight(NewConnection(s, t, fd).sys) <= Weight(s) + 1 + OWED
  {
    AddConnWeight(s, fd);
    AddConnLoops(s, fd);
    hide DoEstablished, Weight, Enqueue, AddConn;
    var m := AddConn(s, fd);
    EstablishedWeight(m, t, |s.conns|);
    var l := ChosenLoop(s);
    if l < |s.loops| { EnqueueWeight(m, t, l, Established(|s.conns|)); }
  }

  // ---------------------------------------------------------------- the server's own steps

  /** A step no new event, no callback's wish and no user's functor is behind. */
  predicate Internal(step: Step) {
    match step
    case PollReturn(_, reports) => reports == [WakeReady]
    case Handle(_, act) => !act.Send? && !act.Shutdown?
    case UserQueue(_, _, _) => false
    case _ => true
  }

  /** The write loop is told to try again. */
  predicate Retry(step: Step) {
    step.Handle? && step.act.WriteAgain?
  }

  function RetriesIn(steps: seq<Step>): nat {
    if steps == [] then 0 else RetriesIn(steps[1..]) + if Retry(steps[0]) then 1 else 0
  }

  lemma PollDecreases(s: Sys, t: nat)
    requires Inv(s, Nothing) && Enabled(s, PollReturn(t, [WakeReady]))
    ensures var r := Poll(s, t, [WakeReady]); r.Next? ==> Weight(r.sys) < Weight(s)
  {
    var at := s.loops[t];
    assert LoopActive(s, t);
    assert Reportable(at, t, [WakeReady][0]);
    assert Items(at, [WakeReady]) == [Wakeup];
    hide Inv, Known, LoopsWeight, QueueWeight;
    assert ItemsWeight(s.conns, [Wakeup]) == 1;
    ReplaceLoop(s.conns, s.loops, t, at.(pc := Dispatching, active := Items(at, [WakeReady]), seen := []));
  }

  /** The loop with its first active item taken out. */
  function ItemTaken(at: Loop): Loop
    requires at.active != []
  {
    at.(active := at.active[1..], seen := at.seen + [at.active[0]])
  }

  /** What a dispatching loop weighs less once it has turned to its first item. */
  lemma ItemTakenWeight(conns: seq<Conn>, at: Loop, item: Item)
    requires at.active != [] && at.active[0] == item && at.pc.Dispatching?
    ensures item.Wakeup? ==> LoopWeight(conns, ItemTaken(at).(signal := false)) < LoopWeight(conns, at)
    ensures item.Accept? ==> LoopWeight(conns, ItemTaken(at)) + ItemWeight(conns, item) == LoopWeight(conns, at)
    ensures item.Ready? ==>
              LoopWeight(conns, ItemTaken(at).(pc := Handling(item.c, item.rcv, AtClose))) < LoopWeight(conns, at)
  {
    hide QueueWeight, Credit;
    assert at.active == [item] + at.active[1..];
  }

  lemma DispatchDecreases(s: Sys, t: nat, accepted: int)
    requires t < |s.loops| && s.loops[t].active != [] && s.loops[t].pc.Dispatching?
    ensures var r := Dispatch(s, t, accepted); r.Next? ==> Weight(r.sys) < Weight(s)
  {
    var at, item := ItemTaken(s.loops[t]), s.loops[t].active[0];
    ItemTakenWeight(s.conns, s.loops[t], item);
    hide LoopsWeight, LoopWeight, NewConnection;
    match item
    case Wakeup => ReplaceLoop(s.conns, s.loops, t, at.(signal := false));
    case Accept =>
      ReplaceLoop(s.conns, s.loops, t, at);
      AcceptedWeight(s.(loops := s.loops[t := at]), t, accepted);
    case Ready(c, rcv) => ReplaceLoop(s.conns, s.loops, t, at.(pc := Handling(c, rcv, AtClose)));
  }

  lemma SetPcWeight(s: Sys, t: nat, pc: Pc)
    requires t < |s.loops|
    ensures Weight(SetPc(s, t, pc)) == Weight(s) - PcWeight(s.conns, s.loops[t].pc) + PcWeight(s.conns, pc)
  {
    hide LoopsWeight, QueueWeight, ItemsWeight, PcWeight;
    ReplaceLoop(s.conns, s.loops, t, s.loops[t].(pc := pc));
  }

  lemma CloseStageDecreases(s: Sys, t: nat, c: nat, rcv: set<P.Bit>, act: Action)
    requires InItsThread(s, t, c) && s.loops[t].pc == Handling(c, rcv, AtClose)
    ensures var r := HandleStage(s, t, c, rcv, AtClose, act); r.Next? ==> Weight(r.sys) < Weight(s)
  {
    hide Weight, DoClose, Credit;
    SetPcWeight(s, t, Handling(c, rcv, AtRead));
    ClosedWeight(SetPc(s, t, Handling(c, rcv, AtRead)), t, c);
  }

  lemma DrainedDecreases(s: Sys, t: nat, c: nat)
    requires InItsThread(s, t, c) && s.loops[t].pc.Handling? && s.loops[t].pc.c == c
    ensures DoDrained(s, t, c).Next? ==> Weight(DoDrained(s, t, c).sys) < Weight(s)
  {
    var conn := s.conns[c].(writeIdx := 0);
    var m := s.(conns := s.conns[c := conn]);
    hide Weight, ChannelOp, Credit;
    ConnWeight(s, c, conn);
    SetPcWeight(m, t, Dispatching);
    ChannelOpWeight(SetPc(m, t, Dispatching), c, P.DisableWrite);
  }

  lemma WriteStageDecreases(s: Sys, t: nat, c: nat, rcv: set<P.Bit>, sent: nat, act: Action)
    requires InItsThread(s, t, c) && s.loops[t].pc == Handling(c, rcv, Writing(sent)) && !act.WriteAgain?
    ensures var r := DoWrite(s, t, c, rcv, sent, act); r.Next? ==> Weight(r.sys) < Weight(s)
  {
    hide Weight, DoClose, DoDrained;
    if act.Wrote? {
      if act.n == 0 {
        ClosedWeight(s, t, c);
      } else {
        DrainedDecreases(s, t, c);
        SetPcWeight(s, t, Handling(c, rcv, Writing(sent + act.n)));
      }
    } else {
      SetPcWeight(s, t, Dispatching);
    }
  }

  lemma ReadStageDecreases(s: Sys, t: nat, c: nat, rcv: set<P.Bit>)
    requires InItsThread(s, t, c) && s.loops[t].pc == Handling(c, rcv, AtRead)
    ensures var r := HandleStage(s, t, c, rcv, AtRead, Proceed); r.Next? && Weight(r.sys) < Weight(s)
  {
    hide Weight, Credit;
    SetPcWeight(s, t, Handling(c, rcv, AtWrite));
  }

  lemma EntryStageDecreases(s: Sys, t: nat, c: nat, rcv: set<P.Bit>)
    requires InItsThread(s, t, c) && s.loops[t].pc == Handling(c, rcv, AtWrite)
    ensures var r := HandleStage(s, t, c, rcv, AtWrite, Proceed); r.Next? && Weight(r.sys) < Weight(s)
  {
    hide Weight, Credit;
    SetPcWeight(s, t, Handling(c, rcv, Writing(0)));
    SetPcWeight(s, t, Dispatching);
  }

  lemma HandleDecreases(s: Sys, t: nat, act: Action)
    requires Inv(s, Nothing) && Enabled(s, Handle(t, act)) && Internal(Handle(t, act)) && !act.WriteAgain?
    ensures var r := After(s, Handle(t, act)); r.Next? ==> Weight(r.sys) < Weight(s)
  {
    HandledConn(s, t);
    var pc := s.loops[t].pc;
    hide Inv, Weight, DoWrite, HandlingOk, HandleStage;
    match pc.stage
    case AtClose => CloseStageDecreases(s, t, pc.c, pc.rcv, act);
    case AtRead => ReadStageDecreases(s, t, pc.c, pc.rcv);
    case AtWrite => EntryStageDecreases(s, t, pc.c, pc.rcv);
    case Writing(sent) =>
      WriteStageIs(s, t, pc.c, pc.rcv, sent, act);
      WriteStageDecreases(s, t, pc.c, pc.rcv, sent, act);
  }

  lemma WriteStageIs(s: Sys, t: nat, c: nat, rcv: set<P.Bit>, sent: nat, act: Action)
    requires InItsThread(s, t, c)
    ensures HandleStage(s, t, c, rcv, Writing(sent), act) == DoWrite(s, t, c, rcv, sent, act)
  {
    hide DoWrite;
  }

  /** Being told to write again changes nothing. */
  lemma RetryChangesNothing(s: Sys, t: nat)
    requires Inv(s, Nothing) && Enabled(s, Handle(t, WriteAgain))
    ensures After(s, Handle(t, WriteAgain)) == Next(s)
  {
    HandledConn(s, t);
    hide Inv, HandlingOk;
    WriterIsArmed(s, t);
  }

  lemma SwapDecreases(s: Sys, t: nat)
    requires Enabled(s, Swap(t)) && LoopActive(s, t)
    ensures Weight(After(s, Swap(t)).sys) < Weight(s)
  {
    var at := s.loops[t];
    hide LoopsWeight;
    assert QueueWeight([]) == 0;
    ReplaceLoop(s.conns, s.loops, t, at.(pc := Running, batch := at.pending, pending := [], ran := []));
    hide QueueWeight;
  }

  lemma RunDecreases(s: Sys, t: nat)
    requires Enabled(s, RunNext(t))
    ensures After(s, RunNext(t)).Next? ==> Weight(After(s, RunNext(t)).sys) < Weight(s)
  {
    var m := TakeFromBatch(s, t);
    var f := s.loops[t].batch[0];
    TakeWeight(s, t);
    hide Weight, DoEstablished, DoRemove, DoDestroyed, TakeFromBatch;
    match f
    case Established(c) => EstablishedWeight(m, t, c);
    case RemoveInLoop(c) => RemovedWeight(m, t, c);
    case Destroyed(c) => DestroyedWeight(m, t, c);
    case Task(_) =>
  }

  lemma TakeWeight(s: Sys, t: nat)
    requires t < |s.loops| && s.loops[t].batch != []
    ensures Weight(TakeFromBatch(s, t)) == Weight(s) - FunctorWeight(s.loops[t].batch[0])
  {
    hide LoopsWeight, ItemsWeight, FunctorWeight, PcWeight;
    ReplaceLoop(s.conns, s.loops, t, TakeFromBatch(s, t).loops[t]);
  }

  lemma EndBatchDecreases(s: Sys, t: nat)
    requires Enabled(s, EndBatch(t))
    ensures Weight(After(s, EndBatch(t)).sys) < Weight(s)
  {
    hide LoopsWeight, QueueWeight, ItemsWeight;
    ReplaceLoop(s.conns, s.loops, t, s.loops[t].(pc := Polling, ran := []));
  }

  lemma WakeDecreases(s: Sys, t: nat)
    requires Enabled(s, Wake(t))
    ensures Weight(After(s, Wake(t)).sys) < Weight(s)
  {
    var l := s.owes[t];
    hide LoopsWeight, QueueWeight, ItemsWeight, PcWeight;
    PayOne(s.owes, t);
    ReplaceLoop(s.conns, s.loops, l, s.loops[l].(signal := true));
  }

  lemma StepDecreases(s: Sys, step: Step)
    requires Inv(s, Nothing) && Enabled(s, step) && Internal(step) && !Retry(step)
    ensures After(s, step).Next? ==> Weight(After(s, step).sys) < Weight(s)
  {
    hide Weight, HandleStage, Dispatch, Poll, RunFunctor;
    match step
    case PollReturn(t, reports) => hide Inv; PollDecreases(s, t);
    case DispatchNext(t, accepted) => hide Inv; DispatchDecreases(s, t, accepted);
    case Handle(t, act) => hide Inv, After; HandleDecreases(s, t, act);
    case Swap(t) => assert LoopActive(s, t); hide Inv, After; SwapDecreases(s, t);
    case RunNext(t) => hide Inv, After; RunDecreases(s, t);
    case EndBatch(t) => hide Inv, After; EndBatchDecreases(s, t);
    case UserQueue(_, _, _) =>
    case Wake(t) => hide Inv, After; WakeDecreases(s, t);
  }

  // ---------------------------------------------------------------- coming to rest

  /** The weight of a state bounds the server's own steps from it, not counting writes tried again. */
  lemma {:induction false} InternalStepsAreBounded(s: Sys, steps: seq<Step>, u: Sys)
    requires Inv(s, Nothing) && Reaches(s, steps, u) && forall i :: 0 <= i < |steps| ==> Internal(steps[i])
    ensures |steps| + Weight(u) <= Weight(s) + RetriesIn(steps)
    decreases |steps|
  {
    if steps != [] {
      if Retry(steps[0]) {
        RetryChangesNothing(s, steps[0].t);
      } else {
        StepDecreases(s, steps[0]);
      }
      StepKeepsInv(s, steps[0]);
      hide Inv, After, Weight, Enabled, Internal, Retry;
      InternalStepsAreBounded(After(s, steps[0]).sys, steps[1..], u);
    }
  }

  /** A step of the server's own that is not an answer of write(). */
  predicate Own(step: Step) {
    Internal(step) && (step.Handle? ==> step.act.Proceed?)
  }

  predicate InWriteLoop(at: Loop) {
    at.pc.Handling? && at.pc.stage.Writing?
  }

  predicate Resting(at: Loop) {
    at.pc.Polling? && at.pending == [] && !at.signal
  }

  /** Every loop either rests or waits for an answer of write(), and no wakeup is owed. */
  ghost predicate Stalled(s: Sys) {
    s.owes == map[] && forall l :: 0 <= l < |s.loops| ==> Resting(s.loops[l]) || InWriteLoop(s.loops[l])
  }

  /** A step of the server's own is possible unless it is stalled. */
  lemma MovesUnlessStalled(s: Sys) returns (step: Step)
    requires Inv(s, Nothing) && !Stalled(s)
    ensures Enabled(s, step) && Own(step)
  {
    if t :| t in s.owes {
      step := Wake(t);
    } else {
      var l :| 0 <= l < |s.loops| && !Resting(s.loops[l]) && !InWriteLoop(s.loops[l]);
      step := NextOf(s, l);
    }
  }

  lemma NextOf(s: Sys, l: nat) returns (step: Step)
    requires Inv(s, Nothing) && s.owes == map[] && l < |s.loops|
    requires !Resting(s.loops[l]) && !InWriteLoop(s.loops[l])
    ensures Enabled(s, step) && Own(step)
  {
    var at := s.loops[l];
    match at.pc
    case Polling =>
      assert !Owed(s, l);
      step := PollReturn(l, [WakeReady]);
    case Dispatching => step := if at.active == [] then Swap(l) else DispatchNext(l, 0);
    case Running => step := if at.batch == [] then EndBatch(l) else RunNext(l);
    case Handling(_, _, _) =>
      HandledConn(s, l);
      step := Handle(l, Proceed);
  }

  lemma StalledIsStuck(s: Sys, step: Step)
    requires Inv(s, Nothing) && Stalled(s) && Own(step)
    ensures !Enabled(s, step)
  {
    if !step.Wake? && !step.UserQueue? && step.t < |s.loops| {
      assert Resting(s.loops[step.t]) || InWriteLoop(s.loops[step.t]);
      if InWriteLoop(s.loops[step.t]) {
        HandledConn(s, step.t);
      } else if step.PollReturn? {
        assert !Reportable(s.loops[step.t], step.t, step.reports[0]);
      }
    }
  }

  /**
   * After any run, the server takes boundedly many steps of its own, in whatever order,
   * besides writes it has to try again.  It can go on without an answer of write() exactly
   * until every loop rests or is in a write loop; and when none is, it is at rest, so that
   * every connection that was closed has been taken out of the map and destroyed.
   */
  lemma ServerComesToRest(base: string, n: nat, before: seq<Step>, s: Sys, steps: seq<Step>, u: Sys)
    requires Reaches(Init(base, n), before, s)
    requires Reaches(s, steps, u) && forall i :: 0 <= i < |steps| ==> Internal(steps[i])
    ensures |steps| <= Weight(s) + RetriesIn(steps)
    ensures (forall step :: Own(step) ==> !Enabled(u, step)) <==> Stalled(u)
    ensures Stalled(u) && (forall l :: 0 <= l < |u.loops| ==> !InWriteLoop(u.loops[l])) ==> AtRest(u)
  {
    ReachableInv(base, n, before, s);
    InternalStepsAreBounded(s, steps, u);
    InvAlways(s, steps, u);
    hide Inv, Weight, Own, Enabled, Reaches, Init, Internal, RetriesIn, InWriteLoop;
    StuckExactlyWhenStalled(u);
    if Stalled(u) && forall l :: 0 <= l < |u.loops| ==> !InWriteLoop(u.loops[l]) {
      StalledOutsideWriteLoops(u);
    }
  }

  lemma StalledOutsideWriteLoops(s: Sys)
    requires Stalled(s) && forall l :: 0 <= l < |s.loops| ==> !InWriteLoop(s.loops[l])
    ensures AtRest(s)
  {
  }

  lemma StuckExactlyWhenStalled(s: Sys)
    requires Inv(s, Nothing)
    ensures (forall step :: Own(step) ==> !Enabled(s, step)) <==> Stalled(s)
  {
    hide Inv, Own, Enabled;
    if Stalled(s) {
      forall step | Own(step)
        ensures !Enabled(s, step)
      {
        StalledIsStuck(s, step);
      }
    } else {
      var step := MovesUnlessStalled(s);
    }
  }
}
