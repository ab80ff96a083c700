/**
 * Starting an I/O loop: EventLoopThread::startLoop on the calling thread against
 * Thread::start's new thread, through a count-down latch and a condition variable.
 * Each step is one lock, unlock, test, wait, notify or plain access of one thread.
 */
module Handshake {
  datatype Owner = Nobody | Main | Child

  /** The thread in startLoop; the first wait is inside Thread::start. */
  datatype MainPc =
    | Create | LatchLock | LatchTest | LatchAsleep | LatchRelock | LatchUnlock | CheckTid
    | LoopLock | LoopTest | LoopAsleep | LoopRelock | LoopUnlock | ReadLoop
    | Returned(nonNull: bool) | AssertFailed

  /** The new thread, in runInThread and then threadFunc. */
  datatype ChildPc =
    | Absent | WriteTid | CountLock | CountDown | CountNotify | CountUnlock
    | SetUp | SetLock | SetLoop | SetNotify | SetUnlock | Looping | ClearLoop | Exited

  datatype State = State(
    main: MainPc, child: ChildPc,
    tidWritten: bool,
    count: int, latchOwner: Owner,  // the latch and its mutex
    loop: bool, loopOwner: Owner,   // loop_ is not null, and the mutex that guards it at first
    ended: bool)                    // loop_->loop() has returned

  /** `Spurious` is a wakeup without a notification; `LoopEnds` is the loop quitting. */
  datatype Step = MainStep(created: bool) | ChildStep | Spurious | LoopEnds

  function Init(): State {
    State(Create, Absent, false, 1, Nobody, false, Nobody, false)
  }

  predicate Enabled(s: State, step: Step) {
    match step
    case MainStep(_) => (
      match s.main
      case LatchLock => s.latchOwner == Nobody
      case LatchRelock => s.latchOwner == Nobody
      case LoopLock => s.loopOwner == Nobody
      case LoopRelock => s.loopOwner == Nobody
      case LatchAsleep => false
      case LoopAsleep => false
      case Returned(_) => false
      case AssertFailed => false
      case _ => true)
    case ChildStep => (
      match s.child
      case Absent => false
      case CountLock => s.latchOwner == Nobody
      case SetLock => s.loopOwner == Nobody
      case Looping => false
      case Exited => false
      case _ => true)
    case Spurious => s.main == LatchAsleep || s.main == LoopAsleep
    case LoopEnds => s.child == Looping
  }

  function MainNext(s: State, created: bool): State {
    match s.main
    case Create => if created then s.(main := LatchLock, child := WriteTid) else s.(main := LoopLock)
    case LatchLock => s.(main := LatchTest, latchOwner := Main)
    case LatchRelock => s.(main := LatchTest, latchOwner := Main)
    case LatchTest => if s.count > 0 then s.(main := LatchAsleep, latchOwner := Nobody) else s.(main := LatchUnlock)
    case LatchUnlock => s.(main := CheckTid, latchOwner := Nobody)
    case CheckTid => s.(main := if s.tidWritten then LoopLock else AssertFailed)
    case LoopLock => s.(main := LoopTest, loopOwner := Main)
    case LoopRelock => s.(main := LoopTest, loopOwner := Main)
    case LoopTest => if !s.loop then s.(main := LoopAsleep, loopOwner := Nobody) else s.(main := LoopUnlock)
    case LoopUnlock => s.(main := ReadLoop, loopOwner := Nobody)
    case ReadLoop => s.(main := Returned(s.loop))
    case _ => s
  }

  function ChildNext(s: State): State {
    match s.child
    case WriteTid => s.(child := CountLock, tidWritten := true)
    case CountLock => s.(child := CountDown, latchOwner := Child)
    case CountDown => s.(child := if s.count - 1 == 0 then CountNotify else CountUnlock, count := s.count - 1)
    case CountNotify => s.(child := CountUnlock, main := if s.main == LatchAsleep then LatchRelock else s.main)
    case CountUnlock => s.(child := SetUp, latchOwner := Nobody)
    case SetUp => s.(child := SetLock)
    case SetLock => s.(child := SetLoop, loopOwner := Child)
    case SetLoop => s.(child := SetNotify, loop := true)
    case SetNotify => s.(child := SetUnlock, main := if s.main == LoopAsleep then LoopRelock else s.main)
    case SetUnlock => s.(child := Looping, loopOwner := Nobody)
    case ClearLoop => s.(child := Exited, loop := false)
    case _ => s
  }

  function Next(s: State, step: Step): State
    requires Enabled(s, step)
  {
    match step
    case MainStep(created) => MainNext(s, created)
    case ChildStep => ChildNext(s)
    case Spurious => s.(main := if s.main == LatchAsleep then LatchRelock else LoopRelock)
    case LoopEnds => s.(child := ClearLoop, ended := true)
  }

  ghost predicate Reaches(s: State, steps: seq<Step>, u: State)
    decreases |steps|
  {
    if steps == [] then s == u else Enabled(s, steps[0]) && Reaches(Next(s, steps[0]), steps[1..], u)
  }

  // ---------------------------------------------------------------- the invariant

  /** How far the new thread has come. */
  function ChildRank(c: ChildPc): nat {
    match c
    case Absent => 0
    case WriteTid => 1
    case CountLock => 2
    case CountDown => 3
    case CountNotify => 4
    case CountUnlock => 5
    case SetUp => 6
    case SetLock => 7
    case SetLoop => 8
    case SetNotify => 9
    case SetUnlock => 10
    case Looping => 11
    case ClearLoop => 12
    case Exited => 13
  }

  predicate InLatch(m: MainPc) {
    m in {LatchLock, LatchTest, LatchAsleep, LatchRelock, LatchUnlock, CheckTid}
  }

  predicate LocksOk(s: State) {
    && (s.latchOwner == Main <==> s.main in {LatchTest, LatchUnlock})
    && (s.latchOwner == Child <==> s.child in {CountDown, CountNotify, CountUnlock})
    && (s.loopOwner == Main <==> s.main in {LoopTest, LoopUnlock})
    && (s.loopOwner == Child <==> s.child in {SetLoop, SetNotify, SetUnlock})
  }

  predicate ProgressOk(s: State) {
    var r := ChildRank(s.child);
    && (s.tidWritten <==> r >= 2)
    && s.count == (if r >= 4 then 0 else 1)
    && (s.loop <==> 9 <= r <= 12)
    && (s.ended <==> r >= 12)
    && (s.main == Create ==> r == 0)
    && (InLatch(s.main) ==> r >= 1)
    && (s.main != Create && !InLatch(s.main) ==> r == 0 || r >= 4)
    && s.main != AssertFailed
    && (s.main in {LatchUnlock, CheckTid} ==> s.count == 0)
    && (s.main in {LoopUnlock, ReadLoop} || s.main.Returned? ==> r >= 9)
    && (s.main.Returned? && !s.main.nonNull ==> s.ended)
  }

  /** A sleeper whose condition holds is about to be notified. */
  predicate NoLostWakeup(s: State) {
    && (s.main == LatchAsleep && s.count == 0 ==> s.child == CountNotify)
    && (s.main == LoopAsleep && s.loop ==> s.child == SetNotify)
  }

  predicate Inv(s: State) {
    LocksOk(s) && ProgressOk(s) && NoLostWakeup(s)
  }

  lemma MainStepKeepsInv(s: State, created: bool)
    requires Inv(s) && Enabled(s, MainStep(created))
    ensures Inv(MainNext(s, created))
  {
  }

  lemma ChildStepKeepsInv(s: State)
    requires Inv(s) && Enabled(s, ChildStep)
    ensures Inv(ChildNext(s))
  {
  }

  lemma OtherStepKeepsInv(s: State, step: Step)
    requires Inv(s) && Enabled(s, step) && (step.Spurious? || step.LoopEnds?)
    ensures Inv(Next(s, step))
  {
  }

  lemma StepKeepsInv(s: State, step: Step)
    requires Inv(s) && Enabled(s, step)
    ensures Inv(Next(s, step))
  {
    hide Inv, Enabled, MainNext, ChildNext;
    match step
    case MainStep(created) => MainStepKeepsInv(s, created);
    case ChildStep => ChildStepKeepsInv(s);
    case _ => OtherStepKeepsInv(s, step);
  }

  /** The invariant holds in every state any interleaving reaches. */
  lemma {:induction false} InvAlways(s: State, steps: seq<Step>, u: State)
    requires Inv(s) && Reaches(s, steps, u)
    ensures Inv(u)
    decreases |steps|
  {
    if steps != [] {
      StepKeepsInv(s, steps[0]);
      hide Inv, Next, Enabled;
      InvAlways(Next(s, steps[0]), steps[1..], u);
    }
  }

  /**
   * Thread::start goes past its latch, and its assert on the thread id passes, only after
   * the new thread has written the id; startLoop returns a loop unless that loop has quit;
   * nobody sleeps on a condition that holds without a notification on its way.
   */
  lemma StartLoopIsSafe(steps: seq<Step>, u: State)
    requires Reaches(Init(), steps, u)
    ensures u.main != AssertFailed
    ensures u.main in {LatchUnlock, CheckTid} ==> u.tidWritten
    ensures u.main.Returned? ==> u.tidWritten && (u.main.nonNull || u.ended)
    ensures u.main == LatchAsleep && u.count == 0 ==> u.child == CountNotify
    ensures u.main == LoopAsleep && u.loop ==> u.child == SetNotify
    ensures !(u.latchOwner == Main && u.child in {CountDown, CountNotify, CountUnlock})
    ensures !(u.loopOwner == Main && u.child in {SetLoop, SetNotify, SetUnlock})
  {
    InvAlways(Init(), steps, u);
  }

  /** Neither thread can move, and startLoop has not returned. */
  ghost predicate Stuck(s: State) {
    && !s.main.Returned?
    && (forall created :: !Enabled(s, MainStep(created)))
    && !Enabled(s, ChildStep)
  }

  /**
   * Start-up gets stuck in one way only: startLoop sleeps for a loop while the thread was
   * never created, or has already cleared `loop_` again because its loop quit.
   */
  lemma StuckExactly(steps: seq<Step>, u: State)
    requires Reaches(Init(), steps, u)
    ensures Stuck(u) <==> u.main == LoopAsleep && u.child in {Absent, Exited}
    ensures Stuck(u) ==> !u.tidWritten || u.ended
  {
    InvAlways(Init(), steps, u);
    if !u.main.Returned? && !(u.main == LoopAsleep && u.child in {Absent, Exited}) {
      assert Enabled(u, MainStep(true)) || Enabled(u, ChildStep);
    }
  }

  // ---------------------------------------------------------------- it ends

  function MainWeight(m: MainPc): nat {
    match m
    case Create => 20
    case LatchLock => 15
    case LatchRelock => 15
    case LatchTest => 14
    case LatchAsleep => 13
    case LatchUnlock => 12
    case CheckTid => 11
    case LoopLock => 10
    case LoopRelock => 10
    case LoopTest => 9
    case LoopAsleep => 8
    case LoopUnlock => 7
    case ReadLoop => 6
    case _ => 0
  }

  function Measure(s: State): nat {
    MainWeight(s.main) + 10 * (14 - ChildRank(s.child))
  }

  function SpuriousIn(steps: seq<Step>): nat {
    if steps == [] then 0 else SpuriousIn(steps[1..]) + if steps[0].Spurious? then 1 else 0
  }

  lemma StepDecreases(s: State, step: Step)
    requires Inv(s) && Enabled(s, step)
    ensures step.Spurious? ==> Measure(Next(s, step)) <= Measure(s) + 2
    ensures !step.Spurious? ==> Measure(Next(s, step)) < Measure(s)
  {
  }

  /** Only wakeups without a notification can keep start-up going; each buys three more steps at most. */
  lemma {:induction false} StartUpEnds(s: State, steps: seq<Step>, u: State)
    requires Inv(s) && Reaches(s, steps, u)
    ensures |steps| + Measure(u) <= Measure(s) + 3 * SpuriousIn(steps)
    decreases |steps|
  {
    if steps != [] {
      StepDecreases(s, steps[0]);
      StepKeepsInv(s, steps[0]);
      hide Inv, Measure, Next, Enabled;
      StartUpEnds(Next(s, steps[0]), steps[1..], u);
    }
  }

  /**
   * A run of start-up takes a bounded number of steps, and where it can go no further
   * startLoop has returned a loop, or the loop had already quit, or there was no thread.
   */
  lemma StartUpCompletes(steps: seq<Step>, u: State)
    requires Reaches(Init(), steps, u)
    ensures |steps| <= 160 + 3 * SpuriousIn(steps)
    ensures !Enabled(u, ChildStep) && (forall created :: !Enabled(u, MainStep(created))) ==>
              u.main == Returned(true) || u.ended || u.child == Absent
  {
    StartUpEnds(Init(), steps, u);
    StuckExactly(steps, u);
    InvAlways(Init(), steps, u);
  }

  // ---------------------------------------------------------------- the two ways to get stuck

  lemma {:induction false} ReachesThen(s: State, steps: seq<Step>, m: State, step: Step)
    requires Reaches(s, steps, m) && Enabled(m, step)
    ensures Reaches(s, steps + [step], Next(m, step))
    decreases |steps|
  {
    hide Next, Enabled;
    if steps == [] {
      assert steps + [step] == [step];
      assert [step][1..] == [];
      assert Reaches(Next(m, step), [], Next(m, step));
    } else {
      ReachesThen(Next(s, steps[0]), steps[1..], m, step);
      assert (steps + [step])[1..] == steps[1..] + [step];
    }
  }

  /** A thread that cannot be created leaves startLoop asleep for ever. */
  lemma FailedCreationHangs() returns (steps: seq<Step>, u: State)
    ensures Reaches(Init(), steps, u) && Stuck(u) && u.child == Absent
  {
    var s := Init();
    var step := MainStep(false);
    assert Reaches(s, [], s);
    ReachesThen(s, [], s, step);
    var s1 := MainNext(s, false);
    ReachesThen(s, [] + [step], s1, step);
    var s2 := MainNext(s1, false);
    ReachesThen(s, [] + [step] + [step], s2, step);
    u := MainNext(s2, false);
    steps := [] + [step] + [step] + [step];
  }

  /** The caller is past the latch and about to wait for the loop; the thread has not made it yet. */
  function PastLatch(): State {
    State(LoopLock, SetUp, true, 0, Nobody, false, Nobody, false)
  }

  lemma ChildRun(steps: seq<Step>, s: State, k: nat) returns (more: seq<Step>, u: State)
    requires Reaches(Init(), steps, s)
    requires forall i :: 0 <= i < k ==> Enabled(ChildAfter(s, i), ChildStep)
    ensures u == ChildAfter(s, k) && Reaches(Init(), more, u)
  {
    more, u := steps, s;
    var i := 0;
    while i < k
      invariant 0 <= i <= k && u == ChildAfter(s, i) && Reaches(Init(), more, u)
    {
      ReachesThen(Init(), more, u, ChildStep);
      more, u, i := more + [ChildStep], ChildNext(u), i + 1;
    }
  }

  function ChildAfter(s: State, k: nat): State {
    if k == 0 then s else ChildNext(ChildAfter(s, k - 1))
  }

  lemma RunToPastLatch() returns (steps: seq<Step>)
    ensures Reaches(Init(), steps, PastLatch())
  {
    var s := Init();
    var step := MainStep(true);
    assert Reaches(s, [], s);
    ReachesThen(s, [], s, step);
    var m := MainNext(s, true);
    assert ChildAfter(m, 0) == m;
    assert ChildAfter(m, 1) == m.(child := CountLock, tidWritten := true);
    assert ChildAfter(m, 2) == m.(child := CountDown, tidWritten := true, latchOwner := Child);
    assert ChildAfter(m, 3) == m.(child := CountNotify, tidWritten := true, latchOwner := Child, count := 0);
    assert ChildAfter(m, 4) == m.(child := CountUnlock, tidWritten := true, latchOwner := Child, count := 0);
    assert ChildAfter(m, 5) == PastLatch().(main := LatchLock);
    steps, m := ChildRun([] + [step], m, 5);
    hide Reaches, Init;
    ReachesThen(Init(), steps, m, step);
    var m1 := MainNext(m, true);
    ReachesThen(Init(), steps + [step], m1, step);
    var m2 := MainNext(m1, true);
    ReachesThen(Init(), steps + [step] + [step], m2, step);
    var m3 := MainNext(m2, true);
    ReachesThen(Init(), steps + [step] + [step] + [step], m3, step);
    steps := steps + [step] + [step] + [step] + [step];
  }

  /** The five steps in which the thread publishes its loop. */
  lemma PublishesLoop()
    ensures forall i :: 0 <= i < 5 ==> Enabled(ChildAfter(PastLatch(), i), ChildStep)
    ensures ChildAfter(PastLatch(), 5) == PastLatch().(child := Looping, loop := true)
  {
    var m := PastLatch();
    assert ChildAfter(m, 0) == m;
    assert ChildAfter(m, 1) == m.(child := SetLock);
    assert ChildAfter(m, 2) == m.(child := SetLoop, loopOwner := Child);
    assert ChildAfter(m, 3) == m.(child := SetNotify, loopOwner := Child, loop := true);
    assert ChildAfter(m, 4) == m.(child := SetUnlock, loopOwner := Child, loop := true);
    hide Reaches;
  }

  lemma RunToLooping() returns (steps: seq<Step>)
    ensures Reaches(Init(), steps, PastLatch().(child := Looping, loop := true))
  {
    hide Reaches, Init, ChildAfter, PastLatch, Enabled;
    steps := RunToPastLatch();
    PublishesLoop();
    var m;
    steps, m := ChildRun(steps, PastLatch(), 5);
  }

  /** A loop that quits before startLoop has looked leaves it asleep for ever, too. */
  lemma EarlyQuitHangs() returns (steps: seq<Step>, u: State)
    ensures Reaches(Init(), steps, u) && Stuck(u) && u.child == Exited
  {
    steps := RunToLooping();
    hide Reaches, Init;
    var m := PastLatch().(child := Looping, loop := true);
    ReachesThen(Init(), steps, m, LoopEnds);
    var m1 := m.(child := ClearLoop, ended := true);
    ReachesThen(Init(), steps + [LoopEnds], m1, ChildStep);
    var m2 := m1.(child := Exited, loop := false);
    ReachesThen(Init(), steps + [LoopEnds] + [ChildStep], m2, MainStep(true));
    var m3 := m2.(main := LoopTest, loopOwner := Main);
    ReachesThen(Init(), steps + [LoopEnds] + [ChildStep] + [MainStep(true)], m3, MainStep(true));
    u := m3.(main := LoopAsleep, loopOwner := Nobody);
    steps := steps + [LoopEnds] + [ChildStep] + [MainStep(true)] + [MainStep(true)];
  }
}
