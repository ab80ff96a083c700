/** What every reachable state of the reactor satisfies. */
module ReactorInvariants {
  import P = Pollers
  import Decimal
  import opened Reactors

  // ---------------------------------------------------------------- phases

  datatype Phase = EstablishQueued | Live | RemovalQueued | DestroyQueued | Gone

  function Rank(p: Phase): nat {
    match p
    case EstablishQueued => 0
    case Live => 1
    case RemovalQueued => 2
    case DestroyQueued => 3
    case Gone => 4
  }

  function PhaseOf(conn: Conn, registered: bool): Phase {
    match conn.state
    case Connecting => EstablishQueued
    case Connected => Live
    case Disconnecting => Live
    case Disconnected =>
      if registered then RemovalQueued
      else if conn.channel.status != P.New then DestroyQueued else Gone
  }

  function PhaseAt(s: Sys, c: nat): Phase
    requires c < |s.conns|
  {
    PhaseOf(s.conns[c], s.conns[c].name in s.registry)
  }

  /** Channel status, map membership and counters in each phase; a live connection with output
      waiting is registered for writing. */
  predicate LifeOk(conn: Conn, registered: bool) {
    match PhaseOf(conn, registered)
    case EstablishQueued =>
      && registered && conn.channel.status == P.New && (conn.established, conn.erased, conn.destroyed) == (0, 0, 0)
      && conn.writeIdx == 0
    case Live =>
      && registered && conn.channel.status == P.Added && (conn.established, conn.erased, conn.destroyed) == (1, 0, 0)
      && (conn.writeIdx > 0 ==> P.Out in conn.channel.events)
    case RemovalQueued =>
      conn.channel.status == P.Deleted && (conn.established, conn.erased, conn.destroyed) == (1, 0, 0)
    case DestroyQueued =>
      conn.channel.status == P.Deleted && (conn.established, conn.erased, conn.destroyed) == (1, 1, 0)
    case Gone =>
      conn.channel.status == P.New && (conn.established, conn.erased, conn.destroyed) == (1, 1, 1)
  }

  ghost predicate Lifecycle(s: Sys) {
    forall c :: 0 <= c < |s.conns| ==> LifeOk(s.conns[c], s.conns[c].name in s.registry)
  }

  // ---------------------------------------------------------------- identities

  ghost predicate Shape(s: Sys) {
    && |s.loops| >= 1
    && (|s.loops| > 1 ==> s.next == |s.conns| % (|s.loops| - 1))
    && s.nextConnId == |s.conns| + 1
    && (forall t :: t in s.owes ==> s.owes[t] < |s.loops|)
    && (forall t :: t in s.owes && t < |s.loops| ==> !s.loops[t].pc.Polling?)
  }

  /** The loop of the c-th connection: the I/O loops take turns, and the base loop serves alone. */
  function LoopFor(loops: nat, c: nat): (l: nat)
    ensures loops >= 1 ==> l < loops
  {
    if loops <= 1 then 0 else 1 + c % (loops - 1)
  }

  predicate IdentityOk(base: string, loops: nat, conns: seq<Conn>, c: nat)
    requires c < |conns|
  {
    && conns[c].name == ConnName(base, c + 1)
    && conns[c].loop == LoopFor(loops, c)
  }

  ghost predicate DistinctFds(conns: seq<Conn>) {
    forall c, d :: 0 <= c < |conns| && 0 <= d < |conns| && conns[c].channel.fd == conns[d].channel.fd ==> c == d
  }

  ghost predicate RegistryOk(conns: seq<Conn>, registry: map<string, nat>) {
    forall name :: name in registry ==> registry[name] < |conns| && conns[registry[name]].name == name
  }

  ghost predicate Identities(s: Sys) {
    && (forall c :: 0 <= c < |s.conns| ==> IdentityOk(s.base, |s.loops|, s.conns, c))
    && DistinctFds(s.conns)
    && RegistryOk(s.conns, s.registry)
  }

  lemma NamesAreUnique(base: string, i: nat, j: nat)
    requires ConnName(base, i) == ConnName(base, j)
    ensures i == j
  {
    var prefix := base + "-9000*";
    assert Decimal.Render(i) == ConnName(base, i)[|prefix|..];
    assert Decimal.Render(j) == ConnName(base, j)[|prefix|..];
    Decimal.RenderIsInjective(i, j);
  }

  lemma ConnNamesDiffer(s: Sys, c: nat, d: nat)
    requires Identities(s) && c < |s.conns| && d < |s.conns| && c != d
    ensures s.conns[c].name != s.conns[d].name
  {
    assert IdentityOk(s.base, |s.loops|, s.conns, c) && IdentityOk(s.base, |s.loops|, s.conns, d);
    hide ConnName;
    if s.conns[c].name == s.conns[d].name {
      NamesAreUnique(s.base, c + 1, d + 1);
    }
  }

  // ---------------------------------------------------------------- pollers

  /** The connection channels of one loop, by connection. */
  ghost function ChansOf(conns: seq<Conn>, l: nat): map<nat, P.Channel> {
    map c: nat | c < |conns| && conns[c].loop == l :: conns[c].channel
  }

  ghost predicate PollersAgree(s: Sys) {
    forall l :: 0 <= l < |s.loops| ==> P.Agree(s.loops[l].poller, ChansOf(s.conns, l))
  }

  // ---------------------------------------------------------------- functors in the queues

  /** A functor that has left its queue, or was just made, and is not consumed yet. */
  datatype Hand = Nothing | Holding(l: nat, f: Functor)

  function InHand(hand: Hand, l: nat, f: Functor): nat {
    if hand == Holding(l, f) then 1 else 0
  }

  function Count(at: Loop, f: Functor): nat {
    multiset(at.batch)[f] + multiset(at.pending)[f]
  }

  /** How often a connection's functor is due on a loop. */
  function Expected(s: Sys, l: nat, f: Functor): nat {
    match f
    case Established(c) => if c < |s.conns| && s.conns[c].loop == l && PhaseAt(s, c) == EstablishQueued then 1 else 0
    case RemoveInLoop(c) => if c < |s.conns| && l == 0 && PhaseAt(s, c) == RemovalQueued then 1 else 0
    case Destroyed(c) => if c < |s.conns| && s.conns[c].loop == l && PhaseAt(s, c) == DestroyQueued then 1 else 0
    case Task(_) => 0
  }

  ghost predicate Tokens(s: Sys, hand: Hand) {
    forall l: nat, f: Functor :: l < |s.loops| && !f.Task? ==>
      Count(s.loops[l], f) + InHand(hand, l, f) == Expected(s, l, f)
  }

  // ---------------------------------------------------------------- active lists

  predicate LiveOn(s: Sys, l: nat, c: nat) {
    c < |s.conns| && s.conns[c].loop == l && PhaseAt(s, c) == Live
  }

  predicate ItemOk(s: Sys, l: nat, item: Item) {
    (item.Accept? ==> l == 0) && (item.Ready? ==> LiveOn(s, l, item.c))
  }

  predicate SameConn(a: Item, b: Item) {
    a.Ready? && b.Ready? && a.c == b.c
  }

  /** The handler relies on the connection being live: at its start, and while it writes output. */
  predicate NeedsLive(s: Sys, c: nat, stage: Stage) {
    stage == AtClose || (stage.Writing? && c < |s.conns| && s.conns[c].writeIdx > 0)
  }

  predicate HandlingOk(s: Sys, l: nat, pc: Pc)
    requires pc.Handling?
  {
    && pc.c < |s.conns| && s.conns[pc.c].loop == l
    && PhaseAt(s, pc.c) in {Live, RemovalQueued, DestroyQueued}
    && (NeedsLive(s, pc.c, pc.stage) ==> PhaseAt(s, pc.c) == Live)
  }

  ghost predicate LoopActive(s: Sys, l: nat)
    requires l < |s.loops|
  {
    var at := s.loops[l];
    && (at.pc.Polling? || at.pc.Running? ==> at.active == [])
    && (!at.pc.Running? ==> at.batch == [] && at.ran == [])
    && (forall i :: 0 <= i < |at.active| ==> ItemOk(s, l, at.active[i]))
    && (forall i, j :: 0 <= i < j < |at.active| ==> !SameConn(at.active[i], at.active[j]))
    && (at.pc.Handling? ==>
          && HandlingOk(s, l, at.pc)
          && forall i :: 0 <= i < |at.active| ==> !(at.active[i].Ready? && at.active[i].c == at.pc.c))
  }

  ghost predicate Actives(s: Sys) {
    forall l :: 0 <= l < |s.loops| ==> LoopActive(s, l)
  }

  // ---------------------------------------------------------------- wakeups and logs

  ghost predicate Owed(s: Sys, l: nat) {
    exists t :: t in s.owes && s.owes[t] == l
  }

  /** A loop that is going to poll with functors pending is signalled or about to be. */
  ghost predicate NoLostWakeup(s: Sys) {
    forall l :: 0 <= l < |s.loops| && (s.loops[l].pc.Polling? || s.loops[l].pc.Running?) && s.loops[l].pending != [] ==>
                  s.loops[l].signal || Owed(s, l)
  }

  ghost predicate QueueOrder(s: Sys) {
    forall l :: 0 <= l < |s.loops| ==> s.loops[l].log == s.loops[l].executed + s.loops[l].batch + s.loops[l].pending
  }

  ghost predicate Inv(s: Sys, hand: Hand) {
    && Shape(s)
    && Identities(s)
    && Lifecycle(s)
    && PollersAgree(s)
    && Tokens(s, hand)
    && Actives(s)
    && NoLostWakeup(s)
    && QueueOrder(s)
  }

  lemma InitInv(base: string, n: nat)
    ensures Inv(Init(base, n), Nothing)
  {
    var s := Init(base, n);
    forall l | 0 <= l < |s.loops|
      ensures P.Agree(s.loops[l].poller, ChansOf(s.conns, l))
    {
      assert ChansOf(s.conns, l) == map[];
      P.NothingRegistered<nat>(map[]);
    }
  }

  // ---------------------------------------------------------------- a connection moves on

  /** Nothing in the loops changed but pollers. */
  ghost predicate SameQueues(s: Sys, u: Sys) {
    && |u.loops| == |s.loops|
    && (forall l :: 0 <= l < |s.loops| ==> u.loops[l] == s.loops[l].(poller := u.loops[l].poller))
    && u.base == s.base && u.nextConnId == s.nextConnId && u.next == s.next && u.owes == s.owes
  }

  predicate SameIdentity(a: Conn, b: Conn) {
    a.name == b.name && a.loop == b.loop && a.channel.fd == b.channel.fd
  }

  /** From `s` to `u` only connection `c`, its map entry and pollers changed. */
  ghost predicate Moved(s: Sys, u: Sys, c: nat) {
    && c < |s.conns| == |u.conns|
    && SameQueues(s, u)
    && SameIdentity(s.conns[c], u.conns[c])
    && u.conns == s.conns[c := u.conns[c]]
    && (u.registry == s.registry || u.registry == s.registry - {s.conns[c].name})
  }

  lemma MovedIdentities(s: Sys, u: Sys, c: nat)
    requires Identities(s) && Moved(s, u, c)
    ensures Identities(u)
  {
    forall d | 0 <= d < |u.conns|
      ensures SameIdentity(s.conns[d], u.conns[d])
    {
    }
    hide ConnName;
    forall d | 0 <= d < |u.conns|
      ensures IdentityOk(u.base, |u.loops|, u.conns, d)
    {
      assert IdentityOk(s.base, |s.loops|, s.conns, d);
    }
  }

  lemma OthersKeepPhase(s: Sys, u: Sys, c: nat, d: nat)
    requires Identities(s) && Moved(s, u, c) && d < |s.conns| && d != c
    ensures u.conns[d] == s.conns[d]
    ensures s.conns[d].name in u.registry <==> s.conns[d].name in s.registry
    ensures PhaseAt(u, d) == PhaseAt(s, d)
  {
    ConnNamesDiffer(s, c, d);
  }

  lemma MovedLifecycle(s: Sys, u: Sys, c: nat)
    requires Identities(s) && Lifecycle(s) && Moved(s, u, c)
    requires LifeOk(u.conns[c], u.conns[c].name in u.registry)
    ensures Lifecycle(u)
  {
    forall d | 0 <= d < |u.conns|
      ensures LifeOk(u.conns[d], u.conns[d].name in u.registry)
    {
      if d != c { OthersKeepPhase(s, u, c, d); }
    }
  }

  function FunctorConn(f: Functor): nat
    requires !f.Task?
  {
    f.c
  }

  /** The functor in hand and those due for `c` change together. */
  ghost predicate Balanced(s: Sys, u: Sys, c: nat, hand: Hand, hand': Hand) {
    && (forall l: nat, f: Functor :: l < |s.loops| && !f.Task? && FunctorConn(f) == c ==>
          Expected(u, l, f) + InHand(hand, l, f) == Expected(s, l, f) + InHand(hand', l, f))
    && (hand.Holding? && !hand.f.Task? ==> FunctorConn(hand.f) == c)
    && (hand'.Holding? && !hand'.f.Task? ==> FunctorConn(hand'.f) == c)
  }

  lemma MovedTokens(s: Sys, u: Sys, c: nat, hand: Hand, hand': Hand)
    requires Identities(s) && Moved(s, u, c) && Tokens(s, hand) && Balanced(s, u, c, hand, hand')
    ensures Tokens(u, hand')
  {
    forall l: nat, f: Functor | l < |u.loops| && !f.Task?
      ensures Count(u.loops[l], f) + InHand(hand', l, f) == Expected(u, l, f)
    {
      assert Count(u.loops[l], f) == Count(s.loops[l], f);
      if FunctorConn(f) != c && f.c < |s.conns| {
        OthersKeepPhase(s, u, c, f.c);
      }
    }
  }

  /** No loop has `c` in its active list, and no handler relies on its being live. */
  ghost predicate NotAwaited(s: Sys, c: nat) {
    forall l :: 0 <= l < |s.loops| ==>
      && (forall i :: 0 <= i < |s.loops[l].active| ==> !(s.loops[l].active[i].Ready? && s.loops[l].active[i].c == c))
      && !(s.loops[l].pc.Handling? && s.loops[l].pc.c == c && NeedsLive(s, c, s.loops[l].pc.stage))
  }

  ghost predicate NotHandled(s: Sys, c: nat) {
    forall l :: 0 <= l < |s.loops| ==> !(s.loops[l].pc.Handling? && s.loops[l].pc.c == c)
  }

  lemma MovedActives(s: Sys, u: Sys, c: nat)
    requires Identities(s) && Moved(s, u, c) && Actives(s)
    requires Rank(PhaseAt(s, c)) <= Rank(PhaseAt(u, c))
    requires PhaseAt(u, c) == Live || u.conns[c].writeIdx == s.conns[c].writeIdx
    requires PhaseAt(u, c) == Live || PhaseAt(s, c) != Live || NotAwaited(s, c)
    requires PhaseAt(u, c) == Gone ==> NotHandled(s, c) && NotAwaited(s, c)
    ensures Actives(u)
  {
    forall l | 0 <= l < |u.loops|
      ensures LoopActive(u, l)
    {
      assert LoopActive(s, l);
      MovedLoopActive(s, u, c, l);
    }
  }

  lemma MovedLoopActive(s: Sys, u: Sys, c: nat, l: nat)
    requires Identities(s) && Moved(s, u, c) && l < |s.loops| && LoopActive(s, l)
    requires Rank(PhaseAt(s, c)) <= Rank(PhaseAt(u, c))
    requires PhaseAt(u, c) == Live || u.conns[c].writeIdx == s.conns[c].writeIdx
    requires PhaseAt(u, c) == Live || PhaseAt(s, c) != Live || NotAwaited(s, c)
    requires PhaseAt(u, c) == Gone ==> NotHandled(s, c) && NotAwaited(s, c)
    ensures LoopActive(u, l)
  {
    var at := s.loops[l];
    hide Identities, PhaseOf;
    forall i | 0 <= i < |at.active|
      ensures ItemOk(u, l, at.active[i])
    {
      assert ItemOk(s, l, at.active[i]);
      if at.active[i].Ready? && at.active[i].c != c {
        OthersKeepPhase(s, u, c, at.active[i].c);
      }
    }
    if at.pc.Handling? && at.pc.c != c {
      OthersKeepPhase(s, u, c, at.pc.c);
    }
  }

  /** What a move of one connection has to bring to keep the whole invariant. */
  lemma MovedInv(s: Sys, u: Sys, c: nat, hand: Hand, hand': Hand)
    requires Inv(s, hand) && Moved(s, u, c)
    requires LifeOk(u.conns[c], u.conns[c].name in u.registry)
    requires PollersAgree(u)
    requires Balanced(s, u, c, hand, hand')
    requires Rank(PhaseAt(s, c)) <= Rank(PhaseAt(u, c))
    requires PhaseAt(u, c) == Live || u.conns[c].writeIdx == s.conns[c].writeIdx
    requires PhaseAt(u, c) == Live || PhaseAt(s, c) != Live || NotAwaited(s, c)
    requires PhaseAt(u, c) == Gone ==> NotHandled(s, c) && NotAwaited(s, c)
    ensures Inv(u, hand')
  {
    hide Identities, Lifecycle, PollersAgree, Tokens, Actives, LifeOk, PhaseAt, Balanced, NotAwaited, NotHandled;
    MovedIdentities(s, u, c);
    MovedLifecycle(s, u, c);
    MovedTokens(s, u, c, hand, hand');
    MovedActives(s, u, c);
  }
}
