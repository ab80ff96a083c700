/**
 * The registration protocol between a Channel, its EpollPoller and the kernel's
 * epoll set, on values.  `Id` stands for the Channel pointer.  A failing `assert`
 * is the outcome `Abort`.
 */
module Pollers {
  datatype Bit = In | Pri | Out | Err | Hup | Et

  const NONE_EVENT: set<Bit> := {}
  const READ_EVENT: set<Bit> := {In, Pri, Hup, Et}
  const WRITE_EVENT: set<Bit> := {Out}

  datatype Status = New | Added | Deleted

  datatype Channel = Channel(fd: int, status: Status, events: set<Bit>, addedToLoop: bool) {
    predicate IsNonEvent() { events == NONE_EVENT }
    predicate IsWriting() { events * WRITE_EVENT != {} }
  }

  function FreshChannel(fd: int): Channel {
    Channel(fd, New, NONE_EVENT, false)
  }

  /** One entry of the epoll set: the interest bits and the data pointer. */
  datatype Entry<Id> = Entry(events: set<Bit>, ch: Id)

  datatype Poller<Id> = Poller(channels: map<int, Id>, kernel: map<int, Entry<Id>>)

  datatype CtlOp = CtlAdd | CtlMod | CtlDel

  /** epoll_ctl succeeds exactly when ADD meets no entry and MOD or DEL meets one. */
  predicate CtlSucceeds<Id>(kernel: map<int, Entry<Id>>, op: CtlOp, fd: int) {
    op.CtlAdd? <==> fd !in kernel
  }

  /** A failing epoll_ctl is only reported; the epoll set is then unchanged. */
  function Ctl<Id>(kernel: map<int, Entry<Id>>, op: CtlOp, fd: int, entry: Entry<Id>): map<int, Entry<Id>> {
    if !CtlSucceeds(kernel, op, fd) then kernel
    else if op.CtlDel? then kernel - {fd}
    else kernel[fd := entry]
  }

  datatype Outcome<Id> = Abort | Done(poller: Poller<Id>, channel: Channel, ctlFailed: bool)

  /** `update(op, channel)` followed by the status the caller sets. */
  function Register<Id>(p: Poller<Id>, op: CtlOp, id: Id, ch: Channel, status: Status): Outcome<Id> {
    Done(p.(kernel := Ctl(p.kernel, op, ch.fd, Entry(ch.events + {Et}, id))),
         ch.(status := status),
         !CtlSucceeds(p.kernel, op, ch.fd))
  }

  function UpdateChannel<Id(==)>(p: Poller<Id>, id: Id, ch: Channel): Outcome<Id> {
    match ch.status
    case New =>
      if ch.fd in p.channels then Abort
      else Register(p.(channels := p.channels[ch.fd := id]), CtlAdd, id, ch, Added)
    case Deleted =>
      if ch.fd !in p.channels || p.channels[ch.fd] != id then Abort
      else Register(p, CtlAdd, id, ch, Added)
    case Added =>
      if ch.fd !in p.channels then Abort
      else
        var q := p.(channels := p.channels[ch.fd := id]);
        if ch.IsNonEvent() then Register(q, CtlDel, id, ch, Deleted)
        else Register(q, CtlMod, id, ch, Added)
  }

  function RemoveChannel<Id(==)>(p: Poller<Id>, id: Id, ch: Channel): Outcome<Id> {
    if !ch.IsNonEvent() || ch.fd !in p.channels || p.channels[ch.fd] != id || ch.status == New then Abort
    else
      var q := p.(channels := p.channels - {ch.fd});
      if ch.status == Added then Register(q, CtlDel, id, ch, New)
      else Done(q, ch.(status := New), false)
  }

  /** The operations of Channel that reach the poller. */
  datatype Op = EnableRead | DisableRead | EnableWrite | DisableWrite | DisableAll | Remove

  /** The interest bits after an operation; `disableWrite` keeps only the write bit. */
  function NewEvents(op: Op, events: set<Bit>): set<Bit> {
    match op
    case EnableRead => events + READ_EVENT
    case DisableRead => events - READ_EVENT
    case EnableWrite => events + WRITE_EVENT
    case DisableWrite => events * WRITE_EVENT
    case DisableAll => NONE_EVENT
    case Remove => events
  }

  function Apply<Id(==)>(p: Poller<Id>, id: Id, ch: Channel, op: Op): Outcome<Id> {
    if op.Remove? then
      if !ch.IsNonEvent() then Abort
      else RemoveChannel(p, id, ch.(addedToLoop := false))
    else UpdateChannel(p, id, ch.(events := NewEvents(op, ch.events), addedToLoop := true))
  }

  /** The channel's own view of an operation, without poller or kernel. */
  function ChannelAfter(ch: Channel, op: Op): Channel {
    var events := NewEvents(op, ch.events);
    if op.Remove? then Channel(ch.fd, New, events, false)
    else if ch.status == Added && events == NONE_EVENT then Channel(ch.fd, Deleted, events, true)
    else Channel(ch.fd, Added, events, true)
  }

  // ---------------------------------------------------------------- agreement

  ghost predicate DistinctFds<Id>(chans: map<Id, Channel>) {
    forall i, j :: i in chans && j in chans && chans[i].fd == chans[j].fd ==> i == j
  }

  /** What one channel's status says about the poller's map and the epoll set. */
  ghost predicate ChannelAgrees<Id>(p: Poller<Id>, id: Id, ch: Channel) {
    && (ch.status == New <==> ch.fd !in p.channels)
    && (ch.status != New ==> p.channels[ch.fd] == id)
    && (ch.status == Added <==> ch.fd in p.kernel)
    && (ch.status == Added ==> p.kernel[ch.fd] == Entry(ch.events + {Et}, id))
    && (ch.status == Deleted ==> ch.IsNonEvent())
    && (ch.addedToLoop <==> ch.status != New)
  }

  /** Nothing is registered but the channels of `chans`. */
  ghost predicate NoStrays<Id>(p: Poller<Id>, chans: map<Id, Channel>) {
    && (forall fd :: fd in p.channels ==> p.channels[fd] in chans && chans[p.channels[fd]].fd == fd)
    && (forall fd :: fd in p.kernel ==> fd in p.channels)
  }

  ghost predicate Agree<Id>(p: Poller<Id>, chans: map<Id, Channel>) {
    && DistinctFds(chans)
    && (forall id :: id in chans ==> ChannelAgrees(p, id, chans[id]))
    && NoStrays(p, chans)
  }

  lemma NothingRegistered<Id>(chans: map<Id, Channel>)
    requires DistinctFds(chans)
    requires forall id :: id in chans ==> chans[id] == FreshChannel(chans[id].fd)
    ensures Agree(Poller(map[], map[]), chans)
  {
  }

  /** The poller's state away from one descriptor is untouched by an operation on it. */
  ghost predicate SameElsewhere<Id>(p: Poller<Id>, q: Poller<Id>, fd: int) {
    && (forall f :: f != fd ==> (f in p.channels <==> f in q.channels) && (f in p.kernel <==> f in q.kernel))
    && (forall f :: f != fd && f in p.channels ==> q.channels[f] == p.channels[f])
    && (forall f :: f != fd && f in p.kernel ==> q.kernel[f] == p.kernel[f])
  }

  /** One operation on an agreeing channel: when it aborts, and what it leaves. */
  lemma ApplyOne<Id>(p: Poller<Id>, id: Id, ch: Channel, op: Op)
    requires ChannelAgrees(p, id, ch)
    ensures Apply(p, id, ch, op).Abort? <==> op.Remove? && (ch.status == New || ch.events != {})
    ensures var r := Apply(p, id, ch, op);
      r.Done? ==>
        && !r.ctlFailed
        && ChannelAgrees(r.poller, id, r.channel)
        && SameElsewhere(p, r.poller, ch.fd)
        && r.channel == ChannelAfter(ch, op)
        && (ch.fd in r.poller.channels ==> r.poller.channels[ch.fd] == id)
        && (ch.fd in r.poller.kernel ==> ch.fd in r.poller.channels)
  {
  }

  lemma OthersStillAgree<Id>(p: Poller<Id>, q: Poller<Id>, fd: int, id: Id, ch: Channel)
    requires SameElsewhere(p, q, fd) && ch.fd != fd
    requires ChannelAgrees(p, id, ch)
    ensures ChannelAgrees(q, id, ch)
  {
  }

  /**
   * From any agreement, an operation on any channel aborts only when it removes a
   * channel that is unregistered or still has interest bits; epoll_ctl never fails,
   * and the poller, the channels and the epoll set agree again.
   */
  lemma ApplyKeepsAgreement<Id>(p: Poller<Id>, chans: map<Id, Channel>, id: Id, op: Op)
    requires Agree(p, chans) && id in chans
    ensures Apply(p, id, chans[id], op).Abort? <==>
            op.Remove? && (chans[id].status == New || chans[id].events != {})
    ensures var r := Apply(p, id, chans[id], op);
      r.Done? ==>
        && !r.ctlFailed
        && r.channel == ChannelAfter(chans[id], op)
        && Agree(r.poller, chans[id := r.channel])
  {
    ApplyOne(p, id, chans[id], op);
    var r := Apply(p, id, chans[id], op);
    if r.Done? {
      hide Apply;
      forall other | other in chans && other != id
        ensures ChannelAgrees(r.poller, other, chans[other])
      {
        OthersStillAgree(p, r.poller, chans[id].fd, other, chans[other]);
      }
    }
  }

  /** A channel may join an agreement when its descriptor is used by no other channel. */
  lemma NewcomerAgrees<Id>(p: Poller<Id>, chans: map<Id, Channel>, id: Id, fd: int)
    requires Agree(p, chans) && id !in chans
    requires forall i :: i in chans ==> chans[i].fd != fd
    ensures Agree(p, chans[id := FreshChannel(fd)])
  {
  }

  // ---------------------------------------------------------------- runs

  datatype Request<Id> = Request(id: Id, op: Op)

  datatype RunResult<Id> = Aborted(at: nat) | Ran(poller: Poller<Id>, chans: map<Id, Channel>, ctlFailures: nat)

  /** A sequence of operations, stopping at the first failing assert. */
  function Run<Id(==)>(p: Poller<Id>, chans: map<Id, Channel>, requests: seq<Request<Id>>): RunResult<Id>
    requires forall i :: 0 <= i < |requests| ==> requests[i].id in chans
    decreases |requests|
  {
    if requests == [] then Ran(p, chans, 0)
    else
      var r := requests[0];
      match Apply(p, r.id, chans[r.id], r.op)
      case Abort => Aborted(0)
      case Done(q, ch, failed) =>
        match Run(q, chans[r.id := ch], requests[1..])
        case Aborted(k) => Aborted(k + 1)
        case Ran(q', chans', n) => Ran(q', chans', n + if failed then 1 else 0)
  }

  /**
   * Every `Remove` of the sequence meets a channel that is registered and has no
   * interest bits left; judged on the channels alone.
   */
  predicate RemovesProperly<Id(==)>(chans: map<Id, Channel>, requests: seq<Request<Id>>)
    requires forall i :: 0 <= i < |requests| ==> requests[i].id in chans
    decreases |requests|
  {
    requests == [] ||
    var r := requests[0];
    && (r.op.Remove? ==> chans[r.id].status != New && chans[r.id].IsNonEvent())
    && RemovesProperly(chans[r.id := ChannelAfter(chans[r.id], r.op)], requests[1..])
  }

  /**
   * Any sequence of operations on any number of channels with distinct descriptors
   * runs without a failing assert exactly when it removes properly; epoll_ctl never
   * fails in it, and poller, channels and epoll set agree at its end.
   */
  lemma {:induction false} RunKeepsAgreement<Id>(p: Poller<Id>, chans: map<Id, Channel>, requests: seq<Request<Id>>)
    requires Agree(p, chans)
    requires forall i :: 0 <= i < |requests| ==> requests[i].id in chans
    ensures Run(p, chans, requests).Ran? <==> RemovesProperly(chans, requests)
    ensures var r := Run(p, chans, requests); r.Ran? ==> r.ctlFailures == 0 && Agree(r.poller, r.chans)
    decreases |requests|
  {
    if requests != [] {
      var r := requests[0];
      ApplyKeepsAgreement(p, chans, r.id, r.op);
      var out := Apply(p, r.id, chans[r.id], r.op);
      hide Agree, Apply;
      if out.Done? {
        RunKeepsAgreement(out.poller, chans[r.id := out.channel], requests[1..]);
      }
    }
  }

  /** A channel that the epoll set holds is the one the poller's lookup asserts expect. */
  lemma EpollReturnsKnownChannels<Id>(p: Poller<Id>, chans: map<Id, Channel>, fd: int)
    requires Agree(p, chans) && fd in p.kernel
    ensures var id := p.kernel[fd].ch;
      && id in chans && chans[id].fd == fd
      && fd in p.channels && p.channels[fd] == id
      && chans[id].status == Added
      && p.kernel[fd].events == chans[id].events + {Et}
  {
    var id := p.channels[fd];
    assert ChannelAgrees(p, id, chans[id]);
  }
}
