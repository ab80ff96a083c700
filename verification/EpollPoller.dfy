/** Channel and EpollPoller as the objects they are; module Pollers specifies them. */
module EpollPollers {
  import P = Pollers

  /** One element of the vector epoll_wait fills. */
  datatype Ready = Ready(events: set<P.Bit>, ch: Channel)

  /** A method's result `ok` and final state are what the specification's outcome says. */
  ghost predicate Reports(out: P.Outcome<Channel>, ok: bool, p: P.Poller<Channel>, ch: P.Channel, complaints: int) {
    && (ok <==> out.Done?)
    && (ok ==> p == out.poller && ch == out.channel && complaints == if out.ctlFailed then 1 else 0)
  }

  class Channel {
    const poller: EpollPoller
    const fd: int
    var status: P.Status
    var events: set<P.Bit>
    var rcvEvents: set<P.Bit>
    var addToLoop: bool

    constructor (poller: EpollPoller, fd: int)
      ensures this.poller == poller && View() == P.FreshChannel(fd) && rcvEvents == {}
    {
      this.poller, this.fd := poller, fd;
      status, events, rcvEvents, addToLoop := P.New, P.NONE_EVENT, {}, false;
    }

    function View(): P.Channel
      reads this
    {
      P.Channel(fd, status, events, addToLoop)
    }

    method Update() returns (ok: bool)
      modifies this, poller
      ensures Reports(P.UpdateChannel(old(poller.View()), this, old(View()).(addedToLoop := true)),
                      ok, poller.View(), View(), poller.complaints - old(poller.complaints))
    {
      addToLoop := true;
      ok := poller.UpdateChannel(this);
    }

    method Remove() returns (ok: bool)
      modifies this, poller
      ensures Reports(P.Apply(old(poller.View()), this, old(View()), P.Remove),
                      ok, poller.View(), View(), poller.complaints - old(poller.complaints))
    {
      if events != P.NONE_EVENT { return false; }
      addToLoop := false;
      ok := poller.RemoveChannel(this);
    }

    method EnableRead() returns (ok: bool)
      modifies this, poller
      ensures Reports(P.Apply(old(poller.View()), this, old(View()), P.EnableRead),
                      ok, poller.View(), View(), poller.complaints - old(poller.complaints))
    {
      events := events + P.READ_EVENT;
      ok := Update();
    }

    method DisableRead() returns (ok: bool)
      modifies this, poller
      ensures Reports(P.Apply(old(poller.View()), this, old(View()), P.DisableRead),
                      ok, poller.View(), View(), poller.complaints - old(poller.complaints))
    {
      events := events - P.READ_EVENT;
      ok := Update();
    }

    method EnableWrite() returns (ok: bool)
      modifies this, poller
      ensures Reports(P.Apply(old(poller.View()), this, old(View()), P.EnableWrite),
                      ok, poller.View(), View(), poller.complaints - old(poller.complaints))
    {
      events := events + P.WRITE_EVENT;
      ok := Update();
    }

    method DisableWrite() returns (ok: bool)
      modifies this, poller
      ensures Reports(P.Apply(old(poller.View()), this, old(View()), P.DisableWrite),
                      ok, poller.View(), View(), poller.complaints - old(poller.complaints))
    {
      events := events * P.WRITE_EVENT;
      ok := Update();
    }

    method DisableAll() returns (ok: bool)
      modifies this, poller
      ensures Reports(P.Apply(old(poller.View()), this, old(View()), P.DisableAll),
                      ok, poller.View(), View(), poller.complaints - old(poller.complaints))
    {
      events := P.NONE_EVENT;
      ok := Update();
    }
  }

  class EpollPoller {
    const vecSize: nat
    var channels: map<int, Channel>
    /** The kernel's epoll set. */
    var kernel: map<int, P.Entry<Channel>>
    /** Error lines printed because epoll_ctl failed. */
    var complaints: int

    constructor (vecSize: nat)
      ensures View() == P.Poller(map[], map[]) && complaints == 0 && this.vecSize == vecSize
    {
      this.vecSize := vecSize;
      channels, kernel, complaints := map[], map[], 0;
    }

    function View(): P.Poller<Channel>
      reads this
    {
      P.Poller(channels, kernel)
    }

    method Update(op: P.CtlOp, channel: Channel)
      modifies this`kernel, this`complaints
      ensures kernel == P.Ctl(old(kernel), op, channel.fd, P.Entry(channel.events + {P.Et}, channel))
      ensures complaints - old(complaints) == if P.CtlSucceeds(old(kernel), op, channel.fd) then 0 else 1
    {
      if (channel.fd in kernel) == (op == P.CtlAdd) {
        complaints := complaints + 1;
      } else if op == P.CtlDel {
        kernel := kernel - {channel.fd};
      } else {
        kernel := kernel[channel.fd := P.Entry(channel.events + {P.Et}, channel)];
      }
    }

    method UpdateChannel(channel: Channel) returns (ok: bool)
      modifies this, channel`status
      ensures Reports(P.UpdateChannel(old(View()), channel, old(channel.View())),
                      ok, View(), channel.View(), complaints - old(complaints))
    {
      var index, fd := channel.status, channel.fd;
      if index == P.New || index == P.Deleted {
        if index == P.New {
          if fd in channels { return false; }
          channels := channels[fd := channel];
        } else {
          if fd !in channels { return false; }
          if channels[fd] != channel { return false; }
        }
        channel.status := P.Added;
        Update(P.CtlAdd, channel);
      } else {
        if fd !in channels { return false; }
        channels := channels[fd := channel];
        if channel.events == P.NONE_EVENT {
          Update(P.CtlDel, channel);
          channel.status := P.Deleted;
        } else {
          Update(P.CtlMod, channel);
        }
      }
      ok := true;
    }

    method RemoveChannel(channel: Channel) returns (ok: bool)
      modifies this, channel`status
      ensures Reports(P.RemoveChannel(old(View()), channel, old(channel.View())),
                      ok, View(), channel.View(), complaints - old(complaints))
    {
      var fd, index := channel.fd, channel.status;
      if channel.events != P.NONE_EVENT { return false; }
      if fd !in channels { return false; }
      if channels[fd] != channel { return false; }
      if index == P.New { return false; }
      channels := channels - {fd};
      if index == P.Added {
        Update(P.CtlDel, channel);
      }
      channel.status := P.New;
      ok := true;
    }

    /** Whether the channel is the one registered for its descriptor; where poller and channels
        agree, that is whether its status is not `New`. */
    method HasChannel(channel: Channel) returns (found: bool)
      ensures found == Known(channel)
      ensures forall chans :: P.Agree(View(), chans) && channel in chans && chans[channel] == channel.View() ==>
                (found <==> channel.status != P.New)
    {
      found := channel.fd in channels && channels[channel.fd] == channel;
    }

    predicate Known(ch: Channel)
      reads this
    {
      ch.fd in channels && channels[ch.fd] == ch
    }

    /**
     * Succeeds exactly when the batch does not fill the vector and every channel the
     * kernel returned is the one registered for its descriptor; the active list is then
     * those channels in the kernel's order, each holding its last reported events.
     */
    method FillActiveChannel(vec: seq<Ready>) returns (ok: bool, active: seq<Channel>)
      modifies (set r | r in vec :: r.ch)`rcvEvents
      ensures ok <==> |vec| < vecSize && forall i :: 0 <= i < |vec| ==> Known(vec[i].ch)
      ensures ok ==> |active| == |vec| && forall i :: 0 <= i < |vec| ==> active[i] == vec[i].ch
      ensures ok ==> forall i :: 0 <= i < |vec| && (forall j :: i < j < |vec| ==> vec[j].ch != vec[i].ch) ==>
                       vec[i].ch.rcvEvents == vec[i].events
    {
      active := [];
      if |vec| >= vecSize { return false, []; }
      for i := 0 to |vec|
        invariant |active| == i
        invariant forall k :: 0 <= k < i ==> active[k] == vec[k].ch && Known(vec[k].ch)
        invariant forall k :: 0 <= k < i && (forall j :: k < j < i ==> vec[j].ch != vec[k].ch) ==>
                    vec[k].ch.rcvEvents == vec[k].events
      {
        var ch := vec[i].ch;
        if ch.fd !in channels { return false, active; }
        if channels[ch.fd] != ch { return false, active; }
        ch.rcvEvents := vec[i].events;
        active := active + [ch];
      }
      ok := true;
    }
  }

  /** What epoll reports under an agreement always passes the lookups of FillActiveChannel. */
  lemma ReportsAreKnown(p: EpollPoller, chans: map<Channel, P.Channel>, fd: int)
    requires P.Agree(p.View(), chans) && fd in p.kernel
    requires forall ch :: ch in chans ==> chans[ch].fd == ch.fd
    ensures p.Known(p.kernel[fd].ch)
  {
    P.EpollReturnsKnownChannels(p.View(), chans, fd);
  }
}
