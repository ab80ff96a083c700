/** TcpConnection as the object it is, on the thread of its loop. */
module TcpConnections {
  import P = Pollers
  import opened Reactors
  import EpollPollers

  /** What the poller and the channel have become, unless an assert failed on the way. */
  ghost predicate Reached(out: P.Outcome<EpollPollers.Channel>, p: P.Poller<EpollPollers.Channel>, ch: P.Channel) {
    out.Done? && p == out.poller && ch == out.channel
  }

  /** connectionDestroyed's channel operations: everything off first if it is still connected. */
  ghost function Unregister(p: P.Poller<EpollPollers.Channel>, id: EpollPollers.Channel, ch: P.Channel, connected: bool)
      : P.Outcome<EpollPollers.Channel> {
    if !connected then P.Apply(p, id, ch, P.Remove)
    else
      match P.Apply(p, id, ch, P.DisableAll)
      case Abort => P.Abort
      case Done(q, c, _) => P.Apply(q, id, c, P.Remove)
  }

  class TcpConnection {
    const channel: EpollPollers.Channel
    var state: ConnState
    var tied: bool
    /** How much output waits. */
    var writeIdx: nat
    /** How often the connection callback and the close callback have been called. */
    var connectionCalls: nat
    var closeCalls: nat

    constructor (channel: EpollPollers.Channel)
      ensures this.channel == channel && state == Connecting && !tied && writeIdx == 0
      ensures connectionCalls == closeCalls == 0
    {
      this.channel := channel;
      state, tied, writeIdx, connectionCalls, closeCalls := Connecting, false, 0, 0, 0;
    }

    /** Succeeds exactly for a connecting connection whose channel can be registered. */
    method ConnectionEstablished() returns (ok: bool)
      modifies this, channel, channel.poller
      ensures var out := P.Apply(old(channel.poller.View()), channel, old(channel.View()), P.EnableRead);
        && (ok <==> old(state) == Connecting && out.Done?)
        && (ok ==> && state == Connected && tied
                   && connectionCalls == old(connectionCalls) + 1 && closeCalls == old(closeCalls)
                   && Reached(out, channel.poller.View(), channel.View()))
    {
      if state != Connecting { return false; }
      state := Connected;
      tied := true;
      ok := channel.EnableRead();
      if ok { connectionCalls := connectionCalls + 1; }
    }

    /** Calls the connection callback only if the connection was still open. */
    method ConnectionDestroyed() returns (ok: bool)
      modifies this, channel, channel.poller
      ensures var connected := old(state) == Connected;
        var out := Unregister(old(channel.poller.View()), channel, old(channel.View()), connected);
        && (ok <==> out.Done?)
        && (ok ==> && state == (if connected then Disconnected else old(state))
                   && connectionCalls == old(connectionCalls) + (if connected then 1 else 0)
                   && closeCalls == old(closeCalls)
                   && Reached(out, channel.poller.View(), channel.View()))
    {
      ok := true;
      if state == Connected {
        state := Disconnected;
        ok := channel.DisableAll();
        if !ok { return; }
        connectionCalls := connectionCalls + 1;
      }
      ok := channel.Remove();
    }

    /** Succeeds exactly before the connection is closed or half closed; then both callbacks are called once. */
    method HandleClose() returns (ok: bool)
      modifies this, channel, channel.poller
      ensures var out := P.Apply(old(channel.poller.View()), channel, old(channel.View()), P.DisableAll);
        && (ok <==> old(state) in {Connected, Connecting} && out.Done?)
        && writeIdx == old(writeIdx)
        && (ok ==> && state == Disconnected && Reached(out, channel.poller.View(), channel.View())
                   && connectionCalls == old(connectionCalls) + 1 && closeCalls == old(closeCalls) + 1)
    {
      if !(state == Connected || state == Connecting) { return false; }
      state := Disconnected;
      ok := channel.DisableAll();
      if ok {
        connectionCalls := connectionCalls + 1;
        closeCalls := closeCalls + 1;
      }
    }

    /** Half-closes an open connection; the socket itself is shut only when no output waits. */
    method Shutdown() returns (shutWr: bool)
      modifies this`state
      ensures state == if old(state) == Connected then Disconnecting else old(state)
      ensures shutWr <==> old(state) == Connected && !channel.View().IsWriting()
    {
      shutWr := false;
      if state == Connected {
        state := Disconnecting;
        shutWr := channel.events * P.WRITE_EVENT == {};
      }
    }

    /**
     * handleWrite over what write() returns, in order: a negative number stands for an
     * error, `again` for EAGAIN; `used` results are looked at.  With output waiting, a write
     * is never empty: the loop ends as soon as at least half of the output has been sent,
     * and only then touches the channel, or at an error.  With none, every write is empty
     * and closes the connection, so that a second one fails the assert.
     */
    method HandleWrite(results: seq<int>, again: seq<bool>) returns (ok: bool, done: bool, used: nat, shutWr: bool)
      requires |again| == |results|
      requires writeIdx == 0 ==> forall i :: 0 <= i < |results| ==> results[i] <= 0 && !again[i]
      requires writeIdx > 0 ==> forall i :: 0 <= i < |results| ==> results[i] != 0
      modifies this, channel, channel.poller
      ensures used <= |results|
      ensures !old(channel.View()).IsWriting() ==>
        ok && done && used == 0 && state == old(state) && closeCalls == old(closeCalls) && writeIdx == old(writeIdx)
      ensures old(channel.View()).IsWriting() && old(writeIdx) > 0 ==>
        var out := P.Apply(old(channel.poller.View()), channel, old(channel.View()), P.DisableWrite);
        var sent := 2 * SentBy(results[..used]) >= old(writeIdx);
        && state == old(state) && closeCalls == old(closeCalls)
        && (sent ==> done && (ok <==> out.Done?))
        && (sent && ok ==> writeIdx == 0 && Reached(out, channel.poller.View(), channel.View()))
        && (!sent ==> ok && writeIdx == old(writeIdx) && channel.View() == old(channel.View())
                      && channel.poller.View() == old(channel.poller.View()))
        && (forall k :: 0 <= k < used ==> 2 * SentBy(results[..k]) < old(writeIdx))
        && (!done ==> used == |results|)
      ensures old(channel.View()).IsWriting() && old(writeIdx) == 0 ==>
        && (ok ==> closeCalls <= old(closeCalls) + 1)
        && (results != [] && results[0] == 0 && ok ==> state == Disconnected)
        && (|results| >= 2 && results[0] == results[1] == 0 ==> !ok)
      ensures !shutWr
    {
      used, shutWr := 0, false;
      if channel.events * P.WRITE_EVENT == {} { return true, true, 0, false; }
      var toSend, sent: int := writeIdx, 0;
      while used < |results|
        invariant used <= |results|
        invariant writeIdx == old(writeIdx) && toSend == writeIdx - sent && sent == SentBy(results[..used])
        invariant writeIdx > 0 ==> channel.View() == old(channel.View())
        invariant writeIdx > 0 ==> channel.poller.View() == old(channel.poller.View())
        invariant writeIdx > 0 ==> state == old(state) && closeCalls == old(closeCalls)
        invariant writeIdx > 0 ==> forall k :: 0 <= k <= used ==> 2 * SentBy(results[..k]) < writeIdx
        invariant writeIdx == 0 ==> closeCalls == old(closeCalls) + used && used <= 1
        invariant writeIdx == 0 && used > 0 ==> state == Disconnected
      {
        var n := results[used];
        used := used + 1;
        SentByOneMore(results, used);
        if n < 0 {
          if !again[used - 1] { return true, true, used, false; }
        } else if n > 0 {
          toSend, sent := toSend - n, sent + n;
          if toSend <= sent {
            WriteBitStays(channel.View());
            ok := channel.DisableWrite();
            if ok {
              shutWr := state == Disconnecting && channel.events * P.WRITE_EVENT == {};
              writeIdx := 0;
            }
            return ok, true, used, shutWr;
          }
        } else {
          ok := HandleClose();
          if !ok { return false, false, used, false; }
        }
      }
      return true, false, used, false;
    }
  }

  /** disableWrite leaves the write bit on, so the shutdown that waits for it never comes. */
  lemma WriteBitStays(ch: P.Channel)
    requires ch.IsWriting()
    ensures P.ChannelAfter(ch, P.DisableWrite).IsWriting()
    ensures forall p, id: EpollPollers.Channel :: P.Apply(p, id, ch, P.DisableWrite).Done? ==>
              P.Apply(p, id, ch, P.DisableWrite).channel.IsWriting()
  {
    assert (ch.events * P.WRITE_EVENT) * P.WRITE_EVENT == ch.events * P.WRITE_EVENT;
  }

  /** The bytes that the successful writes among the results have sent. */
  function SentBy(results: seq<int>): nat {
    if results == [] then 0
    else SentBy(results[..|results| - 1]) + if results[|results| - 1] > 0 then results[|results| - 1] else 0
  }

  lemma SentByOneMore(results: seq<int>, k: nat)
    requires 0 < k <= |results|
    ensures SentBy(results[..k]) == SentBy(results[..k - 1]) + if results[k - 1] > 0 then results[k - 1] else 0
  {
    assert results[..k][..k - 1] == results[..k - 1];
  }
}
