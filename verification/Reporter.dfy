/**
 The gRPC reporter without the network: the queue of collected items, the three bounded channels they
 are fanned out to, and the streams that read a channel in windows.
 */
module Reporter {
  import opened Wrappers

  datatype Kind = Trace | Log | Meter

  /** Data items go through a channel; instance properties and pings are sent at once. */
  datatype CollectItem = Data(kind: Kind, payload: int) | Instance(payload: int) | Ping(payload: int)

  const CAPACITY: nat := 255

  datatype Chan = Chan(queue: seq<CollectItem>, receiverAlive: bool)

  /** One value for each kind of data item. */
  datatype PerKind<V> = PerKind(trace: V, log: V, meter: V) {
    function Get(k: Kind): V {
      match k case Trace => trace case Log => log case Meter => meter
    }

    function Set(k: Kind, v: V): PerKind<V> {
      match k
      case Trace => this.(trace := v)
      case Log => this.(log := v)
      case Meter => this.(meter := v)
    }
  }

  /** The channels, the items handed to the error handler, and those handed to the management client. */
  datatype Routed = Routed(chans: PerKind<Chan>, errs: seq<CollectItem>, managed: seq<CollectItem>)

  /** try_send succeeds unless the channel is full or its receiver is gone. */
  predicate Accepts(c: Chan) {
    c.receiverAlive && |c.queue| < CAPACITY
  }

  function Route(r: Routed, x: CollectItem): Routed
  {
    if !x.Data? then r.(managed := r.managed + [x])
    else
      var c := r.chans.Get(x.kind);
      if Accepts(c) then r.(chans := r.chans.Set(x.kind, c.(queue := c.queue + [x])))
      else r.(errs := r.errs + [x])
  }

  /** What item x adds to the channel c for kind k: itself, if it is of that kind and there is room for it. */
  function GoesTo(x: CollectItem, k: Kind, c: Chan): seq<CollectItem> {
    if x.Data? && x.kind == k && c.receiverAlive && |c.queue| < 255 then [x] else []
  }

  function RouteAll(r: Routed, xs: seq<CollectItem>): Routed
    decreases |xs|
  {
    if xs == [] then r else RouteAll(Route(r, xs[0]), xs[1..])
  }

  lemma {:induction false} RouteAllSnoc(r: Routed, xs: seq<CollectItem>, x: CollectItem)
    ensures RouteAll(r, xs + [x]) == Route(RouteAll(r, xs), x)
    decreases |xs|
  {
    if xs != [] {
      assert (xs + [x])[0] == xs[0] && (xs + [x])[1..] == xs[1..] + [x];
      RouteAllSnoc(Route(r, xs[0]), xs[1..], x);
    }
  }

  datatype SendResult = Sent | Full | Closed

  class Channel {
    var queue: seq<CollectItem>
    var receiverAlive: bool
    var senderAlive: bool

    constructor ()
      ensures View() == Chan([], true) && senderAlive
    {
      queue, receiverAlive, senderAlive := [], true, true;
    }

    function View(): Chan
      reads this
    {
      Chan(queue, receiverAlive)
    }

    method TrySend(x: CollectItem) returns (r: SendResult)
      modifies this`queue
      ensures r.Sent? <==> Accepts(old(View()))
      ensures r.Closed? <==> !receiverAlive
      ensures queue == if r.Sent? then old(queue) + [x] else old(queue)
    {
      if !receiverAlive {
        return Closed;
      }
      if |queue| >= CAPACITY {
        return Full;
      }
      queue := queue + [x];
      return Sent;
    }
  }

  class InnerReportSender {
    const trace: Channel
    const log: Channel
    const meter: Channel
    var errs: seq<CollectItem>
    var managed: seq<CollectItem>

    constructor ()
      ensures Valid() && fresh(trace) && fresh(log) && fresh(meter)
      ensures View() == Routed(PerKind(Chan([], true), Chan([], true), Chan([], true)), [], [])
    {
      trace := new Channel();
      log := new Channel();
      meter := new Channel();
      errs, managed := [], [];
    }

    ghost predicate Valid() {
      trace != log && log != meter && meter != trace
    }

    function View(): Routed
      reads this, trace, log, meter
    {
      Routed(PerKind(trace.View(), log.View(), meter.View()), errs, managed)
    }

    method Report(x: CollectItem)
      requires Valid()
      modifies this, trace`queue, log`queue, meter`queue
      ensures View() == Route(old(View()), x)
      ensures trace.queue == old(trace.queue) + GoesTo(x, Trace, old(trace.View()))
      ensures log.queue == old(log.queue) + GoesTo(x, Log, old(log.View()))
      ensures meter.queue == old(meter.queue) + GoesTo(x, Meter, old(meter.View()))
      ensures managed == old(managed) + (if x.Data? then [] else [x])
      ensures errs == old(errs) + (if x.Data? && trace.queue == old(trace.queue) && log.queue == old(log.queue)
                                      && meter.queue == old(meter.queue) then [x] else [])
    {
      match x {
        case Data(Trace, _) =>
          var r := trace.TrySend(x);
          if !r.Sent? { errs := errs + [x]; }
        case Data(Log, _) =>
          var r := log.TrySend(x);
          if !r.Sent? { errs := errs + [x]; }
        case Data(Meter, _) =>
          var r := meter.TrySend(x);
          if !r.Sent? { errs := errs + [x]; }
        case Instance(_) => managed := managed + [x];
        case Ping(_) => managed := managed + [x];
      }
    }
  }

  datatype Disconnected = Disconnected

  /** The receiving end of the unbounded queue of collected items. */
  class ItemReceiver {
    var queue: seq<CollectItem>
    var sendersAlive: bool

    /** Pending when consume would wait; an absent item means that no sender is left. */
    method Consume() returns (pending: bool, item: Option<CollectItem>)
      modifies this`queue
      ensures pending <==> old(queue) == [] && sendersAlive
      ensures old(queue) != [] ==> item == Some(old(queue)[0]) && queue == old(queue)[1..]
      ensures old(queue) == [] ==> item.None? && queue == []
    {
      if queue != [] {
        item := Some(queue[0]);
        queue := queue[1..];
        return false, item;
      }
      return sendersAlive, None;
    }

    method TryConsume() returns (r: Result<Option<CollectItem>, Disconnected>)
      modifies this`queue
      ensures old(queue) != [] ==> r == Ok(Some(old(queue)[0])) && queue == old(queue)[1..]
      ensures old(queue) == [] ==> queue == [] && r == if sendersAlive then Ok(None) else Err(Disconnected.Disconnected)
    {
      if queue != [] {
        r := Ok(Some(queue[0]));
        queue := queue[1..];
      } else if sendersAlive {
        r := Ok(None);
      } else {
        r := Err(Disconnected.Disconnected);
      }
    }
  }

  /**
   The flush loop, with the items in arrivals[k] produced right before poll k. It routes, in order, the
   queue and everything produced before its last poll, and fails when no producer is left.
   */
  method Flush(consumer: ItemReceiver, sender: InnerReportSender, arrivals: seq<seq<CollectItem>>)
    returns (ok: bool, polls: nat)
    requires sender.Valid()
    modifies consumer`queue, sender, sender.trace`queue, sender.log`queue, sender.meter`queue
    ensures consumer.queue == []
    ensures sender.View() == RouteAll(old(sender.View()), old(consumer.queue) + Concat(Until(arrivals, polls)))
    ensures ok <==> consumer.sendersAlive
  {
    ghost var done: seq<CollectItem> := [];
    ghost var all := consumer.queue;
    ghost var before := sender.View();
    polls := 0;
    NoArrivals(consumer.queue, arrivals);
    while true
      invariant done + consumer.queue == all == old(consumer.queue) + Concat(Until(arrivals, polls))
      invariant sender.View() == RouteAll(before, done)
      decreases |arrivals| - |Until(arrivals, polls)|, |consumer.queue|
    {
      if polls < |arrivals| {
        UntilNext(old(consumer.queue), arrivals, polls);
        all := all + arrivals[polls];
        consumer.queue := consumer.queue + arrivals[polls];
      }
      polls := polls + 1;
      ghost var held := consumer.queue;
      assert done + held == all;
      var r := consumer.TryConsume();
      match r {
        case Ok(Some(x)) =>
          sender.Report(x);
          RouteAllSnoc(before, done, x);
          MoveHead(done, held);
          done := done + [x];
        case Ok(None) =>
          assert done == all;
          return true, polls;
        case Err(_) =>
          assert done == all;
          return false, polls;
      }
    }
  }

  /** The arrivals before the given number of polls. */
  function Until(arrivals: seq<seq<CollectItem>>, polls: nat): seq<seq<CollectItem>> {
    if polls < |arrivals| then arrivals[..polls] else arrivals
  }

  lemma MoveHead(done: seq<CollectItem>, held: seq<CollectItem>)
    requires held != []
    ensures done + [held[0]] + held[1..] == done + held
  {
  }

  lemma NoArrivals(queue: seq<CollectItem>, arrivals: seq<seq<CollectItem>>)
    ensures queue + Concat(Until(arrivals, 0)) == queue
  {
    assert Until(arrivals, 0) == [];
  }

  lemma UntilNext(queue: seq<CollectItem>, arrivals: seq<seq<CollectItem>>, polls: nat)
    requires polls < |arrivals|
    ensures queue + Concat(Until(arrivals, polls + 1)) == queue + Concat(Until(arrivals, polls)) + arrivals[polls]
  {
    assert Until(arrivals, polls + 1) == Until(arrivals, polls) + [arrivals[polls]];
    ConcatSnoc(arrivals[..polls], arrivals[polls]);
  }

  function Concat(windows: seq<seq<CollectItem>>): seq<CollectItem> {
    if windows == [] then [] else windows[0] + Concat(windows[1..])
  }

  lemma {:induction false} ConcatSnoc(windows: seq<seq<CollectItem>>, w: seq<CollectItem>)
    ensures Concat(windows + [w]) == Concat(windows) + w
    decreases |windows|
  {
    if windows == [] {
      assert windows + [w] == [w] && Concat([w][1..]) == [];
    } else {
      assert (windows + [w])[1..] == windows[1..] + [w];
      ConcatSnoc(windows[1..], w);
    }
  }

  datatype PollResult = Pending | Ready(item: Option<CollectItem>)

  /** What can happen at a channel while a window reads it. */
  datatype Tick = Send(item: CollectItem) | DropSender | PollStream

  /** The shared receiver and the flag that its streams set when the channel is finished. */
  class ReceiveFrom {
    const channel: Channel
    var isClosed: bool

    constructor (channel: Channel)
      ensures this.channel == channel && !isClosed
    {
      this.channel, isClosed := channel, false;
    }

    /** The flag is set only when nothing can come any more. */
    ghost predicate Valid()
      reads this, channel
    {
      isClosed ==> !channel.senderAlive && channel.queue == []
    }

    /** One poll of a stream: the oldest item, or the end when no sender is left, or nothing yet. */
    method Poll() returns (r: PollResult)
      requires Valid()
      modifies channel`queue, this`isClosed
      ensures Valid()
      ensures old(channel.queue) != [] ==>
                r == Ready(Some(old(channel.queue)[0])) && channel.queue == old(channel.queue)[1..] && isClosed == old(isClosed)
      ensures old(channel.queue) == [] && channel.senderAlive ==> r == Pending && channel.queue == [] && isClosed == old(isClosed)
      ensures old(channel.queue) == [] && !channel.senderAlive ==> r == Ready(None) && channel.queue == [] && isClosed
    {
      if channel.queue != [] {
        r := Ready(Some(channel.queue[0]));
        channel.queue := channel.queue[1..];
      } else if channel.senderAlive {
        r := Pending;
      } else {
        r := Ready(None);
        isClosed := true;
      }
    }

    /**
     One window: the stream is polled and the sender acts as ticks say, and it is given up, by timeout or
     by the call, when they run out, or ends with the channel. accepted is what the sender got through.
     */
    method ReadWindow(ticks: seq<Tick>) returns (window: seq<CollectItem>, accepted: seq<CollectItem>)
      requires Valid() && !isClosed
      modifies channel, this`isClosed
      ensures Valid() && window + channel.queue == old(channel.queue) + accepted
    {
      window, accepted := [], [];
      var i := 0;
      while i < |ticks| && !isClosed
        invariant i <= |ticks| && Valid()
        invariant window + channel.queue == old(channel.queue) + accepted
      {
        ghost var held := channel.queue;
        match ticks[i] {
          case Send(x) =>
            if channel.senderAlive {
              var sent := channel.TrySend(x);
              if sent.Sent? {
                assert window + (held + [x]) == (window + held) + [x];
                accepted := accepted + [x];
              }
            }
          case DropSender =>
            channel.senderAlive := false;
          case PollStream =>
            var r := Poll();
            if r.Ready? && r.item.Some? {
              assert held == [held[0]] + held[1..];
              window := window + [r.item.value];
            }
        }
        i := i + 1;
      }
    }

    /**
     The receive loop, one window after another. Whatever the sender does meanwhile, the windows deliver
     what it got through, in order, without loss or repetition, and the loop ends only when the sender is
     gone and the channel empty.
     */
    method Start(script: seq<seq<Tick>>) returns (windows: seq<seq<CollectItem>>, accepted: seq<CollectItem>, ended: bool)
      requires Valid()
      modifies channel, this`isClosed
      ensures Concat(windows) + channel.queue == old(channel.queue) + accepted
      ensures ended ==> !channel.senderAlive && channel.queue == []
      ensures !ended ==> |windows| == |script|
    {
      windows, accepted := [], [];
      while |windows| < |script| && !isClosed
        invariant |windows| <= |script| && Valid()
        invariant Concat(windows) + channel.queue == old(channel.queue) + accepted
        decreases |script| - |windows|
      {
        ghost var earlier := channel.queue;
        var window, more := ReadWindow(script[|windows|]);
        ConcatSnoc(windows, window);
        assert Concat(windows) + window + channel.queue == Concat(windows) + (window + channel.queue);
        assert Concat(windows) + (earlier + more) == Concat(windows) + earlier + more;
        windows, accepted := windows + [window], accepted + more;
      }
      ended := isClosed;
    }
  }
}
