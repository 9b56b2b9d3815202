/**
 The reporting pipeline under every interleaving of its parts: producers that check the closing flag
 and then produce, the work loop with shutdown and flush, and one receive loop per channel that opens
 one stream window after another. Each action is atomic; timeouts, the end of a call, and shutdown may
 happen at any time.

 clock, and the times in entries, only say in which order things happened.
 */
module Pipeline {
  import opened Wrappers
  import opened Maps
  import opened Reporter

  /** An item that a report call produced, with the times of its closing check and of its produce. */
  datatype Entry = Entry(call: nat, item: CollectItem, checkedAt: nat, producedAt: nat)

  datatype Call = Call(item: CollectItem, checkedAt: nat)

  /** How a report call ended: silently, or with its item in accepted or in failed, at the given position. */
  datatype Fate = Refused(call: Call) | Queued(pos: nat) | Failed(pos: nat)

  datatype Phase = Consuming | Leaving | Flushing | Finished(ok: bool)

  /** Where a receive loop is: between windows, inside one, or done. */
  datatype LoopPc = AtTop | InWindow | Ended

  datatype Loop = Loop(isClosed: bool, pc: LoopPc, windows: seq<seq<CollectItem>>)

  datatype State = State(
    clock: nat,
    producersAlive: bool,
    calls: map<nat, Call>,
    queue: seq<Entry>,
    failed: seq<Entry>,
    phase: Phase,
    isClosing: bool,
    consumerAlive: bool,
    sendersAlive: bool,
    routed: Routed,
    loops: PerKind<Loop>,
    // History: everything produced, everything taken, how each call ended, and when the flag was stored,
    // the queue last polled, the last producer dropped and the consumer dropped.
    accepted: seq<Entry>,
    taken: seq<Entry>,
    fates: map<nat, Fate>,
    storedAt: Option<nat>,
    lastPollAt: Option<nat>,
    producersGoneAt: Option<nat>,
    consumerGoneAt: Option<nat>)

  function Begin(): State {
    State(0, true, map[], [], [], Consuming, false, true, true,
          Routed(PerKind(Chan([], true), Chan([], true), Chan([], true)), [], []),
          PerKind(Loop(false, AtTop, []), Loop(false, AtTop, []), Loop(false, AtTop, [])),
          [], [], map[], None, None, None, None)
  }

  datatype Action =
    | Check(call: nat, item: CollectItem)
    | Produce(call: nat)
    | DropProducers
    | Consume | ConsumeNone | Shutdown
    | StoreClosing
    | FlushTake | FlushEnd
    | DropConsumer | DropSenders
    | Receive(k: Kind, move: Move)

  /** One move of a receive loop. */
  datatype Move = OpenWindow | Poll | CloseWindow | EndLoop

  /** The work loop takes the head of the queue and routes it. */
  function Take(s: State): State
    requires s.queue != []
  {
    s.(queue := s.queue[1..], taken := s.taken + [s.queue[0]], routed := Route(s.routed, s.queue[0].item))
  }

  /** windows with x delivered into the open one, the last. */
  function Deliver(windows: seq<seq<CollectItem>>, x: CollectItem): seq<seq<CollectItem>> {
    if windows == [] then [[x]]
    else windows[..|windows| - 1] + [windows[|windows| - 1] + [x]]
  }

  /** A loop and its channel after one move; None when the move is not possible now. */
  function MoveLoop(l: Loop, c: Chan, sendersAlive: bool, m: Move): Option<(Loop, Chan)> {
    match m
    case OpenWindow =>
      if !l.pc.AtTop? || l.isClosed then None
      else Some((l.(pc := InWindow, windows := l.windows + [[]]), c))
    case Poll =>
      if !l.pc.InWindow? then None
      else if c.queue != [] then
        Some((l.(windows := Deliver(l.windows, c.queue[0])), c.(queue := c.queue[1..])))
      else if sendersAlive then None
      else Some((l.(isClosed := true), c))
    case CloseWindow =>
      if !l.pc.InWindow? then None else Some((l.(pc := AtTop), c))
    case EndLoop =>
      if !l.pc.AtTop? || !l.isClosed then None
      else Some((l.(pc := Ended), c.(receiverAlive := false)))
  }

  function Act(s: State, a: Action): Option<State> {
    match a
    case Check(i, x) =>
      if !s.producersAlive || i in s.calls || i in s.fates then None
      else if s.isClosing then Some(s.(fates := s.fates[i := Refused(Call(x, s.clock))]))
      else Some(s.(calls := s.calls[i := Call(x, s.clock)]))
    case Produce(i) =>
      if i !in s.calls then None
      else
        var c := s.calls[i];
        var e := Entry(i, c.item, c.checkedAt, s.clock);
        if s.consumerAlive then
          Some(s.(calls := s.calls - {i}, queue := s.queue + [e], accepted := s.accepted + [e],
                  fates := s.fates[i := Queued(|s.accepted|)]))
        else
          Some(s.(calls := s.calls - {i}, failed := s.failed + [e], fates := s.fates[i := Failed(|s.failed|)]))
    case DropProducers =>
      if s.calls != map[] || !s.producersAlive then None
      else Some(s.(producersAlive := false, producersGoneAt := Some(s.clock)))
    case Consume =>
      if !s.phase.Consuming? || s.queue == [] then None else Some(Take(s))
    case ConsumeNone =>
      if !s.phase.Consuming? || s.queue != [] || s.producersAlive then None else Some(s.(phase := Leaving))
    case Shutdown =>
      if !s.phase.Consuming? then None else Some(s.(phase := Leaving))
    case StoreClosing =>
      if !s.phase.Leaving? then None
      else Some(s.(phase := Flushing, isClosing := true, storedAt := Some(s.clock)))
    case FlushTake =>
      if !s.phase.Flushing? || s.queue == [] then None else Some(Take(s))
    case FlushEnd =>
      if !s.phase.Flushing? || s.queue != [] then None
      else Some(s.(phase := Finished(s.producersAlive), lastPollAt := Some(s.clock)))
    case DropConsumer =>
      if !s.phase.Finished? || !s.consumerAlive then None
      else Some(s.(consumerAlive := false, consumerGoneAt := Some(s.clock)))
    case DropSenders =>
      if !s.phase.Finished? then None else Some(s.(sendersAlive := false))
    case Receive(k, m) =>
      match MoveLoop(s.loops.Get(k), s.routed.chans.Get(k), s.sendersAlive, m)
      case None => None
      case Some((l, c)) =>
        Some(s.(loops := s.loops.Set(k, l), routed := s.routed.(chans := s.routed.chans.Set(k, c))))
  }

  function Step(s: State, a: Action): Option<State> {
    match Act(s, a) case None => None case Some(s') => Some(s'.(clock := s.clock + 1))
  }

  function Run(s: State, actions: seq<Action>): Option<State>
    decreases |actions|
  {
    if actions == [] then Some(s)
    else
      match Step(s, actions[0])
      case None => None
      case Some(s') => Run(s', actions[1..])
  }

  // ---- Conservation ----

  /** The items of kind k among those that were let through. */
  function Passed(items: seq<CollectItem>, through: seq<bool>, k: Kind): seq<CollectItem>
    requires |items| == |through|
  {
    if items == [] then []
    else
      var n := |items| - 1;
      Passed(items[..n], through[..n], k)
      + (if items[n].Data? && items[n].kind == k && through[n] then [items[n]] else [])
  }

  /** The data items that were not let through. */
  function Rejected(items: seq<CollectItem>, through: seq<bool>): seq<CollectItem>
    requires |items| == |through|
  {
    if items == [] then []
    else
      var n := |items| - 1;
      Rejected(items[..n], through[..n]) + (if items[n].Data? && !through[n] then [items[n]] else [])
  }

  /** The items that go to the management client. */
  function Managed(items: seq<CollectItem>): seq<CollectItem> {
    if items == [] then []
    else
      var n := |items| - 1;
      Managed(items[..n]) + (if items[n].Data? then [] else [items[n]])
  }

  function Items(es: seq<Entry>): (r: seq<CollectItem>)
    ensures |r| == |es| && forall k :: 0 <= k < |es| ==> r[k] == es[k].item
  {
    seq(|es|, k requires 0 <= k < |es| => es[k].item)
  }

  /** What was delivered for kind k, and what its channel still holds. */
  function Lane(s: State, k: Kind): seq<CollectItem> {
    Concat(s.loops.Get(k).windows) + s.routed.chans.Get(k).queue
  }

  /** through tells of each item taken whether its channel accepted it. */
  ghost predicate SplitBy(s: State, through: seq<bool>) {
    && |through| == |s.taken|
    && (forall k: Kind :: Lane(s, k) == Passed(Items(s.taken), through, k))
    && s.routed.errs == Rejected(Items(s.taken), through)
    && s.routed.managed == Managed(Items(s.taken))
  }

  /** A receive loop is over only with the sender gone and the channel empty. */
  predicate LaneOk(l: Loop, c: Chan, sendersAlive: bool) {
    && |c.queue| <= CAPACITY
    && (l.isClosed ==> !sendersAlive && c.queue == [])
    && (l.pc.Ended? ==> l.isClosed)
    && (c.receiverAlive <==> !l.pc.Ended?)
    && (l.pc.InWindow? ==> l.windows != [])
  }

  ghost predicate LanesOk(s: State) {
    forall k: Kind :: LaneOk(s.loops.Get(k), s.routed.chans.Get(k), s.sendersAlive)
  }

  /** What is gone since then, if at all, was not gone yet at the given time. */
  predicate GoneAfter(gone: Option<nat>, time: Option<nat>) {
    gone.None? || (time.Some? && time.value < gone.value)
  }

  ghost predicate PhaseOk(s: State) {
    && (!s.sendersAlive ==> s.phase.Finished?)
    && (!s.consumerAlive ==> s.phase.Finished?)
    && (!s.producersAlive ==> s.calls == map[])
    && (s.isClosing <==> s.storedAt.Some?)
    && (s.isClosing <==> s.phase.Flushing? || s.phase.Finished?)
    && (s.phase.Finished? <==> s.lastPollAt.Some?)
    && (s.phase.Finished? && !s.phase.ok ==> !s.producersAlive && s.queue == [])
    && (s.producersAlive <==> s.producersGoneAt.None?)
    && (s.consumerAlive <==> s.consumerGoneAt.None?)
    && (s.phase.Finished? ==> (s.phase.ok <==> GoneAfter(s.producersGoneAt, s.lastPollAt)))
  }

  /** The order of the events that the history records. */
  ghost predicate TimesOk(s: State) {
    && (s.storedAt.Some? ==> s.storedAt.value < s.clock)
    && (s.lastPollAt.Some? ==> s.storedAt.Some? && s.storedAt.value < s.lastPollAt.value < s.clock)
    && (forall i :: i in s.calls ==> s.calls[i].checkedAt < s.clock)
    && (forall i :: i in s.calls && s.storedAt.Some? ==> s.calls[i].checkedAt < s.storedAt.value)
    && (forall j :: 0 <= j < |s.accepted| ==> s.accepted[j].checkedAt < s.accepted[j].producedAt < s.clock)
    && (forall j :: 0 <= j < |s.accepted| && s.storedAt.Some? ==> s.accepted[j].checkedAt < s.storedAt.value)
    && (forall j :: 0 <= j < |s.taken| && s.lastPollAt.Some? ==> s.taken[j].producedAt < s.lastPollAt.value)
    && (forall j :: 0 <= j < |s.queue| && s.lastPollAt.Some? ==> s.lastPollAt.value < s.queue[j].producedAt)
    && (s.producersGoneAt.Some? ==> s.producersGoneAt.value < s.clock && s.producersGoneAt != s.lastPollAt)
    && (s.consumerGoneAt.Some? ==> s.consumerGoneAt.value < s.clock)
  }

  /** Every ended call has its item at its position, and nothing else is there. */
  ghost predicate FatesOk(s: State) {
    && s.fates.Keys !! s.calls.Keys
    && (forall p :: 0 <= p < |s.accepted| ==> s.accepted[p].call in s.fates && s.fates[s.accepted[p].call] == Queued(p))
    && (forall p :: 0 <= p < |s.failed| ==> s.failed[p].call in s.fates && s.fates[s.failed[p].call] == Failed(p))
    && (forall i :: i in s.fates && s.fates[i].Queued? ==> s.fates[i].pos < |s.accepted| && s.accepted[s.fates[i].pos].call == i)
    && (forall i :: i in s.fates && s.fates[i].Failed? ==> s.fates[i].pos < |s.failed| && s.failed[s.fates[i].pos].call == i)
  }

  /** The check came after the flag was stored. */
  predicate CheckedLate(at: nat, stored: Option<nat>, clock: nat) {
    stored.Some? && stored.value < at < clock
  }

  /** The check came before the flag was stored, and the produce after the consumer was dropped. */
  predicate ProducedLate(e: Entry, stored: Option<nat>, gone: Option<nat>, clock: nat) {
    stored.Some? && e.checkedAt < stored.value && gone.Some? && gone.value < e.producedAt < clock
  }

  /** When calls were refused, when they failed and when they did not. */
  ghost predicate FateTimesOk(s: State) {
    && (forall i :: i in s.fates && s.fates[i].Refused? ==> CheckedLate(s.fates[i].call.checkedAt, s.storedAt, s.clock))
    && (forall p :: 0 <= p < |s.failed| ==> ProducedLate(s.failed[p], s.storedAt, s.consumerGoneAt, s.clock))
    && (forall p :: 0 <= p < |s.accepted| && s.consumerGoneAt.Some? ==> s.accepted[p].producedAt < s.consumerGoneAt.value)
  }

  ghost predicate Inv(s: State) {
    && LanesOk(s) && PhaseOk(s) && TimesOk(s) && FatesOk(s) && FateTimesOk(s)
    && s.accepted == s.taken + s.queue
    && exists through :: SplitBy(s, through)
  }

  predicate Takes(a: Action) {
    a.Consume? || a.FlushTake?
  }

  /** a is a move of the receive loop of kind k. */
  predicate Concerns(a: Action, k: Kind) {
    a.Receive? && a.k == k
  }

  lemma ReceiveMoves(s: State, k: Kind, m: Move, s': State)
    requires Step(s, Receive(k, m)) == Some(s')
    ensures MoveLoop(s.loops.Get(k), s.routed.chans.Get(k), s.sendersAlive, m) == Some((s'.loops.Get(k), s'.routed.chans.Get(k)))
    ensures forall j: Kind :: j != k ==> s'.loops.Get(j) == s.loops.Get(j) && s'.routed.chans.Get(j) == s.routed.chans.Get(j)
    ensures s'.sendersAlive == s.sendersAlive
  {
  }

  lemma Untouched(s: State, a: Action, s': State, k: Kind)
    requires Step(s, a) == Some(s') && !Takes(a) && !Concerns(a, k)
    ensures s'.loops.Get(k) == s.loops.Get(k) && s'.routed.chans.Get(k) == s.routed.chans.Get(k)
    ensures s'.sendersAlive ==> s.sendersAlive
  {
    if a.Receive? {
      ReceiveMoves(s, a.k, a.move, s');
    } else {
      assert s'.loops == s.loops && s'.routed == s.routed;
    }
  }

  lemma MoveKeepsLane(l: Loop, c: Chan, sendersAlive: bool, m: Move)
    requires LaneOk(l, c, sendersAlive) && MoveLoop(l, c, sendersAlive, m).Some?
    ensures var (l', c') := MoveLoop(l, c, sendersAlive, m).value; LaneOk(l', c', sendersAlive)
  {
  }

  lemma LaneTakeKept(s: State, k: Kind)
    requires LaneOk(s.loops.Get(k), s.routed.chans.Get(k), true) && s.queue != []
    ensures LaneOk(Take(s).loops.Get(k), Take(s).routed.chans.Get(k), true)
  {
  }

  lemma LanesKept(s: State, a: Action, s': State)
    requires LanesOk(s) && PhaseOk(s) && Step(s, a) == Some(s')
    ensures LanesOk(s')
  {
    forall k: Kind ensures LaneOk(s'.loops.Get(k), s'.routed.chans.Get(k), s'.sendersAlive) {
      assert LaneOk(s.loops.Get(k), s.routed.chans.Get(k), s.sendersAlive);
      if Takes(a) {
        LaneTakeKept(s, k);
      } else if Concerns(a, k) {
        ReceiveMoves(s, k, a.move, s');
        MoveKeepsLane(s.loops.Get(k), s.routed.chans.Get(k), s.sendersAlive, a.move);
      } else {
        Untouched(s, a, s', k);
      }
    }
  }

  lemma PhaseReceive(s: State, a: Action, s': State)
    requires PhaseOk(s) && a.Receive? && Step(s, a) == Some(s')
    ensures PhaseOk(s')
  {
    ReceiveMoves(s, a.k, a.move, s');
  }

  lemma PhaseKept(s: State, a: Action, s': State)
    requires PhaseOk(s) && TimesOk(s) && Step(s, a) == Some(s')
    ensures PhaseOk(s')
  {
    if a.Receive? {
      PhaseReceive(s, a, s');
    }
  }

  lemma QueueKept(s: State, a: Action, s': State)
    requires s.accepted == s.taken + s.queue && Step(s, a) == Some(s')
    ensures s'.accepted == s'.taken + s'.queue
  {
    if Takes(a) {
      assert s.queue == [s.queue[0]] + s.queue[1..];
    }
  }

  lemma FatesKept(s: State, a: Action, s': State)
    requires FatesOk(s) && Step(s, a) == Some(s')
    ensures FatesOk(s')
  {
    if a.Check? {
      FatesCheck(s, a, s');
    } else if a.Produce? {
      FatesProduce(s, a, s');
    } else {
      OthersKeepCalls(s, a, s');
    }
  }

  lemma FatesCheck(s: State, a: Action, s': State)
    requires FatesOk(s) && a.Check? && Step(s, a) == Some(s')
    ensures FatesOk(s')
  {
    assert s'.accepted == s.accepted && s'.failed == s.failed;
    assert forall j :: j in s.fates ==> j in s'.fates && s'.fates[j] == s.fates[j];
    assert forall j :: j in s'.fates ==> j in s.fates || (j == a.call && s'.fates[j].Refused?);
  }

  lemma OthersKeepCalls(s: State, a: Action, s': State)
    requires Step(s, a) == Some(s') && !a.Check? && !a.Produce?
    ensures s'.calls == s.calls && s'.fates == s.fates && s'.accepted == s.accepted && s'.failed == s.failed
    ensures s'.clock == s.clock + 1
  {
    if a.Receive? {
      ReceiveMoves(s, a.k, a.move, s');
    }
  }

  lemma FatesProduce(s: State, a: Action, s': State)
    requires FatesOk(s) && a.Produce? && Step(s, a) == Some(s')
    ensures FatesOk(s')
  {
    assert a.call !in s.fates;
    assert forall j :: j in s'.fates && j != a.call ==> j in s.fates && s'.fates[j] == s.fates[j];
    if s.consumerAlive {
      assert s'.failed == s.failed;
    } else {
      assert s'.accepted == s.accepted;
    }
  }

  lemma FateTimesKept(s: State, a: Action, s': State)
    requires PhaseOk(s) && TimesOk(s) && FateTimesOk(s) && Step(s, a) == Some(s')
    ensures FateTimesOk(s')
  {
    if a.Check? {
      FateTimesCheck(s, a, s');
    } else if a.Produce? {
      FateTimesProduce(s, a, s');
    } else {
      OthersKeepCalls(s, a, s');
      OthersKeepTimes(s, a, s');
    }
  }

  lemma FateTimesCheck(s: State, a: Action, s': State)
    requires PhaseOk(s) && TimesOk(s) && FateTimesOk(s) && a.Check? && Step(s, a) == Some(s')
    ensures FateTimesOk(s')
  {
    assert s'.accepted == s.accepted && s'.failed == s.failed && s'.storedAt == s.storedAt;
    assert s'.consumerGoneAt == s.consumerGoneAt;
    assert forall i :: i in s'.fates ==> (i in s.fates && s'.fates[i] == s.fates[i]) || (i == a.call && s.isClosing);
  }

  lemma FateTimesProduce(s: State, a: Action, s': State)
    requires PhaseOk(s) && TimesOk(s) && FateTimesOk(s) && a.Produce? && Step(s, a) == Some(s')
    ensures FateTimesOk(s')
  {
    assert s'.storedAt == s.storedAt && s'.consumerGoneAt == s.consumerGoneAt && s'.clock == s.clock + 1;
    assert forall i :: i in s'.fates && s'.fates[i].Refused? ==> i in s.fates && s'.fates[i] == s.fates[i];
    forall p | 0 <= p < |s'.failed| ensures ProducedLate(s'.failed[p], s'.storedAt, s'.consumerGoneAt, s'.clock) {
      if p < |s.failed| {
        assert s'.failed[p] == s.failed[p] && ProducedLate(s.failed[p], s.storedAt, s.consumerGoneAt, s.clock);
      } else {
        assert s.calls[a.call].checkedAt < s.clock && (s.storedAt.Some? ==> s.calls[a.call].checkedAt < s.storedAt.value);
      }
    }
    forall p | 0 <= p < |s'.accepted| && s'.consumerGoneAt.Some? ensures s'.accepted[p].producedAt < s'.consumerGoneAt.value {
      assert s'.accepted[p] == s.accepted[p];
    }
  }

  lemma OthersKeepTimes(s: State, a: Action, s': State)
    requires PhaseOk(s) && Step(s, a) == Some(s')
    ensures s.storedAt.Some? ==> s'.storedAt == s.storedAt
    ensures s'.consumerGoneAt == if a.DropConsumer? then Some(s.clock) else s.consumerGoneAt
    ensures s.consumerGoneAt.Some? ==> s'.consumerGoneAt == s.consumerGoneAt
  {
  }

  lemma TimesProduce(s: State, i: nat, s': State)
    requires PhaseOk(s) && TimesOk(s) && Step(s, Produce(i)) == Some(s')
    ensures TimesOk(s')
  {
  }

  lemma TimesTake(s: State, a: Action, s': State)
    requires PhaseOk(s) && TimesOk(s) && Takes(a) && Step(s, a) == Some(s')
    ensures TimesOk(s')
  {
  }

  lemma TimesReceive(s: State, a: Action, s': State)
    requires TimesOk(s) && a.Receive? && Step(s, a) == Some(s')
    ensures TimesOk(s')
  {
    ReceiveMoves(s, a.k, a.move, s');
  }

  lemma TimesKept(s: State, a: Action, s': State)
    requires PhaseOk(s) && TimesOk(s) && s.accepted == s.taken + s.queue && Step(s, a) == Some(s')
    ensures TimesOk(s')
  {
    match a
    case Produce(i) => TimesProduce(s, i, s');
    case Consume => TimesTake(s, a, s');
    case FlushTake => TimesTake(s, a, s');
    case FlushEnd => assert s.taken == s.accepted;
    case Receive(_, _) => TimesReceive(s, a, s');
    case _ =>
  }

  lemma PassedSnoc(items: seq<CollectItem>, through: seq<bool>, x: CollectItem, b: bool, k: Kind)
    requires |items| == |through|
    ensures Passed(items + [x], through + [b], k) ==
            Passed(items, through, k) + (if x.Data? && x.kind == k && b then [x] else [])
    ensures Rejected(items + [x], through + [b]) == Rejected(items, through) + (if x.Data? && !b then [x] else [])
    ensures Managed(items + [x]) == Managed(items) + (if x.Data? then [] else [x])
  {
    assert (items + [x])[..|items|] == items && (through + [b])[..|items|] == through;
  }

  lemma TakeSplits(s: State, through: seq<bool>) returns (through': seq<bool>)
    requires s.queue != [] && SplitBy(s, through)
    ensures SplitBy(Take(s), through')
  {
    var x, s' := s.queue[0].item, Take(s);
    var b := x.Data? && Accepts(s.routed.chans.Get(x.kind));
    through' := through + [b];
    assert Items(s'.taken) == Items(s.taken) + [x];
    forall k: Kind ensures Lane(s', k) == Passed(Items(s'.taken), through', k) {
      PassedSnoc(Items(s.taken), through, x, b, k);
      assert Lane(s, k) == Passed(Items(s.taken), through, k);
      if x.Data? && x.kind == k && b {
        assert Lane(s', k) == Lane(s, k) + [x];
      }
    }
    PassedSnoc(Items(s.taken), through, x, b, Trace);
  }

  lemma {:induction false} DeliverConcat(windows: seq<seq<CollectItem>>, x: CollectItem)
    requires windows != []
    ensures Concat(Deliver(windows, x)) == Concat(windows) + [x]
  {
    var n := |windows| - 1;
    ConcatSnoc(windows[..n], windows[n]);
    ConcatSnoc(windows[..n], windows[n] + [x]);
    assert windows == windows[..n] + [windows[n]];
    assert Concat(windows[..n]) + (windows[n] + [x]) == Concat(windows[..n]) + windows[n] + [x];
  }

  /** A move of a receive loop takes items along its lane and loses or repeats none. */
  lemma MoveDelivers(l: Loop, c: Chan, sendersAlive: bool, m: Move)
    requires LaneOk(l, c, sendersAlive) && MoveLoop(l, c, sendersAlive, m).Some?
    ensures var (l', c') := MoveLoop(l, c, sendersAlive, m).value;
            Concat(l'.windows) + c'.queue == Concat(l.windows) + c.queue
  {
    if m.OpenWindow? {
      ConcatSnoc(l.windows, []);
    } else if m.Poll? && c.queue != [] {
      var x := c.queue[0];
      DeliverConcat(l.windows, x);
      assert c.queue == [x] + c.queue[1..];
      assert Concat(l.windows) + [x] + c.queue[1..] == Concat(l.windows) + ([x] + c.queue[1..]);
    }
  }

  lemma LaneStays(s: State, a: Action, s': State, k: Kind)
    requires LaneOk(s.loops.Get(k), s.routed.chans.Get(k), s.sendersAlive)
    requires Step(s, a) == Some(s') && !Takes(a)
    ensures Lane(s', k) == Lane(s, k)
  {
    if Concerns(a, k) {
      ReceiveMoves(s, k, a.move, s');
      MoveDelivers(s.loops.Get(k), s.routed.chans.Get(k), s.sendersAlive, a.move);
    } else {
      Untouched(s, a, s', k);
    }
  }

  lemma OthersKeepHistory(s: State, a: Action, s': State)
    requires Step(s, a) == Some(s') && !Takes(a)
    ensures s'.taken == s.taken && s'.routed.errs == s.routed.errs && s'.routed.managed == s.routed.managed
  {
  }

  lemma TakesIsTake(s: State, a: Action, s': State)
    requires Step(s, a) == Some(s') && Takes(a)
    ensures s.queue != [] && s' == Take(s).(clock := s.clock + 1)
  {
  }

  lemma SplitKept(s: State, a: Action, s': State, through: seq<bool>) returns (through': seq<bool>)
    requires LanesOk(s) && SplitBy(s, through) && Step(s, a) == Some(s')
    ensures SplitBy(s', through')
  {
    if Takes(a) {
      TakesIsTake(s, a, s');
      through' := TakeSplits(s, through);
      assert forall k: Kind :: Lane(s', k) == Lane(Take(s), k);
    } else {
      through' := through;
      OthersKeepHistory(s, a, s');
      forall k: Kind ensures Lane(s', k) == Passed(Items(s'.taken), through, k) {
        assert LaneOk(s.loops.Get(k), s.routed.chans.Get(k), s.sendersAlive);
        LaneStays(s, a, s', k);
        assert Lane(s, k) == Passed(Items(s.taken), through, k);
      }
    }
  }

  lemma StepKeepsInv(s: State, a: Action, s': State)
    requires Inv(s) && Step(s, a) == Some(s')
    ensures Inv(s')
  {
    LanesKept(s, a, s');
    PhaseKept(s, a, s');
    QueueKept(s, a, s');
    TimesKept(s, a, s');
    FatesKept(s, a, s');
    FateTimesKept(s, a, s');
    var through :| SplitBy(s, through);
    var through' := SplitKept(s, a, s', through);
  }

  lemma {:induction false} RunKeepsInv(s: State, actions: seq<Action>, t: State)
    requires Inv(s) && Run(s, actions) == Some(t)
    ensures Inv(t)
    decreases |actions|
  {
    if actions != [] {
      StepKeepsInv(s, actions[0], Step(s, actions[0]).value);
      RunKeepsInv(Step(s, actions[0]).value, actions[1..], t);
    }
  }

  lemma BeginInv()
    ensures Inv(Begin())
  {
    assert Items([]) == [];
    assert SplitBy(Begin(), []);
  }

  lemma Reached(actions: seq<Action>, t: State)
    requires Run(Begin(), actions) == Some(t)
    ensures Inv(t)
  {
    BeginInv();
    RunKeepsInv(Begin(), actions, t);
  }

  // ---- What holds of every interleaving ----

  ghost predicate AllEnded(s: State) {
    s.phase.Finished? && !s.sendersAlive && forall k: Kind :: s.loops.Get(k).pc.Ended?
  }

  /**
   When all reporting tasks have ended, the data items taken from the queue split into those delivered
   and those handed to the error handler, each exactly once: for each kind the stream windows, one after
   another, hold exactly the items let through, in queue order, and the error handler got exactly the
   others, in that order. What was taken is a prefix of what was produced.
   */
  lemma Conservation(actions: seq<Action>, t: State) returns (through: seq<bool>)
    requires Run(Begin(), actions) == Some(t) && AllEnded(t)
    ensures |through| == |t.taken|
    ensures forall k: Kind :: Concat(t.loops.Get(k).windows) == Passed(Items(t.taken), through, k)
    ensures t.routed.errs == Rejected(Items(t.taken), through)
    ensures t.routed.managed == Managed(Items(t.taken))
    ensures t.accepted == t.taken + t.queue
  {
    Reached(actions, t);
    through :| SplitBy(t, through);
    forall k: Kind ensures Concat(t.loops.Get(k).windows) == Passed(Items(t.taken), through, k) {
      assert Lane(t, k) == Passed(Items(t.taken), through, k);
      assert t.loops.Get(k).pc.Ended?;
      assert t.loops.Get(k).isClosed && t.routed.chans.Get(k).queue == [];
    }
  }

  /** At any time, the windows so far and the channel together are what was let through. */
  lemma NothingLostInFlight(actions: seq<Action>, t: State) returns (through: seq<bool>)
    requires Run(Begin(), actions) == Some(t)
    ensures SplitBy(t, through) && t.accepted == t.taken + t.queue
  {
    Reached(actions, t);
    through :| SplitBy(t, through);
  }

  /**
   A receive loop ends only with its sender gone and its channel empty, so try_send never finds the
   channel closed: the error handler gets an item exactly when its channel already holds 255 items.
   */
  lemma DroppedOnlyWhenFull(actions: seq<Action>, t: State, a: Action)
    requires Run(Begin(), actions) == Some(t)
    requires (a.Consume? || a.FlushTake?) && Act(t, a).Some?
    ensures forall k: Kind :: t.loops.Get(k).pc.Ended? ==> !t.sendersAlive && t.routed.chans.Get(k).queue == []
    ensures var x := t.queue[0].item;
            Act(t, a).value.routed.errs ==
            if x.Data? && |t.routed.chans.Get(x.kind).queue| == 255 then t.routed.errs + [x] else t.routed.errs
  {
    Reached(actions, t);
    var x := t.queue[0].item;
    if x.Data? {
      var k := x.kind;
      assert |t.routed.chans.Get(k).queue| <= CAPACITY && (t.loops.Get(k).pc.Ended? ==> t.loops.Get(k).isClosed);
    }
  }

  /**
   After the last poll of the flush, a produced item was taken exactly when it was produced before that
   poll. Whatever is left behind had its closing check before the flag was stored, and its produce after
   the last poll.
   */
  lemma ShutdownRace(actions: seq<Action>, t: State, j: nat)
    requires Run(Begin(), actions) == Some(t) && t.phase.Finished? && j < |t.accepted|
    ensures t.storedAt.Some? && t.lastPollAt.Some? && t.storedAt.value < t.lastPollAt.value
    ensures |t.taken| <= |t.accepted| && t.taken == t.accepted[..|t.taken|] && t.queue == t.accepted[|t.taken|..]
    ensures j < |t.taken| <==> t.accepted[j].producedAt < t.lastPollAt.value
    ensures j >= |t.taken| ==>
              t.accepted[j].checkedAt < t.storedAt.value && t.lastPollAt.value < t.accepted[j].producedAt
  {
    Reached(actions, t);
    if j < |t.taken| {
      assert t.accepted[j] == t.taken[j];
    } else {
      assert t.accepted[j] == t.queue[j - |t.taken|];
    }
  }

  /** The flush fails exactly when every producer is gone by its last poll. */
  lemma FlushFailsIff(actions: seq<Action>, t: State)
    requires Run(Begin(), actions) == Some(t)
    ensures t.phase == Finished(false) <==>
            t.lastPollAt.Some? && t.producersGoneAt.Some? && t.producersGoneAt.value < t.lastPollAt.value
    ensures Step(t, FlushEnd).Some? ==> Step(t, FlushEnd).value.phase == Finished(t.producersAlive)
  {
    Reached(actions, t);
    FlushFails(t);
  }

  lemma FlushFails(t: State)
    requires PhaseOk(t) && TimesOk(t)
    ensures t.phase == Finished(false) <==>
            t.lastPollAt.Some? && t.producersGoneAt.Some? && t.producersGoneAt.value < t.lastPollAt.value
  {
  }

  /** When the flush fails because every producer is gone, nothing was left behind. */
  lemma DisconnectedLosesNothing(actions: seq<Action>, t: State)
    requires Run(Begin(), actions) == Some(t) && t.phase == Finished(false)
    ensures t.taken == t.accepted && t.calls == map[]
  {
    Reached(actions, t);
  }

  /** The error is real: a flush that finds the producer gone takes what is left and then fails. */
  lemma FlushCanFail(x: CollectItem) returns (actions: seq<Action>, t: State)
    ensures Run(Begin(), actions) == Some(t) && t.phase == Finished(false)
    ensures |t.taken| == 1 && t.taken[0].item == x
  {
    var s0 := Begin();
    var s1 := Step(s0, Check(0, x)).value;
    var s2 := Step(s1, Produce(0)).value;
    var s3 := Step(s2, DropProducers).value;
    var s4 := Step(s3, Shutdown).value;
    var s5 := Step(s4, StoreClosing).value;
    var s6 := Step(s5, FlushTake).value;
    t := Step(s6, FlushEnd).value;
    var none: seq<Action> := [];
    var r6 := [FlushEnd] + none;
    var r5 := [FlushTake] + r6;
    var r4 := [StoreClosing] + r5;
    var r3 := [Shutdown] + r4;
    var r2 := [DropProducers] + r3;
    var r1 := [Produce(0)] + r2;
    actions := [Check(0, x)] + r1;
    RunCons(s6, FlushEnd, none);
    RunCons(s5, FlushTake, r6);
    RunCons(s4, StoreClosing, r5);
    RunCons(s3, Shutdown, r4);
    RunCons(s2, DropProducers, r3);
    RunCons(s1, Produce(0), r2);
    RunCons(s0, Check(0, x), r1);
  }

  // ---- How report calls end ----

  /** The item of a report call, while it runs and once it has ended. */
  function ItemOf(s: State, i: nat): Option<CollectItem> {
    if i in s.calls then Some(s.calls[i].item)
    else if i !in s.fates then None
    else
      match s.fates[i]
      case Refused(call) => Some(call.item)
      case Queued(p) => if p < |s.accepted| then Some(s.accepted[p].item) else None
      case Failed(p) => if p < |s.failed| then Some(s.failed[p].item) else None
  }

  lemma StepKeepsItem(s: State, a: Action, s': State, i: nat)
    requires FatesOk(s) && Step(s, a) == Some(s')
    ensures ItemOf(s, i).Some? ==> ItemOf(s', i) == ItemOf(s, i)
    ensures a.Check? && a.call == i ==> ItemOf(s', i) == Some(a.item)
  {
    if !a.Check? && !a.Produce? {
      OthersKeepCalls(s, a, s');
    }
  }

  lemma {:induction false} RunKeepsItem(s: State, actions: seq<Action>, t: State, i: nat, x: CollectItem)
    requires Inv(s) && Run(s, actions) == Some(t)
    requires ItemOf(s, i) == Some(x) || Check(i, x) in actions
    ensures ItemOf(t, i) == Some(x)
    decreases |actions|
  {
    if actions != [] {
      var s' := Step(s, actions[0]).value;
      StepKeepsInv(s, actions[0], s');
      StepKeepsItem(s, actions[0], s', i);
      assert actions[0] == Check(i, x) || Check(i, x) in actions[1..] || ItemOf(s, i) == Some(x);
      RunKeepsItem(s', actions[1..], t, i, x);
    }
  }

  /**
   What becomes of a report call: it is still between check and produce, or its item was dropped in
   silence, queued once, or handed to the error handler once. The first of these ends happens exactly when
   the check came after the flag was stored, the last exactly when the produce came after the consumer was
   dropped.
   */
  lemma CallEnds(actions: seq<Action>, t: State, i: nat, x: CollectItem)
    requires Run(Begin(), actions) == Some(t) && Check(i, x) in actions
    ensures i in t.calls <==> i !in t.fates
    ensures i in t.calls ==> t.calls[i].item == x
    ensures i in t.fates ==> EndedAs(t, i, x, t.fates[i])
  {
    ItemKept(actions, t, i, x);
    Reached(actions, t);
    EndedOk(t, i, x);
  }

  ghost predicate EndedAs(t: State, i: nat, x: CollectItem, fate: Fate) {
    match fate
    case Refused(call) => call.item == x && t.storedAt.Some? && t.storedAt.value < call.checkedAt
    case Queued(p) =>
      && p < |t.accepted| && t.accepted[p].item == x
      && (forall q :: 0 <= q < |t.accepted| && t.accepted[q].call == i ==> q == p)
      && (t.storedAt.Some? ==> t.accepted[p].checkedAt < t.storedAt.value)
      && (t.consumerGoneAt.Some? ==> t.accepted[p].producedAt < t.consumerGoneAt.value)
    case Failed(p) =>
      && p < |t.failed| && t.failed[p].item == x
      && (forall q :: 0 <= q < |t.failed| && t.failed[q].call == i ==> q == p)
      && t.storedAt.Some? && t.failed[p].checkedAt < t.storedAt.value
      && t.consumerGoneAt.Some? && t.consumerGoneAt.value < t.failed[p].producedAt
  }

  lemma EndedOk(t: State, i: nat, x: CollectItem)
    requires FatesOk(t) && TimesOk(t) && FateTimesOk(t) && ItemOf(t, i) == Some(x)
    ensures i in t.calls <==> i !in t.fates
    ensures i in t.calls ==> t.calls[i].item == x
    ensures i in t.fates ==> EndedAs(t, i, x, t.fates[i])
  {
  }

  lemma ItemKept(actions: seq<Action>, t: State, i: nat, x: CollectItem)
    requires Run(Begin(), actions) == Some(t) && Check(i, x) in actions
    ensures ItemOf(t, i) == Some(x)
  {
    BeginInv();
    RunKeepsItem(Begin(), actions, t, i, x);
  }

  /** Nothing else is queued or handed to the error handler: every entry belongs to a call that ended that way. */
  lemma EntriesAreCalls(actions: seq<Action>, t: State, p: nat)
    requires Run(Begin(), actions) == Some(t)
    ensures p < |t.accepted| ==> t.accepted[p].call in t.fates && t.fates[t.accepted[p].call] == Queued(p)
    ensures p < |t.failed| ==> t.failed[p].call in t.fates && t.fates[t.failed[p].call] == Failed(p)
  {
    Reached(actions, t);
  }

  /** The work loop goes over to closing only on shutdown, or when every producer is gone and everything was taken. */
  lemma WorkLoopLeaves(actions: seq<Action>, t: State, a: Action, t': State)
    requires Run(Begin(), actions) == Some(t) && Step(t, a) == Some(t')
    requires t.phase.Consuming? && !t'.phase.Consuming?
    ensures a == Shutdown || (!t.producersAlive && t.calls == map[] && t.taken == t.accepted)
  {
    Reached(actions, t);
    LeavesWhen(t, a);
  }

  lemma LeavesWhen(t: State, a: Action)
    requires PhaseOk(t) && t.accepted == t.taken + t.queue && Act(t, a).Some?
    requires t.phase.Consuming? && !Act(t, a).value.phase.Consuming?
    ensures a == Shutdown || (!t.producersAlive && t.calls == map[] && t.taken == t.accepted)
  {
  }

  /** The race is real: an item checked before the flag and produced after the last poll is never taken. */
  lemma LateItemIsLeftBehind(x: CollectItem) returns (actions: seq<Action>, t: State)
    ensures Run(Begin(), actions) == Some(t) && t.phase == Finished(true)
    ensures |t.accepted| == 1 && t.accepted[0].item == x && t.taken == []
  {
    var s0 := Begin();
    var s1 := Step(s0, Check(0, x)).value;
    var s2 := Step(s1, Shutdown).value;
    var s3 := Step(s2, StoreClosing).value;
    var s4 := Step(s3, FlushEnd).value;
    t := Step(s4, Produce(0)).value;
    assert Run(t, []) == Some(t);
    assert Run(s4, [Produce(0)]) == Some(t);
    assert Run(s3, [FlushEnd, Produce(0)]) == Some(t) by {
      assert [FlushEnd, Produce(0)][1..] == [Produce(0)];
    }
    assert Run(s2, [StoreClosing, FlushEnd, Produce(0)]) == Some(t) by {
      assert [StoreClosing, FlushEnd, Produce(0)][1..] == [FlushEnd, Produce(0)];
    }
    assert Run(s1, [Shutdown, StoreClosing, FlushEnd, Produce(0)]) == Some(t) by {
      assert [Shutdown, StoreClosing, FlushEnd, Produce(0)][1..] == [StoreClosing, FlushEnd, Produce(0)];
    }
    actions := [Check(0, x), Shutdown, StoreClosing, FlushEnd, Produce(0)];
    assert actions[1..] == [Shutdown, StoreClosing, FlushEnd, Produce(0)];
  }

  // ---- From every state the pipeline can be shut down and drained ----

  lemma {:induction false} RunConcat(s: State, xs: seq<Action>, ys: seq<Action>)
    ensures Run(s, xs + ys) == match Run(s, xs) case None => None case Some(t) => Run(t, ys)
    decreases |xs|
  {
    if xs == [] {
      assert xs + ys == ys;
    } else {
      assert (xs + ys)[0] == xs[0] && (xs + ys)[1..] == xs[1..] + ys;
      if Step(s, xs[0]).Some? {
        RunConcat(Step(s, xs[0]).value, xs[1..], ys);
      }
    }
  }

  lemma RunCons(s: State, a: Action, rest: seq<Action>)
    requires Step(s, a).Some?
    ensures Run(s, [a] + rest) == Run(Step(s, a).value, rest)
  {
    assert ([a] + rest)[1..] == rest;
  }

  /** What is left to do for the work loop. */
  function WorkLeft(s: State): nat {
    match s.phase
    case Consuming => |s.queue| + 3
    case Leaving => |s.queue| + 2
    case Flushing => |s.queue| + 1
    case Finished(_) => 0
  }

  lemma {:induction false} WorkCanFinish(s: State) returns (actions: seq<Action>, t: State)
    requires Inv(s)
    ensures Run(s, actions) == Some(t) && Inv(t) && t.phase.Finished?
    decreases WorkLeft(s)
  {
    if s.phase.Finished? {
      actions, t := [], s;
    } else {
      var a := if s.phase.Consuming? then Shutdown
               else if s.phase.Leaving? then StoreClosing
               else if s.queue != [] then FlushTake
               else FlushEnd;
      var s' := Step(s, a).value;
      StepKeepsInv(s, a, s');
      var rest;
      rest, t := WorkCanFinish(s');
      actions := [a] + rest;
      RunCons(s, a, rest);
    }
  }

  /** What is left to do for a receive loop whose sender is gone. */
  function LoopLeft(l: Loop, c: Chan): nat {
    if l.pc.Ended? then 0
    else if l.isClosed then (if l.pc.AtTop? then 1 else 2)
    else |c.queue| + (if l.pc.InWindow? then 3 else 4)
  }

  function NextMove(l: Loop): Move {
    if l.isClosed then (if l.pc.AtTop? then EndLoop else CloseWindow)
    else if l.pc.AtTop? then OpenWindow else Poll
  }

  lemma LoopMovesOn(l: Loop, c: Chan)
    requires LaneOk(l, c, false) && !l.pc.Ended?
    ensures MoveLoop(l, c, false, NextMove(l)).Some?
    ensures var (l', c') := MoveLoop(l, c, false, NextMove(l)).value; LoopLeft(l', c') < LoopLeft(l, c)
  {
  }

  lemma {:induction false} LoopCanEnd(s: State, k: Kind) returns (actions: seq<Action>, t: State)
    requires Inv(s) && !s.sendersAlive
    ensures Run(s, actions) == Some(t) && Inv(t) && !t.sendersAlive && t.loops.Get(k).pc.Ended?
    ensures forall j: Kind :: j != k ==> t.loops.Get(j) == s.loops.Get(j)
    decreases LoopLeft(s.loops.Get(k), s.routed.chans.Get(k))
  {
    var l, c := s.loops.Get(k), s.routed.chans.Get(k);
    if l.pc.Ended? {
      actions, t := [], s;
    } else {
      LoopMovesOn(l, c);
      var a := Receive(k, NextMove(l));
      var s' := Step(s, a).value;
      ReceiveMoves(s, k, NextMove(l), s');
      StepKeepsInv(s, a, s');
      var rest;
      rest, t := LoopCanEnd(s', k);
      actions := [a] + rest;
      RunCons(s, a, rest);
    }
  }

  lemma TwoLoopsCanEnd(s: State) returns (actions: seq<Action>, t: State)
    requires Inv(s) && !s.sendersAlive
    ensures Run(s, actions) == Some(t) && Inv(t) && !t.sendersAlive
    ensures t.loops.Get(Trace).pc.Ended? && t.loops.Get(Log).pc.Ended?
  {
    var a1, s1 := LoopCanEnd(s, Trace);
    var a2;
    a2, t := LoopCanEnd(s1, Log);
    RunConcat(s, a1, a2);
    actions := a1 + a2;
  }

  lemma LoopsCanEnd(s: State) returns (actions: seq<Action>, t: State)
    requires Inv(s) && !s.sendersAlive
    ensures Run(s, actions) == Some(t) && Inv(t) && !t.sendersAlive && forall k: Kind :: t.loops.Get(k).pc.Ended?
  {
    var a1, s1 := TwoLoopsCanEnd(s);
    var a2;
    a2, t := LoopCanEnd(s1, Meter);
    RunConcat(s, a1, a2);
    actions := a1 + a2;
    assert t.loops.Get(Trace).pc.Ended? && t.loops.Get(Log).pc.Ended?;
  }

  /** Whatever has happened so far, there is a way to go on that ends all reporting tasks. */
  lemma CanFinish(actions: seq<Action>, s: State) returns (more: seq<Action>, t: State)
    requires Run(Begin(), actions) == Some(s)
    ensures Run(s, more) == Some(t) && AllEnded(t)
  {
    BeginInv();
    RunKeepsInv(Begin(), actions, s);
    more, t := CanEnd(s);
  }

  lemma CanEnd(s: State) returns (more: seq<Action>, t: State)
    requires Inv(s)
    ensures Run(s, more) == Some(t) && AllEnded(t)
  {
    var a1, s1 := WorkCanFinish(s);
    var s2 := Step(s1, DropSenders).value;
    StepKeepsInv(s1, DropSenders, s2);
    var a3;
    a3, t := LoopsCanEnd(s2);
    RunCons(s1, DropSenders, a3);
    RunConcat(s, a1, [DropSenders] + a3);
    more := a1 + ([DropSenders] + a3);
  }

  /** What each action needs; nothing else keeps it from happening. */
  predicate Possible(s: State, a: Action) {
    match a
    case Check(i, _) => s.producersAlive && i !in s.calls && i !in s.fates
    case Produce(i) => i in s.calls
    case DropProducers => s.producersAlive && s.calls == map[]
    case Consume => s.phase.Consuming? && s.queue != []
    case ConsumeNone => s.phase.Consuming? && s.queue == [] && !s.producersAlive
    case Shutdown => s.phase.Consuming?
    case StoreClosing => s.phase.Leaving?
    case FlushTake => s.phase.Flushing? && s.queue != []
    case FlushEnd => s.phase.Flushing? && s.queue == []
    case DropConsumer => s.phase.Finished? && s.consumerAlive
    case DropSenders => s.phase.Finished?
    case Receive(k, OpenWindow) => s.loops.Get(k).pc.AtTop? && !s.loops.Get(k).isClosed
    case Receive(k, Poll) => s.loops.Get(k).pc.InWindow? && (s.routed.chans.Get(k).queue != [] || !s.sendersAlive)
    case Receive(k, CloseWindow) => s.loops.Get(k).pc.InWindow?
    case Receive(k, EndLoop) => s.loops.Get(k).pc.AtTop? && s.loops.Get(k).isClosed
  }

  lemma EveryChance(s: State, a: Action)
    ensures Step(s, a).Some? <==> Possible(s, a)
  {
  }

  // ---- Without any shutdown ----

  predicate NoShutdown(actions: seq<Action>) {
    forall k :: 0 <= k < |actions| ==> actions[k] != Shutdown
  }

  /** Calls that were let through can produce while the work loop consumes. */
  lemma {:induction false} CallsCanEnd(s: State) returns (actions: seq<Action>, t: State)
    requires Inv(s) && s.phase.Consuming?
    ensures Run(s, actions) == Some(t) && NoShutdown(actions) && Inv(t) && t.phase.Consuming? && t.calls == map[]
    decreases |s.calls|
  {
    if s.calls == map[] {
      actions, t := [], s;
    } else {
      var i :| i in s.calls;
      var s' := Step(s, Produce(i)).value;
      StepKeepsInv(s, Produce(i), s');
      RemoveSize(s.calls, i);
      var rest;
      rest, t := CallsCanEnd(s');
      actions := Precede(s, Produce(i), s', rest, t);
    }
  }

  /** The work loop can take everything that is queued. */
  lemma {:induction false} QueueCanEmpty(s: State) returns (actions: seq<Action>, t: State)
    requires Inv(s) && s.phase.Consuming? && !s.producersAlive
    ensures Run(s, actions) == Some(t) && NoShutdown(actions) && Inv(t)
    ensures t.phase.Consuming? && !t.producersAlive && t.queue == []
    decreases |s.queue|
  {
    if s.queue == [] {
      actions, t := [], s;
    } else {
      var s' := Step(s, Consume).value;
      StepKeepsInv(s, Consume, s');
      var rest;
      rest, t := QueueCanEmpty(s');
      actions := [Consume] + rest;
      RunCons(s, Consume, rest);
    }
  }

  lemma ProducersCanGo(s: State) returns (actions: seq<Action>, t: State)
    requires Inv(s) && s.phase.Consuming? && s.calls == map[]
    ensures Run(s, actions) == Some(t) && NoShutdown(actions) && Inv(t) && t.phase.Consuming? && !t.producersAlive
  {
    if s.producersAlive {
      t := Step(s, DropProducers).value;
      StepKeepsInv(s, DropProducers, t);
      actions := [DropProducers];
      RunCons(s, DropProducers, actions[1..]);
      assert [DropProducers] + actions[1..] == actions;
    } else {
      actions, t := [], s;
    }
  }

  /** One possible action in front of a run without shutdown. */
  lemma Precede(s: State, a: Action, s': State, rest: seq<Action>, t: State) returns (actions: seq<Action>)
    requires Step(s, a) == Some(s') && a != Shutdown && Run(s', rest) == Some(t) && NoShutdown(rest)
    ensures Run(s, actions) == Some(t) && NoShutdown(actions)
  {
    RunCons(s, a, rest);
    actions := [a] + rest;
  }

  lemma EmptyFlush(s: State) returns (actions: seq<Action>, t: State)
    requires Inv(s) && s.phase.Flushing? && !s.producersAlive && s.queue == []
    ensures Run(s, actions) == Some(t) && NoShutdown(actions) && Inv(t) && t.phase == Finished(false)
  {
    t := Step(s, FlushEnd).value;
    StepKeepsInv(s, FlushEnd, t);
    var none: seq<Action> := [];
    actions := Precede(s, FlushEnd, t, none, t);
  }

  lemma EmptyLeave(s: State) returns (actions: seq<Action>, t: State)
    requires Inv(s) && s.phase.Leaving? && !s.producersAlive && s.queue == []
    ensures Run(s, actions) == Some(t) && NoShutdown(actions) && Inv(t) && t.phase == Finished(false)
  {
    var s' := Step(s, StoreClosing).value;
    StepKeepsInv(s, StoreClosing, s');
    var rest;
    rest, t := EmptyFlush(s');
    actions := Precede(s, StoreClosing, s', rest, t);
  }

  /** With the producers gone and the queue empty, the work loop leaves by itself, and the flush fails. */
  lemma LoopCanLeave(s: State) returns (actions: seq<Action>, t: State)
    requires Inv(s) && s.phase.Consuming? && !s.producersAlive && s.queue == []
    ensures Run(s, actions) == Some(t) && NoShutdown(actions) && Inv(t) && t.phase == Finished(false)
  {
    var s' := Step(s, ConsumeNone).value;
    StepKeepsInv(s, ConsumeNone, s');
    var rest;
    rest, t := EmptyLeave(s');
    actions := Precede(s, ConsumeNone, s', rest, t);
  }

  /**
   While it consumes, the pipeline can also come to its end without shutdown: the calls that run end, the
   producers go, and everything produced is taken before the flush reports the error.
   */
  lemma CanDisconnect(actions: seq<Action>, s: State) returns (more: seq<Action>, t: State)
    requires Run(Begin(), actions) == Some(s) && s.phase.Consuming?
    ensures Run(s, more) == Some(t) && NoShutdown(more) && t.phase == Finished(false) && t.taken == t.accepted
  {
    Reached(actions, s);
    more, t := Disconnects(s);
  }

  lemma Drained(s: State) returns (more: seq<Action>, t: State)
    requires Inv(s) && s.phase.Consuming? && !s.producersAlive
    ensures Run(s, more) == Some(t) && NoShutdown(more) && Inv(t) && t.phase == Finished(false)
  {
    var a1, s1 := QueueCanEmpty(s);
    var a2;
    a2, t := LoopCanLeave(s1);
    RunConcat(s, a1, a2);
    more := a1 + a2;
  }

  lemma Disconnects(s: State) returns (more: seq<Action>, t: State)
    requires Inv(s) && s.phase.Consuming?
    ensures Run(s, more) == Some(t) && NoShutdown(more) && t.phase == Finished(false) && t.taken == t.accepted
  {
    var a1, s1 := CallsCanEnd(s);
    var a2, s2 := ProducersCanGo(s1);
    var a3;
    a3, t := Drained(s2);
    RunConcat(s1, a2, a3);
    RunConcat(s, a1, a2 + a3);
    more := a1 + (a2 + a3);
  }

  // ---- Late calls, and windows ----

  /** A report call that checks after the flag was stored ends in silence. */
  lemma LateCheckIsRefused(x: CollectItem) returns (actions: seq<Action>, t: State)
    ensures Run(Begin(), actions) == Some(t) && Check(0, x) in actions
    ensures 0 in t.fates && t.fates[0].Refused? && t.failed == [] && t.accepted == []
  {
    var s1 := Step(Begin(), Shutdown).value;
    var s2 := Step(s1, StoreClosing).value;
    t := Step(s2, Check(0, x)).value;
    var none: seq<Action> := [];
    RunCons(s2, Check(0, x), none);
    RunCons(s1, StoreClosing, [Check(0, x)] + none);
    RunCons(Begin(), Shutdown, [StoreClosing] + ([Check(0, x)] + none));
    actions := [Shutdown] + ([StoreClosing] + ([Check(0, x)] + none));
    assert actions[2] == Check(0, x);
  }

  /** One that checked before, but produces after the consumer was dropped, hands its item to the error handler. */
  lemma LateProduceFails(x: CollectItem) returns (actions: seq<Action>, t: State)
    ensures Run(Begin(), actions) == Some(t) && |t.failed| == 1 && t.failed[0].item == x && t.accepted == []
  {
    var s1 := Step(Begin(), Check(0, x)).value;
    var s2 := Step(s1, Shutdown).value;
    var s3 := Step(s2, StoreClosing).value;
    var s4 := Step(s3, FlushEnd).value;
    var s5 := Step(s4, DropConsumer).value;
    t := Step(s5, Produce(0)).value;
    var none: seq<Action> := [];
    var r5 := [Produce(0)] + none;
    var r4 := [DropConsumer] + r5;
    var r3 := [FlushEnd] + r4;
    var r2 := [StoreClosing] + r3;
    var r1 := [Shutdown] + r2;
    RunCons(s5, Produce(0), none);
    RunCons(s4, DropConsumer, r5);
    RunCons(s3, FlushEnd, r4);
    RunCons(s2, StoreClosing, r3);
    RunCons(s1, Shutdown, r2);
    RunCons(Begin(), Check(0, x), r1);
    actions := [Check(0, x)] + r1;
  }

  /** A window can be given up at any time, and the next one goes on with the next item. */
  lemma WindowCanEnd(s: State, k: Kind) returns (t: State)
    requires s.loops.Get(k).pc.AtTop? && !s.loops.Get(k).isClosed && |s.routed.chans.Get(k).queue| > 0
    ensures Run(s, [Receive(k, OpenWindow), Receive(k, Poll), Receive(k, CloseWindow)]) == Some(t)
    ensures t.loops.Get(k).pc.AtTop? && t.loops.Get(k).isClosed == s.loops.Get(k).isClosed
    ensures t.loops.Get(k).windows == s.loops.Get(k).windows + [[s.routed.chans.Get(k).queue[0]]]
    ensures t.routed.chans.Get(k).queue == s.routed.chans.Get(k).queue[1..]
  {
    var s1 := Step(s, Receive(k, OpenWindow)).value;
    var s2 := Step(s1, Receive(k, Poll)).value;
    t := Step(s2, Receive(k, CloseWindow)).value;
    ReceiveMoves(s, k, OpenWindow, s1);
    ReceiveMoves(s1, k, Poll, s2);
    ReceiveMoves(s2, k, CloseWindow, t);
    var before, x := s.loops.Get(k).windows, s.routed.chans.Get(k).queue[0];
    assert s1.loops.Get(k).windows == before + [[]] && (before + [[]])[..|before|] == before;
    assert (before + [[]])[|before|] + [x] == [x];
    var none: seq<Action> := [];
    RunCons(s2, Receive(k, CloseWindow), none);
    RunCons(s1, Receive(k, Poll), [Receive(k, CloseWindow)] + none);
    RunCons(s, Receive(k, OpenWindow), [Receive(k, Poll)] + ([Receive(k, CloseWindow)] + none));
    assert [Receive(k, OpenWindow), Receive(k, Poll), Receive(k, CloseWindow)]
        == [Receive(k, OpenWindow)] + ([Receive(k, Poll)] + ([Receive(k, CloseWindow)] + none));
  }

  /** Once its channel is finished, a receive loop opens no window any more. */
  lemma NoWindowAfterEnd(s: State, k: Kind)
    requires s.loops.Get(k).isClosed
    ensures Step(s, Receive(k, OpenWindow)).None?
  {
  }
}
