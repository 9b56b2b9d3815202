/**
 The closing of spans, taken apart into lock-guarded actions and interleaved in any way: any number of
 threads close spans at the same time, others drop asynchronous spans, and the owner of the context goes
 on opening spans, waits, or drops the context.

 Plain drop pops the active stack and pushes the entry. prepare_for_async checks the top of the stack,
 adds to the wait group, pops, and pushes an empty entry, and only then hands out the asynchronous span.
 Dropping that fills the entry and afterwards tells the wait group. wait consumes the context, which is
 dropped, and reported, once it returns.

 whole is a history variable: the state after the same operations, each done in one piece, where a span
 counts as closed from the moment it is popped.
 */
module AsyncProtocol {
  import opened Wrappers
  import opened Maps
  import opened SpanStack
  import opened TraceContext
  import opened SegmentRuns
  import opened SegmentReport
  import opened SpanLife
  import WG = WaitGroupModel

  /** How far the thread that closes a span has come; a span that is not being closed has none. */
  datatype Pc = Checked | Counted | Dropping(a: ActiveSpan) | Popped(a: ActiveSpan)

  datatype Owner = Using | Waiting | Gone(segment: SegmentObject)

  /** filled holds the asynchronous spans whose entry is filled but which have not called done yet. */
  datatype Fine = Fine(
    sys: System,
    pcs: map<nat, Pc>,
    group: WG.Group,
    filled: set<nat>,
    owner: Owner,
    whole: System)

  datatype Action =
    | User(e: Event)
    | DropPop(u: nat) | DropPush(u: nat)
    | PrepareCheck(u: nat) | PrepareAdd(u: nat) | PreparePop(u: nat) | PreparePush(u: nat)
    | FillEntry(u: nat) | CallDone(u: nat)
    | CallWait | WaitLock | WaitWake | WaitDrop
    | DropContext

  datatype Site = NotActive | NoEntrySpan | ContextDropped | Unreachable | Unfinished | CountUnderflow

  datatype Outcome = Disabled | Panics(site: Site) | To(next: Fine)

  const WAITER: nat := 0

  function Begin(c: Context): Fine {
    Fine(Start(c), map[], WG.Group(0, map[]), {}, Using, Start(c))
  }

  function Pop(s: System): System
    requires s.ctx.stack.active != []
  {
    WithStack(s, s.ctx.stack.(active := s.ctx.stack.active[..|s.ctx.stack.active| - 1]))
  }

  function Push(s: System, f: FinalizeSpan): System {
    WithStack(s, s.ctx.stack.(finalized := s.ctx.stack.finalized + [f]))
  }

  /** The stack is kept alive by the context and by every Span, not by AsyncSpans. */
  predicate StackAlive(f: Fine) {
    !f.owner.Gone? || f.sys.spans != map[]
  }

  /** Dropping the context takes the closed spans and reports them. */
  function DropAndReport(f: Fine): Outcome {
    match Segment(f.sys.ctx)
    case None => Panics(Unfinished)
    case Some(seg) => To(f.(owner := Gone(seg), sys := WithStack(f.sys, f.sys.ctx.stack.(finalized := []))))
  }

  function GroupAct(f: Fine, a: WG.Action): Outcome {
    match WG.Act(f.group, a)
    case None => Disabled
    case Some(g) => To(f.(group := g))
  }

  function UserAct(f: Fine, e: Event): Outcome {
    if e.DropSpan? || e.Prepare? || e.DropAsync? then Disabled
    else if e.EditSpan? && e.uid in f.pcs then Disabled
    else if !e.EditSpan? && !e.EditAsync? && !f.owner.Using? then Disabled
    else
      match Step(f.sys, e)
      case Some(s) => To(f.(sys := s))
      case None => if e.EditSpan? || e.EditAsync? then Disabled else Panics(NoEntrySpan)
  }

  /** The thread closing span u pops the stack, which panics when u is not the innermost open span. */
  function PopAct(f: Fine, u: nat, plain: bool): Outcome {
    if !IsTop(f.sys.ctx.stack.active, u) then Panics(NotActive)
    else
      var a := Top(f.sys);
      To(f.(sys := Pop(f.sys), pcs := f.pcs[u := if plain then Dropping(a) else Popped(a)]))
  }

  predicate At(f: Fine, u: nat, pc: Pc) {
    u in f.sys.spans && u in f.pcs && f.pcs[u] == pc
  }

  function Do(f: Fine, a: Action): Outcome {
    var s := f.sys;
    match a
    case User(e) => UserAct(f, e)
    case DropPop(u) =>
      if u !in s.spans || u in f.pcs then Disabled else PopAct(f, u, true)
    case DropPush(u) =>
      if u !in s.spans || u !in f.pcs || !f.pcs[u].Dropping? then Disabled
      else To(f.(sys := Push(s, ClosedEntry(f.pcs[u].a, u, Some(s.spans[u]))).(spans := s.spans - {u}),
                 pcs := f.pcs - {u}))
    case PrepareCheck(u) =>
      if u !in s.spans || u in f.pcs then Disabled
      else if !IsTop(s.ctx.stack.active, u) then Panics(NotActive)
      else To(f.(pcs := f.pcs[u := Checked]))
    case PrepareAdd(u) =>
      if !At(f, u, Checked) then Disabled
      else To(f.(pcs := f.pcs[u := Counted], group := f.group.(count := f.group.count + 1)))
    case PreparePop(u) =>
      if !At(f, u, Counted) then Disabled else PopAct(f, u, false)
    case PreparePush(u) =>
      if u !in s.spans || u !in f.pcs || !f.pcs[u].Popped? then Disabled
      else To(f.(sys := Push(s, ClosedEntry(f.pcs[u].a, u, None))
                        .(spans := s.spans - {u}, asyncs := s.asyncs[u := s.spans[u]], pending := s.pending + 1),
                 pcs := f.pcs - {u}))
    case FillEntry(u) =>
      if u !in s.asyncs then Disabled
      else if !StackAlive(f) then Panics(ContextDropped)
      else (
        match Step(s, DropAsync(u))
        case None => Panics(Unreachable)
        case Some(s') => To(f.(sys := s', filled := f.filled + {u}))
      )
    case CallDone(u) =>
      if u !in f.filled then Disabled
      else (
        match WG.Act(f.group, WG.Done)
        case None => Panics(CountUnderflow)
        case Some(g) => To(f.(group := g, filled := f.filled - {u}))
      )
    case CallWait =>
      if !f.owner.Using? then Disabled
      else
        var o := GroupAct(f, WG.Arrive(WAITER));
        if o.To? then To(o.next.(owner := Waiting)) else o
    case WaitLock => GroupAct(f, WG.Lock(WAITER))
    case WaitWake => GroupAct(f, WG.WakeSpuriously(WAITER))
    case WaitDrop =>
      if !f.owner.Waiting? || WAITER !in f.group.waiters || !f.group.waiters[WAITER].Returned? then Disabled
      else DropAndReport(f)
    case DropContext => if f.owner.Using? then DropAndReport(f) else Disabled
  }

  /** The whole operation that takes effect with an action, if one does. */
  function Effect(a: Action): Option<Event> {
    match a
    case User(e) => Some(e)
    case DropPop(u) => Some(DropSpan(u))
    case PreparePop(u) => Some(Prepare(u))
    case FillEntry(u) => Some(DropAsync(u))
    case _ => None
  }

  function Follow(s: System, e: Event): System {
    match Step(s, e) case Some(s') => s' case None => s
  }

  function Act(f: Fine, a: Action): Outcome {
    match Do(f, a)
    case To(g) => To(g.(whole := match Effect(a) case Some(e) => Follow(f.whole, e) case None => f.whole))
    case o => o
  }

  function RunAll(f: Fine, actions: seq<Action>): Option<Fine>
    decreases |actions|
  {
    if actions == [] then Some(f)
    else
      match Act(f, actions[0])
      case To(f') => RunAll(f', actions[1..])
      case _ => None
  }

  lemma {:induction false} RunAllConcat(f: Fine, xs: seq<Action>, ys: seq<Action>)
    ensures RunAll(f, xs + ys) == match RunAll(f, xs) case None => None case Some(g) => RunAll(g, ys)
    decreases |xs|
  {
    if xs == [] {
      assert xs + ys == ys;
    } else {
      assert (xs + ys)[0] == xs[0] && (xs + ys)[1..] == xs[1..] + ys;
      if Act(f, xs[0]).To? {
        RunAllConcat(Act(f, xs[0]).next, xs[1..], ys);
      }
    }
  }

  lemma RunAllChain(f: Fine, xs: seq<Action>, g: Fine, ys: seq<Action>, h: Fine)
    requires RunAll(f, xs) == Some(g) && RunAll(g, ys) == Some(h)
    ensures RunAll(f, xs + ys) == Some(h)
  {
    RunAllConcat(f, xs, ys);
  }

  lemma RunAllCons(f: Fine, a: Action, rest: seq<Action>)
    requires Act(f, a).To?
    ensures RunAll(f, [a] + rest) == RunAll(Act(f, a).next, rest)
  {
    assert ([a] + rest)[0] == a && ([a] + rest)[1..] == rest;
  }

  // ---- What holds of handles, threads and counter in every run ----

  /** Span u was popped, and its entry not pushed yet. */
  predicate Late(f: Fine, u: nat) {
    u in f.pcs && (f.pcs[u].Dropping? || f.pcs[u].Popped?)
  }

  predicate AwaitsAsync(f: Fine, u: nat) {
    u in f.pcs && f.pcs[u].Popped?
  }

  /** The entry that the thread closing u is going to push. */
  function LateEntry(f: Fine, u: nat): FinalizeSpan
    requires Late(f, u) && u in f.sys.spans
  {
    ClosedEntry(f.pcs[u].a, u, if f.pcs[u].Dropping? then Some(f.sys.spans[u]) else None)
  }

  ghost predicate PcsOk(f: Fine) {
    forall u :: u in f.pcs ==> u in f.sys.spans && (Late(f, u) ==> f.pcs[u].a.uid == u)
  }

  /** A uid has one handle: a Span, an AsyncSpan, or an AsyncSpan that is just being dropped. */
  ghost predicate OneHandle(f: Fine) {
    && f.sys.spans.Keys !! f.sys.asyncs.Keys !! f.filled
    && (forall u :: u in f.sys.spans || u in f.sys.asyncs || u in f.filled ==> u < f.sys.ctx.nextUid)
  }

  /** The open spans are those with a Span that was not popped yet. */
  ghost predicate StackOk(f: Fine) {
    var active := f.sys.ctx.stack.active;
    && (forall j, k :: 0 <= j < k < |active| ==> active[j].uid < active[k].uid)
    && (forall u: nat :: IsOpen(active, u) <==> u in f.sys.spans && !Late(f, u))
  }

  predicate Counts(pc: Pc) {
    pc.Counted? || pc.Popped?
  }

  /** The spans whose preparing thread has added to the wait group. */
  function Counting(pcs: map<nat, Pc>): set<nat> {
    set u | u in pcs && Counts(pcs[u])
  }

  /** Each add of a prepare is matched by an asynchronous span that has not called done yet. */
  ghost predicate Balanced(f: Fine) {
    f.group.count == |f.sys.asyncs| + |f.filled| + |Counting(f.pcs)|
  }

  ghost predicate WaiterOk(f: Fine) {
    && WG.NoLostWakeup(f.group)
    && (f.owner.Using? ==> WAITER !in f.group.waiters)
    && (f.owner.Waiting? ==> WAITER in f.group.waiters)
  }

  ghost predicate Tidy(f: Fine) {
    PcsOk(f) && OneHandle(f) && StackOk(f) && Balanced(f) && WaiterOk(f)
  }

  predicate IsPop(a: Action) {
    a.DropPop? || a.PreparePop?
  }

  predicate IsPush(a: Action) {
    a.DropPush? || a.PreparePush?
  }

  predicate IsReport(a: Action) {
    a.WaitDrop? || a.DropContext?
  }

  lemma ActKeepsPcs(f: Fine, a: Action)
    requires PcsOk(f) && Act(f, a).To?
    ensures PcsOk(Act(f, a).next)
  {
  }

  lemma UserKeepsHandles(f: Fine, e: Event)
    requires OneHandle(f) && Act(f, User(e)).To?
    ensures OneHandle(Act(f, User(e)).next)
  {
  }

  lemma FillActs(f: Fine, u: nat)
    requires Act(f, FillEntry(u)).To?
    ensures u in f.sys.asyncs
    ensures var f' := Act(f, FillEntry(u)).next;
            && f'.sys.asyncs == f.sys.asyncs - {u} && f'.filled == f.filled + {u} && f'.sys.spans == f.sys.spans
            && f'.sys.ctx.nextUid == f.sys.ctx.nextUid && f'.pcs == f.pcs && f'.group == f.group
            && f'.owner == f.owner && f'.sys.ctx.stack.active == f.sys.ctx.stack.active
    ensures Step(f.sys, DropAsync(u)) == Some(Act(f, FillEntry(u)).next.sys)
  {
  }

  lemma ActKeepsHandles(f: Fine, a: Action)
    requires OneHandle(f) && Act(f, a).To?
    ensures OneHandle(Act(f, a).next)
  {
    if a.User? {
      UserKeepsHandles(f, a.e);
    } else if a.FillEntry? {
      FillActs(f, a.u);
    }
  }

  lemma PopMoves(active: seq<ActiveSpan>)
    requires active != [] && forall j, k :: 0 <= j < k < |active| ==> active[j].uid < active[k].uid
    ensures var n := |active| - 1;
            forall u: nat :: IsOpen(active[..n], u) <==> IsOpen(active, u) && u != active[n].uid
  {
    var n := |active| - 1;
    assert active == active[..n] + [active[n]];
    OpenMoves(Stack(active[..n], []), active[n]);
    assert !IsOpen(active[..n], active[n].uid);
  }

  lemma PopActs(f: Fine, a: Action)
    requires IsPop(a) && Act(f, a).To?
    ensures f.sys.ctx.stack.active != [] && Top(f.sys).uid == a.u && a.u in f.sys.spans
    ensures Act(f, a).next.sys == Pop(f.sys)
    ensures Act(f, a).next.pcs == f.pcs[a.u := if a.DropPop? then Dropping(Top(f.sys)) else Popped(Top(f.sys))]
    ensures Act(f, a).next.owner == f.owner && Act(f, a).next.group == f.group && Act(f, a).next.filled == f.filled
    ensures a.DropPop? ==> a.u !in f.pcs
    ensures a.PreparePop? ==> a.u in f.pcs && f.pcs[a.u] == Counted
  {
  }

  lemma PoppedStack(f: Fine, f': Fine, u: nat)
    requires StackOk(f) && f.sys.ctx.stack.active != [] && Top(f.sys).uid == u
    requires f'.sys == Pop(f.sys) && Late(f', u) && f'.pcs.Keys == f.pcs.Keys + {u}
    requires forall v :: v in f.pcs && v != u ==> f'.pcs[v] == f.pcs[v]
    ensures StackOk(f')
  {
    PopMoves(f.sys.ctx.stack.active);
    assert forall v: nat :: v != u ==> (Late(f', v) <==> Late(f, v));
  }

  lemma PopKeepsStack(f: Fine, a: Action)
    requires StackOk(f) && IsPop(a) && Act(f, a).To?
    ensures StackOk(Act(f, a).next)
  {
    PopActs(f, a);
    PoppedStack(f, Act(f, a).next, a.u);
  }

  lemma CreateKeepsStack(f: Fine, e: Event)
    requires PcsOk(f) && OneHandle(f) && StackOk(f) && Creates(e) && Act(f, User(e)).To?
    ensures StackOk(Act(f, User(e)).next)
  {
    var active, top := f.sys.ctx.stack.active, ActiveSpan(f.sys.ctx.nextUid, f.sys.ctx.nextSpanId, None);
    OpenMoves(f.sys.ctx.stack, top);
    forall k | 0 <= k < |active| ensures active[k].uid < top.uid {
      assert IsOpen(active, active[k].uid);
    }
    assert Act(f, User(e)).next.sys.ctx.stack.active == active + [top];
  }

  lemma ContinueActs(f: Fine, e: Event)
    requires e.Continue? && Act(f, User(e)).To?
    ensures var f' := Act(f, User(e)).next;
            && f'.pcs == f.pcs && f'.sys.spans == f.sys.spans
            && f'.sys.ctx == Continued(f.sys.ctx, e.snapshot)
  {
  }

  lemma ContinuedStack(f: Fine, f': Fine, snapshot: ContextSnapshot)
    requires StackOk(f) && f'.pcs == f.pcs && f'.sys.spans == f.sys.spans && f'.sys.ctx == Continued(f.sys.ctx, snapshot)
    ensures StackOk(f')
  {
    var ref := CrossThreadRef(f.sys.ctx, snapshot);
    RefMoves(f.sys.ctx.stack.active, ref);
    var active := WithRef(f.sys.ctx.stack.active, ref);
    assert forall k :: 0 <= k < |active| ==> active[k].uid == f.sys.ctx.stack.active[k].uid;
    assert forall u: nat :: Late(f', u) <==> Late(f, u);
  }

  lemma ContinueKeepsStack(f: Fine, e: Event)
    requires StackOk(f) && e.Continue? && Act(f, User(e)).To?
    ensures StackOk(Act(f, User(e)).next)
  {
    ContinueActs(f, e);
    ContinuedStack(f, Act(f, User(e)).next, e.snapshot);
  }

  lemma OtherKeepsStack(f: Fine, a: Action)
    requires StackOk(f) && !IsPop(a) && !IsPush(a) && Act(f, a).To?
    requires a.User? ==> !Creates(a.e) && !a.e.Continue?
    ensures StackOk(Act(f, a).next)
  {
    var f' := Act(f, a).next;
    assert f'.sys.ctx.stack.active == f.sys.ctx.stack.active && f'.sys.spans.Keys == f.sys.spans.Keys;
    assert forall u: nat :: Late(f', u) <==> Late(f, u);
  }

  lemma PushedStack(f: Fine, f': Fine, u: nat)
    requires StackOk(f) && Late(f, u) && f'.sys.ctx.stack.active == f.sys.ctx.stack.active
    requires f'.pcs == f.pcs - {u} && f'.sys.spans == f.sys.spans - {u}
    ensures StackOk(f')
  {
    assert forall v: nat :: v != u ==> (Late(f', v) <==> Late(f, v));
  }

  lemma ActKeepsStack(f: Fine, a: Action)
    requires PcsOk(f) && OneHandle(f) && StackOk(f) && Act(f, a).To?
    ensures StackOk(Act(f, a).next)
  {
    if IsPop(a) {
      PopKeepsStack(f, a);
    } else if IsPush(a) {
      PushActs(f, a);
      PushedStack(f, Act(f, a).next, a.u);
    } else if a.User? && Creates(a.e) {
      CreateKeepsStack(f, a.e);
    } else if a.User? && a.e.Continue? {
      ContinueKeepsStack(f, a.e);
    } else {
      OtherKeepsStack(f, a);
    }
  }

  lemma CountingMoves(pcs: map<nat, Pc>, u: nat, pc: Pc)
    ensures Counting(pcs[u := pc]) == if Counts(pc) then Counting(pcs) + {u} else Counting(pcs) - {u}
    ensures Counting(pcs - {u}) == Counting(pcs) - {u}
  {
  }

  lemma MovedSizes<T>(m: map<nat, T>, done: set<nat>, u: nat)
    requires u in m && u !in done
    ensures |m - {u}| == |m| - 1 && |done + {u}| == |done| + 1
  {
    RemoveSize(m, u);
  }

  lemma FilledBalance(f: Fine, f': Fine, u: nat)
    requires OneHandle(f) && Balanced(f) && u in f.sys.asyncs
    requires f'.sys.asyncs == f.sys.asyncs - {u} && f'.filled == f.filled + {u}
    requires f'.pcs == f.pcs && f'.group == f.group
    ensures Balanced(f')
  {
    MovedSizes(f.sys.asyncs, f.filled, u);
  }

  lemma UserKeepsBalance(f: Fine, e: Event)
    requires Balanced(f) && Act(f, User(e)).To?
    ensures Balanced(Act(f, User(e)).next)
  {
    if e.EditAsync? {
      assert Act(f, User(e)).next.sys.asyncs.Keys == f.sys.asyncs.Keys;
    }
  }

  lemma PushedBalance(f: Fine, f': Fine, u: nat, obj: SpanObject)
    requires OneHandle(f) && Balanced(f) && u in f.sys.spans && AwaitsAsync(f, u)
    requires f'.sys.asyncs == f.sys.asyncs[u := obj] && f'.filled == f.filled
    requires f'.pcs == f.pcs - {u} && f'.group == f.group
    ensures Balanced(f')
  {
    CountingMoves(f.pcs, u, Checked);
    assert u in Counting(f.pcs) && u !in f.sys.asyncs;
  }

  lemma PushActs(f: Fine, a: Action)
    requires IsPush(a) && Act(f, a).To?
    ensures Late(f, a.u) && a.u in f.sys.spans && (a.PreparePush? <==> AwaitsAsync(f, a.u))
    ensures var f' := Act(f, a).next;
            && f'.pcs == f.pcs - {a.u} && f'.group == f.group && f'.filled == f.filled && f'.owner == f.owner
            && f'.sys.spans == f.sys.spans - {a.u}
            && f'.sys.asyncs == (if a.PreparePush? then f.sys.asyncs[a.u := f.sys.spans[a.u]] else f.sys.asyncs)
            && f'.sys.ctx.stack.active == f.sys.ctx.stack.active
            && f'.sys.ctx.stack.finalized == f.sys.ctx.stack.finalized + [LateEntry(f, a.u)]
  {
  }

  /** Only the positions of the closing threads and the counter change. */
  predicate OnlyPcs(a: Action) {
    IsPop(a) || a.PrepareCheck? || a.PrepareAdd?
  }

  lemma PcActs(f: Fine, a: Action)
    requires OnlyPcs(a) && Act(f, a).To?
    ensures var f' := Act(f, a).next;
            && f'.sys.asyncs == f.sys.asyncs && f'.filled == f.filled
            && a.u in f'.pcs && f'.pcs == f.pcs[a.u := f'.pcs[a.u]]
            && f'.group.count == f.group.count + (if a.PrepareAdd? then 1 else 0)
            && (a.PrepareAdd? ==> a.u !in Counting(f.pcs) && a.u in Counting(f'.pcs))
            && (!a.PrepareAdd? ==> (a.u in Counting(f.pcs) <==> a.u in Counting(f'.pcs)))
  {
  }

  lemma PcBalance(f: Fine, f': Fine, u: nat)
    requires Balanced(f) && f'.sys.asyncs == f.sys.asyncs && f'.filled == f.filled
    requires u in f'.pcs && f'.pcs == f.pcs[u := f'.pcs[u]]
    requires u in Counting(f.pcs) ==> u in Counting(f'.pcs)
    requires f'.group.count == f.group.count + (if u in Counting(f'.pcs) && u !in Counting(f.pcs) then 1 else 0)
    ensures Balanced(f')
  {
    CountingMoves(f.pcs, u, f'.pcs[u]);
    if u in Counting(f.pcs) || u !in Counting(f'.pcs) {
      assert Counting(f'.pcs) == Counting(f.pcs);
    } else {
      assert Counting(f'.pcs) == Counting(f.pcs) + {u};
    }
  }

  lemma DropPushBalance(f: Fine, f': Fine, u: nat)
    requires Balanced(f) && Late(f, u) && !AwaitsAsync(f, u)
    requires f'.sys.asyncs == f.sys.asyncs && f'.filled == f.filled && f'.pcs == f.pcs - {u} && f'.group == f.group
    ensures Balanced(f')
  {
    CountingMoves(f.pcs, u, Checked);
    assert Counting(f'.pcs) == Counting(f.pcs);
  }

  lemma DoneBalance(f: Fine, u: nat)
    requires Balanced(f) && Act(f, CallDone(u)).To?
    ensures Balanced(Act(f, CallDone(u)).next)
  {
  }

  lemma OtherBalance(f: Fine, a: Action)
    requires Balanced(f) && Act(f, a).To? && (a.CallWait? || a.WaitLock? || a.WaitWake? || IsReport(a))
    ensures Balanced(Act(f, a).next)
  {
  }

  lemma ActKeepsBalance(f: Fine, a: Action)
    requires OneHandle(f) && Balanced(f) && Act(f, a).To?
    ensures Balanced(Act(f, a).next)
  {
    var f' := Act(f, a).next;
    if a.User? {
      UserKeepsBalance(f, a.e);
    } else if a.FillEntry? {
      FillActs(f, a.u);
      FilledBalance(f, f', a.u);
    } else if a.PreparePush? {
      PushActs(f, a);
      PushedBalance(f, f', a.u, f.sys.spans[a.u]);
    } else if a.DropPush? {
      PushActs(f, a);
      DropPushBalance(f, f', a.u);
    } else if OnlyPcs(a) {
      PcActs(f, a);
      PcBalance(f, f', a.u);
    } else if a.CallDone? {
      DoneBalance(f, a.u);
    } else {
      OtherBalance(f, a);
    }
  }

  lemma ActKeepsWaiter(f: Fine, a: Action)
    requires WaiterOk(f) && Act(f, a).To?
    ensures WaiterOk(Act(f, a).next)
  {
  }

  lemma ActKeepsTidy(f: Fine, a: Action)
    requires Tidy(f) && Act(f, a).To?
    ensures Tidy(Act(f, a).next)
  {
    ActKeepsPcs(f, a);
    ActKeepsHandles(f, a);
    ActKeepsStack(f, a);
    ActKeepsBalance(f, a);
    ActKeepsWaiter(f, a);
  }

  // ---- How the state relates to the run of whole operations ----

  ghost predicate SameContext(f: Fine) {
    && f.sys.ctx == f.whole.ctx.(stack := f.sys.ctx.stack)
    && f.sys.ctx.stack.active == f.whole.ctx.stack.active
    && f.sys.parents == f.whole.parents
  }

  ghost predicate SameSpans(f: Fine) {
    && (forall u: nat :: u in f.whole.spans <==> u in f.sys.spans && !Late(f, u))
    && (forall u: nat :: u in f.whole.spans && u in f.sys.spans ==> f.whole.spans[u] == f.sys.spans[u])
  }

  ghost predicate SameAsyncs(f: Fine) {
    && (forall u: nat :: u in f.whole.asyncs <==> u in f.sys.asyncs || AwaitsAsync(f, u))
    && (forall u: nat :: u in f.whole.asyncs && u in f.sys.asyncs ==> f.whole.asyncs[u] == f.sys.asyncs[u])
    && (forall u: nat :: u in f.whole.asyncs && AwaitsAsync(f, u) && u in f.sys.spans ==> f.whole.asyncs[u] == f.sys.spans[u])
  }

  ghost predicate Distinct(fin: seq<FinalizeSpan>) {
    forall i, j :: 0 <= i < j < |fin| ==> fin[i].uid != fin[j].uid
  }

  /** The entries still to come. */
  function LateEntries(f: Fine): map<nat, FinalizeSpan> {
    map u | u in f.pcs && Late(f, u) && u in f.sys.spans :: LateEntry(f, u)
  }

  /** The entries in fin and the late ones together are those in all, in any order. */
  ghost predicate Agree(fin: seq<FinalizeSpan>, all: seq<FinalizeSpan>, late: map<nat, FinalizeSpan>) {
    && Distinct(fin)
    && (forall u: nat :: EntryOf(fin, u) == if u in late then None else EntryOf(all, u))
    && (forall u: nat :: u in late ==> EntryOf(all, u) == Some(late[u]) && late[u].uid == u)
  }

  /** The pushed entries are those of the whole operations; the others are still to come. */
  ghost predicate SameEntries(f: Fine) {
    Agree(f.sys.ctx.stack.finalized, f.whole.ctx.stack.finalized, LateEntries(f))
  }

  ghost predicate Linked(c: Context, f: Fine) {
    ReachableFrom(c, f.whole) && SameContext(f) && SameSpans(f) && SameAsyncs(f) && SameEntries(f)
  }

  // ---- Every action is a whole operation, or none ----

  lemma LateNotWhole(c: Context, f: Fine, u: nat)
    requires Linked(c, f)
    ensures u in f.whole.spans ==> EntryOf(f.whole.ctx.stack.finalized, u) == None
    ensures IsTop(f.whole.ctx.stack.active, u) ==> u in f.whole.spans
  {
    ReachableLocated(f.whole, u);
  }

  lemma FillFound(c: Context, f: Fine, u: nat)
    requires Linked(c, f) && OneHandle(f) && PcsOk(f) && u in f.sys.asyncs
    ensures EntryOf(f.sys.ctx.stack.finalized, u).Some?
    ensures EntryOf(f.sys.ctx.stack.finalized, u) == EntryOf(f.whole.ctx.stack.finalized, u)
    ensures Step(f.sys, DropAsync(u)).Some? && Step(f.whole, DropAsync(u)).Some?
  {
    FillEnabled(f.whole, u);
  }

  lemma TopCloses(s: System, u: nat)
    requires u in s.spans && IsTop(s.ctx.stack.active, u)
    ensures Step(s, DropSpan(u)).Some? && Step(s, Prepare(u)).Some?
  {
  }

  lemma PopEffect(c: Context, f: Fine, a: Action)
    requires Linked(c, f) && IsPop(a) && Act(f, a).To?
    ensures Step(f.whole, Effect(a).value).Some?
  {
    PopActs(f, a);
    TopCloses(f.whole, a.u);
  }

  lemma UserEffect(c: Context, f: Fine, e: Event)
    requires Linked(c, f) && Act(f, User(e)).To?
    ensures Step(f.whole, e).Some?
  {
  }

  lemma EffectWorks(c: Context, f: Fine, a: Action)
    requires Tidy(f) && Linked(c, f) && Act(f, a).To? && Effect(a).Some?
    ensures Step(f.whole, Effect(a).value).Some?
  {
    if a.User? {
      UserEffect(c, f, a.e);
    } else if a.FillEntry? {
      FillActs(f, a.u);
      FillFound(c, f, a.u);
    } else {
      PopEffect(c, f, a);
    }
  }

  /**
   As long as the context is not dropped, every action is one whole operation, or leaves the whole state
   as it is. Closing a span takes effect when it is popped.
   */
  lemma ActIsWhole(c: Context, f: Fine, a: Action)
    requires Tidy(f) && Linked(c, f) && Act(f, a).To?
    ensures match Effect(a)
            case Some(e) => Step(f.whole, e) == Some(Act(f, a).next.whole)
            case None => Act(f, a).next.whole == f.whole
  {
    if Effect(a).Some? {
      EffectWorks(c, f, a);
    }
  }

  // ---- The relation is kept ----

  ghost predicate Same(f: Fine) {
    SameContext(f) && SameSpans(f) && SameAsyncs(f) && SameEntries(f)
  }

  predicate IsSilent(a: Action) {
    a.PrepareCheck? || a.PrepareAdd? || a.CallDone? || a.CallWait? || a.WaitLock? || a.WaitWake?
  }

  lemma SilentActs(f: Fine, a: Action)
    requires IsSilent(a) && Act(f, a).To?
    ensures var f' := Act(f, a).next;
            && f'.sys == f.sys && f'.whole == f.whole
            && (forall u: nat :: (Late(f', u) <==> Late(f, u)) && (Late(f, u) ==> f'.pcs[u] == f.pcs[u]))
  {
  }

  lemma SameLate(f: Fine, f': Fine)
    requires forall u: nat :: (Late(f', u) <==> Late(f, u)) && (Late(f, u) ==> f'.pcs[u] == f.pcs[u])
    requires forall u: nat :: Late(f, u) ==> (u in f'.sys.spans <==> u in f.sys.spans)
    requires forall u: nat :: Late(f, u) && u in f.sys.spans ==> f'.sys.spans[u] == f.sys.spans[u]
    ensures LateEntries(f') == LateEntries(f)
  {
  }

  lemma SilentKeepsSame(f: Fine, f': Fine)
    requires Same(f) && f'.sys == f.sys && f'.whole == f.whole
    requires forall u: nat :: (Late(f', u) <==> Late(f, u)) && (Late(f, u) ==> f'.pcs[u] == f.pcs[u])
    ensures Same(f')
  {
    assert forall u: nat :: AwaitsAsync(f', u) <==> AwaitsAsync(f, u);
    SameLate(f, f');
  }

  lemma SameObject(f: Fine, e: Event)
    requires SameContext(f) && Creates(e)
    ensures CreatedObject(f.whole.ctx, e) == CreatedObject(f.sys.ctx, e)
  {
  }

  lemma CreateKeepsContext(f: Fine, e: Event, f': Fine)
    requires SameContext(f) && Creates(e)
    requires Step(f.sys, e) == Some(f'.sys) && Step(f.whole, e) == Some(f'.whole)
    ensures SameContext(f')
  {
    Opens(f.sys, e, f'.sys);
    Opens(f.whole, e, f'.whole);
    SameObject(f, e);
  }

  /** The objects of spans change in the same way on both sides. */
  ghost predicate SpansChanged(f: Fine, u: nat, obj: SpanObject, f': Fine) {
    && u !in f.pcs && f'.pcs == f.pcs
    && f'.sys.spans == f.sys.spans[u := obj] && f'.whole.spans == f.whole.spans[u := obj]
    && f'.sys.asyncs == f.sys.asyncs && f'.whole.asyncs == f.whole.asyncs
    && f'.sys.ctx.stack.finalized == f.sys.ctx.stack.finalized
    && f'.whole.ctx.stack.finalized == f.whole.ctx.stack.finalized
  }

  lemma SpansChangedKeeps(f: Fine, u: nat, obj: SpanObject, f': Fine)
    requires Same(f) && SpansChanged(f, u, obj, f')
    ensures SameSpans(f') && SameAsyncs(f') && SameEntries(f')
  {
    assert forall v: nat :: (Late(f', v) <==> Late(f, v)) && (AwaitsAsync(f', v) <==> AwaitsAsync(f, v));
    SameLate(f, f');
  }

  lemma CreateKeepsSame(f: Fine, e: Event, f': Fine)
    requires Same(f) && PcsOk(f) && OneHandle(f) && Creates(e) && f'.pcs == f.pcs
    requires Step(f.sys, e) == Some(f'.sys) && Step(f.whole, e) == Some(f'.whole)
    ensures Same(f')
  {
    assert f.sys.ctx.nextUid !in f.pcs;
    CreateKeepsContext(f, e, f');
    Opens(f.sys, e, f'.sys);
    Opens(f.whole, e, f'.whole);
    SameObject(f, e);
    SpansChangedKeeps(f, f.sys.ctx.nextUid, CreatedObject(f.sys.ctx, e), f');
  }

  lemma EditSpanKeepsSame(f: Fine, e: Event, f': Fine)
    requires Same(f) && f'.pcs == f.pcs && e.EditSpan? && e.uid !in f.pcs
    requires Step(f.sys, e) == Some(f'.sys) && Step(f.whole, e) == Some(f'.whole)
    ensures Same(f')
  {
    SpansChangedKeeps(f, e.uid, ApplyEdit(f.sys.spans[e.uid], e.edit), f');
  }

  /** Spans and entries stay as they are. */
  ghost predicate SpansKept(f: Fine, f': Fine) {
    && f'.pcs == f.pcs && f'.sys.spans == f.sys.spans && f'.whole.spans == f.whole.spans
    && f'.sys.ctx.stack.finalized == f.sys.ctx.stack.finalized
    && f'.whole.ctx.stack.finalized == f.whole.ctx.stack.finalized
  }

  lemma SpansKeptKeeps(f: Fine, f': Fine)
    requires SameSpans(f) && SameEntries(f) && SpansKept(f, f')
    ensures SameSpans(f') && SameEntries(f')
  {
    assert forall v: nat :: Late(f', v) <==> Late(f, v);
    SameLate(f, f');
  }

  lemma EditAsyncKeepsSame(f: Fine, e: Event, f': Fine)
    requires Same(f) && f'.pcs == f.pcs && e.EditAsync? && !AwaitsAsync(f, e.uid)
    requires Step(f.sys, e) == Some(f'.sys) && Step(f.whole, e) == Some(f'.whole)
    ensures Same(f')
  {
    SpansKeptKeeps(f, f');
    assert forall v: nat :: AwaitsAsync(f', v) <==> AwaitsAsync(f, v);
  }

  lemma ContinueKeepsSame(f: Fine, e: Event, f': Fine)
    requires Same(f) && e.Continue? && f'.pcs == f.pcs
    requires Step(f.sys, e) == Some(f'.sys) && Step(f.whole, e) == Some(f'.whole)
    ensures Same(f')
  {
    SpansKeptKeeps(f, f');
    assert forall v: nat :: AwaitsAsync(f', v) <==> AwaitsAsync(f, v);
  }

  lemma UserActs(f: Fine, e: Event)
    requires Act(f, User(e)).To?
    ensures var f' := Act(f, User(e)).next;
            && f'.pcs == f.pcs && Step(f.sys, e) == Some(f'.sys) && f'.whole == Follow(f.whole, e)
    ensures Creates(e) || e.Continue? || (e.EditSpan? && e.uid !in f.pcs) || (e.EditAsync? && e.uid in f.sys.asyncs)
  {
  }

  lemma UserKeepsSame(f: Fine, e: Event)
    requires Same(f) && PcsOk(f) && OneHandle(f) && Act(f, User(e)).To? && Step(f.whole, e).Some?
    ensures Same(Act(f, User(e)).next)
  {
    var f' := Act(f, User(e)).next;
    UserActs(f, e);
    if Creates(e) {
      CreateKeepsSame(f, e, f');
    } else if e.Continue? {
      ContinueKeepsSame(f, e, f');
    } else if e.EditSpan? {
      EditSpanKeepsSame(f, e, f');
    } else {
      EditAsyncKeepsSame(f, e, f');
    }
  }

  /** f' is f after the thread closing u popped the stack. */
  ghost predicate PoppedTo(f: Fine, u: nat, plain: bool, f': Fine) {
    && f.sys.ctx.stack.active != [] && Top(f.sys).uid == u && u in f.sys.spans && !Late(f, u)
    && f'.sys == Pop(f.sys)
    && f'.pcs == f.pcs[u := if plain then Dropping(Top(f.sys)) else Popped(Top(f.sys))]
    && Step(f.whole, if plain then DropSpan(u) else Prepare(u)) == Some(f'.whole)
  }

  lemma PopKeepsContext(f: Fine, u: nat, plain: bool, f': Fine)
    requires SameContext(f) && PoppedTo(f, u, plain, f')
    ensures SameContext(f')
  {
    Closes(f.whole, u, plain, f'.whole);
  }

  lemma PopKeepsObjects(f: Fine, u: nat, plain: bool, f': Fine)
    requires SameSpans(f) && SameAsyncs(f) && OneHandle(f) && PoppedTo(f, u, plain, f')
    ensures SameSpans(f') && SameAsyncs(f')
  {
    Closes(f.whole, u, plain, f'.whole);
    assert forall v: nat :: v != u ==> (Late(f', v) <==> Late(f, v)) && (AwaitsAsync(f', v) <==> AwaitsAsync(f, v));
  }

  lemma AgreePop(fin: seq<FinalizeSpan>, all: seq<FinalizeSpan>, late: map<nat, FinalizeSpan>, e: FinalizeSpan)
    requires Agree(fin, all, late) && EntryOf(all, e.uid).None?
    ensures Agree(fin, all + [e], late[e.uid := e])
  {
    forall v: nat ensures EntryOf(all + [e], v) == if v == e.uid then Some(e) else EntryOf(all, v) {
      EntryAppend(all, e, v);
    }
  }

  lemma PoppedLate(f: Fine, u: nat, plain: bool, f': Fine)
    requires PoppedTo(f, u, plain, f')
    ensures LateEntries(f') == LateEntries(f)[u := ClosedEntry(Top(f.sys), u, if plain then Some(f.sys.spans[u]) else None)]
  {
    assert forall v: nat :: v != u ==> (Late(f', v) <==> Late(f, v)) && (Late(f, v) ==> f'.pcs[v] == f.pcs[v]);
  }

  lemma PopKeepsEntries(f: Fine, u: nat, plain: bool, f': Fine)
    requires Same(f) && PoppedTo(f, u, plain, f')
    requires EntryOf(f.whole.ctx.stack.finalized, u) == None
    ensures SameEntries(f')
  {
    Closes(f.whole, u, plain, f'.whole);
    PoppedLate(f, u, plain, f');
    AgreePop(f.sys.ctx.stack.finalized, f.whole.ctx.stack.finalized, LateEntries(f),
             ClosedEntry(Top(f.sys), u, if plain then Some(f.sys.spans[u]) else None));
  }

  lemma PopIsStep(c: Context, f: Fine, a: Action)
    requires Linked(c, f) && Tidy(f) && IsPop(a) && Act(f, a).To?
    ensures Step(f.whole, if a.DropPop? then DropSpan(a.u) else Prepare(a.u)) == Some(Act(f, a).next.whole)
  {
    ActIsWhole(c, f, a);
  }

  lemma PopStepsTo(c: Context, f: Fine, a: Action)
    requires Linked(c, f) && Tidy(f) && IsPop(a) && Act(f, a).To?
    ensures PoppedTo(f, a.u, a.DropPop?, Act(f, a).next)
  {
    PopIsStep(c, f, a);
    PopActs(f, a);
  }

  lemma TopNotClosed(c: Context, f: Fine, u: nat)
    requires Linked(c, f) && IsTop(f.sys.ctx.stack.active, u)
    ensures EntryOf(f.whole.ctx.stack.finalized, u).None?
  {
    LateNotWhole(c, f, u);
  }

  lemma PoppedKeepsSame(f: Fine, u: nat, plain: bool, f': Fine)
    requires Same(f) && OneHandle(f) && PoppedTo(f, u, plain, f') && EntryOf(f.whole.ctx.stack.finalized, u).None?
    ensures Same(f')
  {
    PopKeepsContext(f, u, plain, f');
    PopKeepsObjects(f, u, plain, f');
    PopKeepsEntries(f, u, plain, f');
  }

  lemma PopKeepsSame(c: Context, f: Fine, a: Action)
    requires Linked(c, f) && Tidy(f) && IsPop(a) && Act(f, a).To?
    ensures Same(Act(f, a).next)
  {
    PopStepsTo(c, f, a);
    TopNotClosed(c, f, a.u);
    PoppedKeepsSame(f, a.u, a.DropPop?, Act(f, a).next);
  }

  /** f' is f after the thread closing u pushed its entry. */
  ghost predicate PushedTo(f: Fine, u: nat, f': Fine) {
    && Late(f, u) && u in f.sys.spans
    && f'.sys.ctx == f.sys.ctx.(stack := f.sys.ctx.stack.(finalized := f.sys.ctx.stack.finalized + [LateEntry(f, u)]))
    && f'.sys.parents == f.sys.parents && f'.sys.spans == f.sys.spans - {u}
    && f'.sys.asyncs == (if AwaitsAsync(f, u) then f.sys.asyncs[u := f.sys.spans[u]] else f.sys.asyncs)
    && f'.pcs == f.pcs - {u} && f'.whole == f.whole
  }

  lemma PushKeepsHandles(f: Fine, u: nat, f': Fine)
    requires Same(f) && OneHandle(f) && PushedTo(f, u, f')
    ensures SameContext(f') && SameSpans(f') && SameAsyncs(f')
  {
    assert forall v: nat :: v != u ==> (Late(f', v) <==> Late(f, v)) && (AwaitsAsync(f', v) <==> AwaitsAsync(f, v));
  }

  lemma AbsentEntry(fin: seq<FinalizeSpan>, u: nat)
    requires EntryOf(fin, u).None?
    ensures forall k :: 0 <= k < |fin| ==> fin[k].uid != u
  {
  }

  lemma AgreePush(fin: seq<FinalizeSpan>, all: seq<FinalizeSpan>, late: map<nat, FinalizeSpan>, u: nat)
    requires Agree(fin, all, late) && u in late
    ensures Agree(fin + [late[u]], all, late - {u})
  {
    AbsentEntry(fin, u);
    forall v: nat ensures EntryOf(fin + [late[u]], v) == if v == u then Some(late[u]) else EntryOf(fin, v) {
      EntryAppend(fin, late[u], v);
    }
  }

  lemma PushedLate(f: Fine, u: nat, f': Fine)
    requires PushedTo(f, u, f')
    ensures LateEntries(f') == LateEntries(f) - {u}
  {
    assert forall v: nat :: v != u ==> (Late(f', v) <==> Late(f, v)) && (Late(f, v) ==> f'.pcs[v] == f.pcs[v]);
  }

  lemma PushKeepsEntries(f: Fine, u: nat, f': Fine)
    requires Same(f) && PushedTo(f, u, f')
    ensures SameEntries(f')
  {
    PushedLate(f, u, f');
    AgreePush(f.sys.ctx.stack.finalized, f.whole.ctx.stack.finalized, LateEntries(f), u);
  }

  lemma PushActsTo(f: Fine, a: Action)
    requires PcsOk(f) && IsPush(a) && Act(f, a).To?
    ensures PushedTo(f, a.u, Act(f, a).next)
  {
  }

  lemma PushKeepsSame(f: Fine, a: Action)
    requires Same(f) && Tidy(f) && IsPush(a) && Act(f, a).To?
    ensures Same(Act(f, a).next)
  {
    PushActsTo(f, a);
    PushKeepsHandles(f, a.u, Act(f, a).next);
    PushKeepsEntries(f, a.u, Act(f, a).next);
  }

  /** f' is f after the entry of u was filled. */
  ghost predicate FilledTo(f: Fine, u: nat, f': Fine) {
    && f'.pcs == f.pcs
    && Step(f.sys, DropAsync(u)) == Some(f'.sys) && Step(f.whole, DropAsync(u)) == Some(f'.whole)
  }

  lemma FillKeepsContext(f: Fine, u: nat, f': Fine)
    requires Same(f) && OneHandle(f) && PcsOk(f) && FilledTo(f, u, f')
    ensures SameContext(f') && SameSpans(f') && SameAsyncs(f')
  {
    Fills(f.sys, u, f'.sys);
    Fills(f.whole, u, f'.whole);
    assert u !in f.pcs;
  }

  lemma AgreeFill(fin: seq<FinalizeSpan>, all: seq<FinalizeSpan>, late: map<nat, FinalizeSpan>, u: nat, obj: SpanObject)
    requires Agree(fin, all, late) && u !in late && Fill(fin, u, obj).Some? && Fill(all, u, obj).Some?
    ensures Agree(Fill(fin, u, obj).value, Fill(all, u, obj).value, late)
  {
    var fin', all' := Fill(fin, u, obj).value, Fill(all, u, obj).value;
    forall v: nat
      ensures v != u ==> EntryOf(fin', v) == EntryOf(fin, v) && EntryOf(all', v) == EntryOf(all, v)
      ensures EntryOf(fin', u) == EntryOf(all', u)
    {
      EntryFill(fin, u, obj, v);
      EntryFill(all, u, obj, v);
      EntryFill(fin, u, obj, u);
      EntryFill(all, u, obj, u);
    }
    assert |fin'| == |fin| && forall k :: 0 <= k < |fin| ==> fin'[k].uid == fin[k].uid;
  }

  lemma FillKeepsEntries(f: Fine, u: nat, f': Fine)
    requires Same(f) && OneHandle(f) && PcsOk(f) && FilledTo(f, u, f')
    ensures SameEntries(f')
  {
    Fills(f.sys, u, f'.sys);
    Fills(f.whole, u, f'.whole);
    assert u !in f.pcs;
    assert forall v: nat :: Late(f', v) <==> Late(f, v);
    SameLate(f, f');
    AgreeFill(f.sys.ctx.stack.finalized, f.whole.ctx.stack.finalized, LateEntries(f), u, f.sys.asyncs[u]);
  }

  lemma FillActsTo(f: Fine, u: nat)
    requires Act(f, FillEntry(u)).To? && Step(f.whole, DropAsync(u)).Some?
    ensures FilledTo(f, u, Act(f, FillEntry(u)).next)
  {
  }

  lemma FilledKeepsSame(f: Fine, u: nat, f': Fine)
    requires Same(f) && OneHandle(f) && PcsOk(f) && FilledTo(f, u, f')
    ensures Same(f')
  {
    FillKeepsContext(f, u, f');
    FillKeepsEntries(f, u, f');
  }

  lemma FillStepsTo(c: Context, f: Fine, u: nat)
    requires Linked(c, f) && Tidy(f) && Act(f, FillEntry(u)).To?
    ensures FilledTo(f, u, Act(f, FillEntry(u)).next)
  {
    FillActs(f, u);
    FillFound(c, f, u);
    FillActsTo(f, u);
  }

  lemma FillKeepsSame(c: Context, f: Fine, u: nat)
    requires Linked(c, f) && Tidy(f) && Act(f, FillEntry(u)).To?
    ensures Same(Act(f, FillEntry(u)).next)
  {
    FillStepsTo(c, f, u);
    FilledKeepsSame(f, u, Act(f, FillEntry(u)).next);
  }

  lemma ActKeepsSame(c: Context, f: Fine, a: Action)
    requires Linked(c, f) && Tidy(f) && Act(f, a).To? && !IsReport(a)
    ensures Same(Act(f, a).next)
  {
    if a.User? {
      UserEffect(c, f, a.e);
      UserKeepsSame(f, a.e);
    } else if IsPop(a) {
      PopKeepsSame(c, f, a);
    } else if IsPush(a) {
      PushKeepsSame(f, a);
    } else if a.FillEntry? {
      FillKeepsSame(c, f, a.u);
    } else {
      SilentActs(f, a);
      SilentKeepsSame(f, Act(f, a).next);
    }
  }

  lemma ActKeepsReachable(c: Context, f: Fine, a: Action)
    requires Linked(c, f) && Tidy(f) && Act(f, a).To?
    ensures ReachableFrom(c, Act(f, a).next.whole)
  {
    ActIsWhole(c, f, a);
    if Effect(a).Some? {
      ReachableFromStep(c, f.whole, Effect(a).value, Act(f, a).next.whole);
    }
  }

  lemma ActKeepsLinked(c: Context, f: Fine, a: Action)
    requires Linked(c, f) && Tidy(f) && Act(f, a).To? && !IsReport(a)
    ensures Linked(c, Act(f, a).next)
  {
    ActKeepsReachable(c, f, a);
    ActKeepsSame(c, f, a);
  }
}
