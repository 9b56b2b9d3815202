/**
 What can still happen: from every state the open spans can be closed, the asynchronous ones dropped and
 wait brought to return. The same runs show that the conditions of AsyncSafety are exact.
 */
module AsyncProgress {
  import opened Wrappers
  import opened Maps
  import opened SpanStack
  import opened TraceContext
  import opened SegmentRuns
  import opened AsyncProtocol
  import opened AsyncSafety
  import WG = WaitGroupModel

  // ---- Preparing the open spans, up to their pop ----

  /** The thread closing u, if there is one, is where it was. */
  predicate SamePc(f: Fine, g: Fine, u: nat) {
    (u in g.pcs <==> u in f.pcs) && (u in f.pcs ==> g.pcs[u] == f.pcs[u])
  }

  /** g is f after the open spans from position keep on were prepared and popped. */
  ghost predicate PreparedTo(f: Fine, keep: nat, g: Fine) {
    var active := f.sys.ctx.stack.active;
    && keep <= |active| && g.sys.ctx.stack.active == active[..keep]
    && g.owner == f.owner && g.group.waiters == f.group.waiters && g.filled == f.filled
    && g.sys.asyncs == f.sys.asyncs && g.sys.spans == f.sys.spans
    && (forall u: nat :: Late(f, u) ==> SamePc(f, g, u))
    && (forall k :: 0 <= k < keep ==> SamePc(f, g, active[k].uid))
    && (forall k :: keep <= k < |active| ==> AwaitsAsync(g, active[k].uid))
  }

  function NextPrepare(f: Fine, u: nat): Action {
    if u !in f.pcs then PrepareCheck(u) else if f.pcs[u].Checked? then PrepareAdd(u) else PreparePop(u)
  }

  function PrepareLeft(f: Fine): nat {
    var active := f.sys.ctx.stack.active;
    if active == [] then 0
    else
      var u := Top(f.sys).uid;
      3 * |active| - (if u !in f.pcs then 0 else if f.pcs[u].Checked? then 1 else 2)
  }

  lemma PrepareRuns(f: Fine, u: nat)
    requires u in f.sys.spans && !Late(f, u) && IsTop(f.sys.ctx.stack.active, u)
    ensures Act(f, NextPrepare(f, u)).To?
  {
  }

  lemma TopIsHeld(f: Fine)
    requires StackOk(f) && f.sys.ctx.stack.active != []
    ensures Top(f.sys).uid in f.sys.spans && !Late(f, Top(f.sys).uid)
  {
    var active := f.sys.ctx.stack.active;
    assert IsOpen(active, active[|active| - 1].uid);
  }

  /** The innermost open span can always be prepared further. */
  lemma NextPrepares(f: Fine)
    requires StackOk(f) && f.sys.ctx.stack.active != []
    ensures Top(f.sys).uid in f.sys.spans && !Late(f, Top(f.sys).uid)
    ensures Act(f, NextPrepare(f, Top(f.sys).uid)).To?
  {
    TopIsHeld(f);
    PrepareRuns(f, Top(f.sys).uid);
  }

  /** What the next action of a preparing thread changes. */
  lemma PrepareActs(f: Fine, u: nat)
    requires var a := NextPrepare(f, u); Act(f, a).To?
    ensures var f' := Act(f, NextPrepare(f, u)).next;
            && u in f'.pcs && f'.pcs == f.pcs[u := f'.pcs[u]]
            && f'.owner == f.owner && f'.group.waiters == f.group.waiters && f'.filled == f.filled
            && f'.sys.asyncs == f.sys.asyncs && f'.sys.spans == f.sys.spans
            && (if u in f.pcs && f.pcs[u].Counted?
                then IsTop(f.sys.ctx.stack.active, u) && f'.sys == Pop(f.sys) && f'.pcs[u].Popped?
                else f'.sys == f.sys && f'.pcs[u] == if u in f.pcs then Counted else Checked)
  {
  }

  /** f' is f after the thread preparing the innermost open span made its next step. */
  ghost predicate NextPrepared(f: Fine, f': Fine) {
    f.sys.ctx.stack.active != [] &&
    var u := Top(f.sys).uid;
    && u in f'.pcs && f'.pcs == f.pcs[u := f'.pcs[u]]
    && f'.owner == f.owner && f'.group.waiters == f.group.waiters && f'.filled == f.filled
    && f'.sys.asyncs == f.sys.asyncs && f'.sys.spans == f.sys.spans
    && (if f'.pcs[u].Popped? then f'.sys == Pop(f.sys) else f'.sys == f.sys)
  }

  lemma PcsMoved(f: Fine, f': Fine, g: Fine, u: nat)
    requires u in f'.pcs && f'.pcs == f.pcs[u := f'.pcs[u]] && !Late(f, u)
    ensures forall v: nat :: v != u && SamePc(f', g, v) ==> SamePc(f, g, v)
    ensures forall v: nat :: Late(f, v) ==> v != u && Late(f', v)
  {
  }

  lemma PrepareStep(f: Fine, keep: nat, f': Fine, g: Fine)
    requires StackOk(f) && keep < |f.sys.ctx.stack.active| && !Late(f, Top(f.sys).uid)
    requires NextPrepared(f, f') && PreparedTo(f', keep, g)
    ensures PreparedTo(f, keep, g)
  {
    var active, n := f.sys.ctx.stack.active, |f.sys.ctx.stack.active| - 1;
    PcsMoved(f, f', g, active[n].uid);
    assert active[..n][..keep] == active[..keep];
    assert forall k :: 0 <= k < keep ==> active[k].uid < active[n].uid;
    if f'.pcs[active[n].uid].Popped? {
      assert AwaitsAsync(f', active[n].uid) && SamePc(f', g, active[n].uid);
    }
  }

  lemma PrepareOnce(c: Context, f: Fine) returns (a: Action, f': Fine)
    requires Sound(c, f) && f.sys.ctx.stack.active != []
    ensures Act(f, a) == To(f') && Sound(c, f') && NextPrepared(f, f') && PrepareLeft(f') < PrepareLeft(f)
    ensures !Late(f, Top(f.sys).uid)
  {
    var u := Top(f.sys).uid;
    NextPrepares(f);
    PrepareActs(f, u);
    a := NextPrepare(f, u);
    f' := Act(f, a).next;
    ActKeepsSound(c, f, a);
  }

  lemma {:induction false} PrepareOpen(c: Context, f: Fine, keep: nat) returns (actions: seq<Action>, g: Fine)
    requires Sound(c, f) && keep <= |f.sys.ctx.stack.active|
    ensures RunAll(f, actions) == Some(g) && Sound(c, g) && PreparedTo(f, keep, g)
    decreases PrepareLeft(f)
  {
    if |f.sys.ctx.stack.active| == keep {
      actions, g := [], f;
    } else {
      var a, f' := PrepareOnce(c, f);
      var rest;
      rest, g := PrepareOpen(c, f', keep);
      actions := [a] + rest;
      RunAllCons(f, a, rest);
      PrepareStep(f, keep, f', g);
    }
  }

  // ---- Pushing what was popped ----

  /** g is f after every popped span was pushed. */
  ghost predicate PushedAll(f: Fine, g: Fine) {
    && g.sys.ctx.stack.active == f.sys.ctx.stack.active
    && g.owner == f.owner && g.group == f.group && g.filled == f.filled
    && (forall u: nat :: !Late(g, u) && (!Late(f, u) ==> SamePc(f, g, u)))
    && (forall u: nat :: u in f.sys.asyncs || AwaitsAsync(f, u) ==> u in g.sys.asyncs)
  }

  lemma PushRuns(f: Fine, u: nat) returns (a: Action)
    requires Late(f, u) && u in f.sys.spans
    ensures IsPush(a) && a.u == u && Act(f, a).To?
  {
    a := if f.pcs[u].Dropping? then DropPush(u) else PreparePush(u);
  }

  /** f' is f after the entry of u was pushed. */
  ghost predicate PushedOne(f: Fine, u: nat, f': Fine) {
    && Late(f, u) && f'.pcs == f.pcs - {u}
    && f'.sys.ctx.stack.active == f.sys.ctx.stack.active
    && f'.owner == f.owner && f'.group == f.group && f'.filled == f.filled
    && (forall v: nat :: v in f.sys.asyncs || (v == u && AwaitsAsync(f, u)) ==> v in f'.sys.asyncs)
  }

  lemma PushStep(f: Fine, u: nat, f': Fine, g: Fine)
    requires PushedOne(f, u, f') && PushedAll(f', g)
    ensures PushedAll(f, g)
  {
    forall v: nat ensures v != u ==> (Late(f', v) <==> Late(f, v)) && (AwaitsAsync(f', v) <==> AwaitsAsync(f, v)) {
    }
    forall v: nat | !Late(f, v) ensures SamePc(f, g, v) {
      assert SamePc(f', g, v);
    }
  }

  lemma PushOnce(c: Context, f: Fine, u: nat) returns (a: Action, f': Fine)
    requires Sound(c, f) && Late(f, u)
    ensures Act(f, a) == To(f') && Sound(c, f') && PushedOne(f, u, f') && |f'.pcs| < |f.pcs|
  {
    a := PushRuns(f, u);
    f' := Act(f, a).next;
    PushActs(f, a);
    RemoveSize(f.pcs, u);
    ActKeepsSound(c, f, a);
  }

  lemma {:induction false} PushLate(c: Context, f: Fine) returns (actions: seq<Action>, g: Fine)
    requires Sound(c, f)
    ensures RunAll(f, actions) == Some(g) && Sound(c, g) && PushedAll(f, g)
    decreases |f.pcs|
  {
    if u: nat :| Late(f, u) {
      var a, f' := PushOnce(c, f, u);
      var rest;
      rest, g := PushLate(c, f');
      actions := [a] + rest;
      RunAllCons(f, a, rest);
      PushStep(f, u, f', g);
    } else {
      actions, g := [], f;
      NoneLate(f);
    }
  }

  lemma NoneLate(f: Fine)
    requires forall u: nat :: !Late(f, u)
    ensures PushedAll(f, f)
  {
    assert forall u: nat :: AwaitsAsync(f, u) ==> Late(f, u);
  }

  // ---- Dropping the asynchronous spans ----

  /** g is f after every asynchronous span was dropped and every done called. */
  ghost predicate DrainedTo(f: Fine, g: Fine) {
    && g.owner == f.owner && g.pcs == f.pcs && g.sys.spans == f.sys.spans
    && g.sys.ctx.stack.active == f.sys.ctx.stack.active
    && (WAITER in f.group.waiters ==> WAITER in g.group.waiters)
    && (WAITER in f.group.waiters && f.group.waiters[WAITER].Returned? ==> g.group.waiters[WAITER].Returned?)
  }

  lemma DoneActs(f: Fine, u: nat)
    requires Tidy(f) && u in f.filled
    ensures Act(f, CallDone(u)).To? && DrainedTo(f, Act(f, CallDone(u)).next)
    ensures Act(f, CallDone(u)).next.sys == f.sys && Act(f, CallDone(u)).next.filled == f.filled - {u}
  {
    assert |f.filled| > 0;
  }

  lemma FillDrains(c: Context, f: Fine, u: nat)
    requires Sound(c, f) && !f.owner.Gone? && u in f.sys.asyncs && f.filled == {}
    ensures Act(f, FillEntry(u)).To?
    ensures var f' := Act(f, FillEntry(u)).next;
            DrainedTo(f, f') && |f'.sys.asyncs| == |f.sys.asyncs| - 1 && |f'.filled| == 1
  {
    FillFound(c, f, u);
    FillRuns(f, u);
    FillActs(f, u);
    MovedSizes(f.sys.asyncs, f.filled, u);
  }

  lemma {:induction false} Drain(c: Context, f: Fine) returns (actions: seq<Action>, g: Fine)
    requires Sound(c, f) && !f.owner.Gone?
    ensures RunAll(f, actions) == Some(g) && Sound(c, g) && DrainedTo(f, g)
    ensures g.sys.asyncs == map[] && g.filled == {}
    decreases 2 * |f.sys.asyncs| + |f.filled|, 1
  {
    if f.filled != {} {
      var u :| u in f.filled;
      DoneActs(f, u);
      actions, g := DrainOn(c, f, CallDone(u));
    } else if f.sys.asyncs != map[] {
      var u :| u in f.sys.asyncs;
      FillDrains(c, f, u);
      actions, g := DrainOn(c, f, FillEntry(u));
    } else {
      actions, g := [], f;
    }
  }

  lemma {:induction false} DrainOn(c: Context, f: Fine, a: Action) returns (actions: seq<Action>, g: Fine)
    requires Sound(c, f) && !f.owner.Gone? && Act(f, a).To? && DrainedTo(f, Act(f, a).next)
    requires var f' := Act(f, a).next; 2 * |f'.sys.asyncs| + |f'.filled| < 2 * |f.sys.asyncs| + |f.filled|
    ensures RunAll(f, actions) == Some(g) && Sound(c, g) && DrainedTo(f, g)
    ensures g.sys.asyncs == map[] && g.filled == {}
    decreases 2 * |f.sys.asyncs| + |f.filled|, 0
  {
    ActKeepsSound(c, f, a);
    var rest;
    rest, g := Drain(c, Act(f, a).next);
    actions := [a] + rest;
    RunAllCons(f, a, rest);
  }

  // ---- Settling everything but the outermost spans ----

  /** g is f with the open spans from position keep on closed, and no asynchronous span left. */
  ghost predicate SettledTo(f: Fine, keep: nat, g: Fine) {
    var active := f.sys.ctx.stack.active;
    && keep <= |active| && g.sys.ctx.stack.active == active[..keep] && g.owner == f.owner
    && g.sys.asyncs == map[] && g.filled == {}
    && (forall u: nat :: !Late(g, u))
    && (forall k :: 0 <= k < keep ==> SamePc(f, g, active[k].uid))
    && (WAITER in f.group.waiters ==> WAITER in g.group.waiters)
  }

  lemma Settle(c: Context, f: Fine, keep: nat) returns (actions: seq<Action>, g: Fine)
    requires Sound(c, f) && !f.owner.Gone? && keep <= |f.sys.ctx.stack.active|
    ensures RunAll(f, actions) == Some(g) && Sound(c, g) && SettledTo(f, keep, g)
  {
    var xs, f1 := PrepareOpen(c, f, keep);
    var ys, f2 := PushLate(c, f1);
    var zs;
    zs, g := Drain(c, f2);
    actions := xs + (ys + zs);
    RunAllChain(f1, ys, f2, zs, g);
    RunAllChain(f, xs, f1, ys + zs, g);
    SettledChain(f, keep, f1, f2, g);
  }

  lemma SettledChain(f: Fine, keep: nat, f1: Fine, f2: Fine, g: Fine)
    requires StackOk(f) && PreparedTo(f, keep, f1) && PushedAll(f1, f2) && DrainedTo(f2, g)
    requires g.sys.asyncs == map[] && g.filled == {}
    ensures SettledTo(f, keep, g)
  {
    var active := f.sys.ctx.stack.active;
    forall k | 0 <= k < keep ensures SamePc(f, g, active[k].uid) {
      var u := active[k].uid;
      assert IsOpen(active, u) && SamePc(f, f1, u) && !Late(f1, u);
      assert SamePc(f1, f2, u);
    }
    assert forall u: nat :: Late(g, u) <==> Late(f2, u);
  }

  /** Without late spans, the closing threads are those of open spans. */
  lemma OnlyOpen(f: Fine, u: nat)
    requires Tidy(f) && !Late(f, u) && u in f.pcs
    ensures IsOpen(f.sys.ctx.stack.active, u)
  {
  }

  /** Once settled with nothing counted, the count is zero and the waiter can return. */
  lemma ReturnAtZero(c: Context, f: Fine) returns (actions: seq<Action>, g: Fine)
    requires Sound(c, f) && f.owner.Waiting? && f.sys.asyncs == map[] && f.filled == {} && Counting(f.pcs) == {}
    ensures RunAll(f, actions) == Some(g) && Sound(c, g) && HasReturned(g)
    ensures g.sys == f.sys && g.pcs == f.pcs
  {
    if HasReturned(f) {
      actions, g := [], f;
    } else {
      LockReturns(f);
      g := Act(f, WaitLock).next;
      ActKeepsSound(c, f, WaitLock);
      actions := [WaitLock];
      RunAllCons(f, WaitLock, actions[1..]);
      assert [WaitLock] + actions[1..] == actions;
    }
  }

  lemma LockReturns(f: Fine)
    requires WaiterOk(f) && f.owner.Waiting? && f.group.count == 0 && !HasReturned(f)
    ensures Act(f, WaitLock).To? && HasReturned(Act(f, WaitLock).next)
    ensures Act(f, WaitLock).next.sys == f.sys && Act(f, WaitLock).next.pcs == f.pcs
  {
  }

  // ---- Waiting can always be brought to an end ----

  lemma ReportRuns(c: Context, f: Fine)
    requires Sound(c, f) && HasReturned(f) && f.sys.asyncs == map[]
    ensures Act(f, WaitDrop).To? && Act(f, WaitDrop).next.owner.Gone?
  {
    SegmentWorks(c, f);
    ReportOutcome(f, WaitDrop);
  }

  lemma NothingCounted(f: Fine)
    requires Tidy(f) && forall u: nat :: !Late(f, u)
    requires forall k :: 0 <= k < |f.sys.ctx.stack.active| ==> f.sys.ctx.stack.active[k].uid !in Counting(f.pcs)
    ensures Counting(f.pcs) == {}
  {
    forall u | u in Counting(f.pcs) ensures IsOpen(f.sys.ctx.stack.active, u) {
      OnlyOpen(f, u);
    }
  }

  /** None of the outermost spans, up to position keep, is counted. */
  ghost predicate NoneCountedBelow(f: Fine, keep: nat) {
    && keep <= |f.sys.ctx.stack.active|
    && forall k :: 0 <= k < keep ==> f.sys.ctx.stack.active[k].uid !in Counting(f.pcs)
  }

  lemma NothingCountedAfter(f: Fine, keep: nat, g: Fine)
    requires Tidy(g) && SettledTo(f, keep, g) && NoneCountedBelow(f, keep)
    ensures Counting(g.pcs) == {}
  {
    forall k | 0 <= k < |g.sys.ctx.stack.active| ensures g.sys.ctx.stack.active[k].uid !in Counting(g.pcs) {
      assert SamePc(f, g, f.sys.ctx.stack.active[k].uid);
    }
    NothingCounted(g);
  }

  /** wait can be brought to return while the outermost spans stay open, as long as none of them is counted. */
  lemma CanReturn(c: Context, f: Fine, keep: nat) returns (actions: seq<Action>, g: Fine)
    requires Sound(c, f) && f.owner.Waiting? && NoneCountedBelow(f, keep)
    ensures RunAll(f, actions) == Some(g) && Sound(c, g) && HasReturned(g) && g.sys.asyncs == map[]
    ensures g.sys.ctx.stack.active == f.sys.ctx.stack.active[..keep] && forall u: nat :: !Late(g, u)
  {
    var xs, h := Settle(c, f, keep);
    NothingCountedAfter(f, keep, h);
    var ys;
    ys, g := ReturnAtZero(c, h);
    assert forall u: nat :: Late(g, u) <==> Late(h, u);
    actions := xs + ys;
    RunAllChain(f, xs, h, ys, g);
  }

  lemma RunAllSnoc(f: Fine, xs: seq<Action>, g: Fine, a: Action)
    requires RunAll(f, xs) == Some(g) && Act(g, a).To?
    ensures RunAll(f, xs + [a]) == Some(Act(g, a).next)
  {
    var none := xs[|xs|..];
    RunAllCons(g, a, none);
    assert [a] + none == [a];
    RunAllChain(f, xs, g, [a], Act(g, a).next);
  }

  /** From every state in which the context is waited for, wait can still return and the segment be reported. */
  lemma WaitCanFinish(c: Context, actions: seq<Action>, f: Fine) returns (more: seq<Action>, g: Fine)
    requires OrderlyReach(c, actions, f) && f.owner.Waiting?
    ensures RunAll(f, more) == Some(g) && g.owner.Gone? && g.sys.spans == map[]
  {
    OrderlyReachKeeps(c, actions, f);
    var xs, h := CanReturn(c, f, 0);
    NoSpanLeft(h);
    ReportRuns(c, h);
    ReportActs(h, WaitDrop);
    RunAllSnoc(f, xs, h, WaitDrop);
    more, g := xs + [WaitDrop], Act(h, WaitDrop).next;
  }

  // ---- The conditions are exact ----

  /** first, or some continuation of it, runs into one of the excluded panics. */
  ghost predicate CanRace(f: Fine, first: Action) {
    || (Act(f, first).Panics? && IsRacePanic(Act(f, first).site))
    || (exists more, g, a ::
          RunAll(f, [first] + more) == Some(g) && Act(g, a).Panics? && IsRacePanic(Act(g, a).site))
  }

  /** Once the context was waited for or dropped, nothing is left to do in the wrong order. */
  lemma AfterUse(f: Fine, a: Action)
    requires !f.owner.Using? && !Act(f, a).Disabled?
    ensures Orderly(f, a) && (Act(f, a).To? ==> !Act(f, a).next.owner.Using?)
  {
  }

  lemma {:induction false} AfterUseRun(c: Context, f: Fine, actions: seq<Action>, g: Fine, a: Action)
    requires Sound(c, f) && Quiet(f) && !f.owner.Using? && RunAll(f, actions) == Some(g) && Act(g, a).Panics?
    ensures !IsRacePanic(Act(g, a).site)
    decreases |actions|
  {
    if actions == [] {
      AfterUse(f, a);
      PanicsExactly(c, f, a);
    } else {
      AfterUse(f, actions[0]);
      ActKeepsSound(c, f, actions[0]);
      ActKeepsQuiet(f, actions[0]);
      AfterUseRun(c, Act(f, actions[0]).next, actions[1..], g, a);
    }
  }

  lemma SafeNeverRaces(c: Context, f: Fine, first: Action)
    requires Sound(c, f) && Quiet(f) && f.owner.Using? && Orderly(f, first) && (first.CallWait? || first.DropContext?)
    ensures !CanRace(f, first)
  {
    if Act(f, first).Panics? {
      PanicsExactly(c, f, first);
    }
    forall more, g, a | RunAll(f, [first] + more) == Some(g) && Act(g, a).Panics?
      ensures !IsRacePanic(Act(g, a).site)
    {
      assert ([first] + more)[0] == first && ([first] + more)[1..] == more;
      ActKeepsSound(c, f, first);
      ActKeepsQuiet(f, first);
      FirstEndsUse(f, first);
      AfterUseRun(c, Act(f, first).next, more, g, a);
    }
  }

  lemma FirstEndsUse(f: Fine, first: Action)
    requires (first.CallWait? || first.DropContext?) && Act(f, first).To?
    ensures !Act(f, first).next.owner.Using?
  {
  }

  /** Preparing the open spans and pushing them leaves asynchronous spans only. */
  lemma AllAsync(c: Context, f: Fine, u: nat) returns (actions: seq<Action>, g: Fine)
    requires Sound(c, f) && (IsOpen(f.sys.ctx.stack.active, u) || AwaitsAsync(f, u))
    ensures RunAll(f, actions) == Some(g) && Sound(c, g) && u in g.sys.asyncs && g.sys.spans == map[]
    ensures g.owner == f.owner && g.group.waiters == f.group.waiters
  {
    var xs, h := PrepareOpen(c, f, 0);
    var ys;
    ys, g := PushLate(c, h);
    assert AwaitsAsync(h, u) by {
      if !IsOpen(f.sys.ctx.stack.active, u) {
        assert Late(f, u) && SamePc(f, h, u);
      }
    }
    NoSpanLeft(g);
    actions := xs + ys;
    RunAllChain(f, xs, h, ys, g);
  }

  lemma RacesBy(f: Fine, first: Action, f': Fine, more: seq<Action>, g: Fine, a: Action)
    requires Act(f, first) == To(f') && RunAll(f', more) == Some(g)
    requires Act(g, a).Panics? && IsRacePanic(Act(g, a).site)
    ensures CanRace(f, first)
  {
    RunAllCons(f, first, more);
  }

  lemma WaitEntered(c: Context, f: Fine) returns (f': Fine)
    requires Sound(c, f) && f.owner.Using?
    ensures Act(f, CallWait) == To(f') && Sound(c, f') && f'.owner.Waiting? && f'.sys == f.sys && f'.pcs == f.pcs
  {
    CallWaitRuns(f);
    CallWaitActs(f);
    f' := Act(f, CallWait).next;
    ActKeepsSound(c, f, CallWait);
  }

  lemma CallWaitRuns(f: Fine)
    requires WaiterOk(f) && f.owner.Using?
    ensures Act(f, CallWait).To?
  {
  }

  lemma OutermostNotCounted(f: Fine)
    requires StackOk(f) && !WaitSafe(f)
    ensures NoneCountedBelow(f, 1)
  {
    assert IsOpen(f.sys.ctx.stack.active, f.sys.ctx.stack.active[0].uid);
  }

  /** A waiter that returns while a span is open finds it unfinished. */
  lemma UnfinishedPanics(c: Context, f: Fine)
    requires Sound(c, f) && HasReturned(f) && f.sys.asyncs != map[]
    ensures Act(f, WaitDrop) == Panics(Unfinished)
  {
    SegmentWorks(c, f);
    ReportOutcome(f, WaitDrop);
  }

  /** The waiter can return while the outermost span stays open. */
  lemma ReturnsWhileOpen(c: Context, f: Fine, u: nat) returns (actions: seq<Action>, g: Fine)
    requires Sound(c, f) && f.owner.Waiting? && NoneCountedBelow(f, 1) && u == f.sys.ctx.stack.active[0].uid
    ensures RunAll(f, actions) == Some(g) && Sound(c, g) && HasReturned(g) && IsOpen(g.sys.ctx.stack.active, u)
  {
    actions, g := CanReturn(c, f, 1);
    StillOpen(f.sys.ctx.stack.active, g.sys.ctx.stack.active);
  }

  /** A span that is open when the waiter has returned can become asynchronous. */
  lemma ReturnsTooEarly(c: Context, f: Fine, u: nat) returns (actions: seq<Action>, g: Fine)
    requires Sound(c, f) && f.owner.Waiting? && NoneCountedBelow(f, 1) && u == f.sys.ctx.stack.active[0].uid
    ensures RunAll(f, actions) == Some(g) && Sound(c, g) && HasReturned(g) && u in g.sys.asyncs
  {
    var xs, h := ReturnsWhileOpen(c, f, u);
    var ys;
    ys, g := AllAsync(c, h, u);
    actions := xs + ys;
    RunAllChain(f, xs, h, ys, g);
  }

  lemma StillOpen(active: seq<ActiveSpan>, active': seq<ActiveSpan>)
    requires active != [] && active' == active[..1]
    ensures IsOpen(active', active[0].uid)
  {
    assert active'[0].uid == active[0].uid;
  }

  /** A wait that starts while the outermost open span is not counted can run into the unfinished span. */
  lemma EarlyWaitRaces(c: Context, f: Fine)
    requires Sound(c, f) && f.owner.Using? && !WaitSafe(f)
    ensures CanRace(f, CallWait)
  {
    var f1 := WaitEntered(c, f);
    OutermostNotCounted(f1);
    var more, g := ReturnsTooEarly(c, f1, f.sys.ctx.stack.active[0].uid);
    UnfinishedPanics(c, g);
    RacesBy(f, CallWait, f1, more, g, WaitDrop);
  }

  lemma Dropped(c: Context, f: Fine) returns (f': Fine)
    requires Sound(c, f) && f.owner.Using? && f.sys.asyncs == map[]
    ensures Act(f, DropContext) == To(f') && Sound(c, f') && f'.owner.Gone?
    ensures f'.sys.ctx.stack.active == f.sys.ctx.stack.active && f'.pcs == f.pcs
  {
    SegmentWorks(c, f);
    ReportOutcome(f, DropContext);
    ReportActs(f, DropContext);
    f' := Act(f, DropContext).next;
    ActKeepsSound(c, f, DropContext);
  }

  /** Dropping the context too early ends in the panic for an unfinished span, or for a dropped context. */
  lemma EarlyDropRaces(c: Context, f: Fine)
    requires Sound(c, f) && f.owner.Using? && !DropSafe(f)
    ensures CanRace(f, DropContext)
  {
    if f.sys.asyncs == map[] {
      var u := NotDropped(f);
      var f1 := Dropped(c, f);
      assert AwaitsAsync(f1, u) <==> AwaitsAsync(f, u);
      var more, g := AllAsync(c, f1, u);
      FillTooLate(g, u);
      RacesBy(f, DropContext, f1, more, g, FillEntry(u));
    } else {
      SegmentWorks(c, f);
      ReportOutcome(f, DropContext);
    }
  }

  lemma NotDropped(f: Fine) returns (u: nat)
    requires Tidy(f) && !DropSafe(f) && f.sys.asyncs == map[]
    ensures IsOpen(f.sys.ctx.stack.active, u) || AwaitsAsync(f, u)
  {
    if f.sys.ctx.stack.active != [] {
      u := f.sys.ctx.stack.active[0].uid;
    } else {
      u :| u in f.pcs && !f.pcs[u].Dropping?;
      if !AwaitsAsync(f, u) {
        OnlyOpen(f, u);
      }
    }
  }

  lemma FillTooLate(f: Fine, u: nat)
    requires f.owner.Gone? && f.sys.spans == map[] && u in f.sys.asyncs
    ensures Act(f, FillEntry(u)) == Panics(ContextDropped)
  {
  }

  /**
   Calling wait is safe exactly when no span is open or the outermost open one is already counted. When
   no thread is closing a span, that is when no Span is held.
   */
  lemma WaitIsSafeIff(c: Context, actions: seq<Action>, f: Fine)
    requires OrderlyReach(c, actions, f) && f.owner.Using?
    ensures !CanRace(f, CallWait) <==> WaitSafe(f)
    ensures f.pcs == map[] ==> (WaitSafe(f) <==> f.sys.spans == map[])
  {
    OrderlyReachKeeps(c, actions, f);
    if WaitSafe(f) {
      SafeNeverRaces(c, f, CallWait);
    } else {
      EarlyWaitRaces(c, f);
    }
    IdleOpen(f);
  }

  /**
   Dropping the context is safe exactly when no asynchronous span is left or still to come. When no
   thread is closing a span, that is when neither a Span nor an unfinished AsyncSpan is held.
   */
  lemma DropIsSafeIff(c: Context, actions: seq<Action>, f: Fine)
    requires OrderlyReach(c, actions, f) && f.owner.Using?
    ensures !CanRace(f, DropContext) <==> DropSafe(f)
    ensures f.pcs == map[] ==> (DropSafe(f) <==> f.sys.spans == map[] && f.sys.asyncs == map[])
  {
    OrderlyReachKeeps(c, actions, f);
    if DropSafe(f) {
      SafeNeverRaces(c, f, DropContext);
    } else {
      EarlyDropRaces(c, f);
    }
    IdleOpen(f);
  }
}
