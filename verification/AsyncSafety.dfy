/**
 When waiting for a context, or dropping it, is safe. A span counts as open until it is popped; the
 panics that the order of actions is meant to exclude are those of IsRacePanic.
 */
module AsyncSafety {
  import opened Wrappers
  import opened SpanStack
  import opened TraceContext
  import opened SegmentRuns
  import opened SegmentReport
  import opened SpanLife
  import opened AsyncProtocol
  import WG = WaitGroupModel

  /** No span is open, or the outermost open one was already added to the wait group. */
  predicate WaitSafe(f: Fine) {
    var active := f.sys.ctx.stack.active;
    active == [] || (active[0].uid in f.pcs && f.pcs[active[0].uid].Counted?)
  }

  /** No asynchronous span is left, and none will be: the only spans held are plain drops already popped. */
  predicate DropSafe(f: Fine) {
    && f.sys.ctx.stack.active == [] && f.sys.asyncs == map[]
    && (forall u :: u in f.pcs ==> f.pcs[u].Dropping?)
  }

  predicate IsRacePanic(site: Site) {
    site.ContextDropped? || site.Unreachable? || site.Unfinished? || site.CountUnderflow?
  }

  predicate Orderly(f: Fine, a: Action) {
    (a.CallWait? ==> WaitSafe(f)) && (a.DropContext? ==> DropSafe(f))
  }

  predicate AllOrderly(f: Fine, actions: seq<Action>)
    decreases |actions|
  {
    actions == [] || (Orderly(f, actions[0]) && (Act(f, actions[0]).To? ==> AllOrderly(Act(f, actions[0]).next, actions[1..])))
  }

  predicate HasReturned(f: Fine) {
    f.owner.Waiting? && WAITER in f.group.waiters && f.group.waiters[WAITER].Returned?
  }

  /** What every run keeps, orderly or not. */
  ghost predicate Sound(c: Context, f: Fine) {
    Tidy(f) && (!f.owner.Gone? ==> Linked(c, f))
  }

  /** Every asynchronous span has its entry. */
  ghost predicate Backed(f: Fine) {
    forall u: nat :: u in f.sys.asyncs ==> EntryOf(f.sys.ctx.stack.finalized, u).Some?
  }

  /** What orderly runs keep besides. */
  ghost predicate Quiet(f: Fine) {
    && (f.owner.Waiting? ==> WaitSafe(f))
    && (HasReturned(f) ==> f.group.count == 0)
    && (f.owner.Gone? ==> DropSafe(f))
  }

  lemma BeginSound(c: Context)
    requires Fresh(c)
    ensures Sound(c, Begin(c)) && Quiet(Begin(c))
  {
    var f := Begin(c);
    assert Reaches(c, [], f.whole);
    assert ReachableFrom(c, f.whole);
    UnusedTidy(f);
    UnusedSame(f);
  }

  lemma UnusedTidy(f: Fine)
    requires f.sys.spans == map[] && f.sys.asyncs == map[] && |f.sys.ctx.stack.active| == 0
    requires f.pcs == map[] && f.filled == {} && f.group.count == 0 && f.group.waiters == map[]
    requires f.owner.Using?
    ensures Tidy(f)
  {
    assert Counting(f.pcs) == {};
  }

  lemma UnusedSame(f: Fine)
    requires f.sys == f.whole && f.pcs == map[] && f.sys.spans == map[] && f.sys.asyncs == map[]
    requires |f.sys.ctx.stack.finalized| == 0
    ensures Same(f)
  {
    assert LateEntries(f) == map[];
  }

  lemma NoSpanLeft(f: Fine)
    requires StackOk(f) && f.sys.ctx.stack.active == [] && forall u: nat :: !Late(f, u)
    ensures f.sys.spans == map[]
  {
    assert forall u: nat :: u in f.sys.spans ==> IsOpen(f.sys.ctx.stack.active, u);
    assert f.sys.spans.Keys == {};
  }

  lemma IdleOpen(f: Fine)
    requires StackOk(f)
    ensures f.pcs == map[] ==> (f.sys.spans == map[] <==> f.sys.ctx.stack.active == [])
  {
    var active := f.sys.ctx.stack.active;
    if f.pcs == map[] {
      if active == [] {
        NoSpanLeft(f);
      } else {
        assert IsOpen(active, active[0].uid);
      }
    }
  }

  lemma AsyncIsUnfilled(c: Context, f: Fine, u: nat)
    requires Linked(c, f) && PcsOk(f) && OneHandle(f) && u in f.sys.asyncs
    ensures EntryOf(f.sys.ctx.stack.finalized, u).Some? && EntryOf(f.sys.ctx.stack.finalized, u).value.obj.None?
  {
    ReachableLocated(f.whole, u);
    assert u in f.whole.asyncs && u !in f.pcs;
    assert EntryOf(f.whole.ctx.stack.finalized, u).value.obj.None?;
  }

  lemma UnfilledIsAsync(c: Context, f: Fine, k: nat)
    requires Linked(c, f) && PcsOk(f)
    requires k < |f.sys.ctx.stack.finalized| && f.sys.ctx.stack.finalized[k].obj.None?
    ensures f.sys.ctx.stack.finalized[k].uid in f.sys.asyncs
  {
    var fin := f.sys.ctx.stack.finalized;
    var u := fin[k].uid;
    assert FirstEntry(fin, u) == k;
    assert EntryOf(fin, u) == Some(fin[k]);
    assert u !in LateEntries(f) && !Late(f, u);
    ReachableLocated(f.whole, u);
  }

  /** Dropping the context finds every entry filled exactly when no asynchronous span is left. */
  lemma SegmentWorks(c: Context, f: Fine)
    requires Linked(c, f) && PcsOk(f) && OneHandle(f)
    ensures AllFilled(f.sys.ctx.stack.finalized) <==> f.sys.asyncs == map[]
  {
    var fin := f.sys.ctx.stack.finalized;
    if f.sys.asyncs != map[] {
      var u :| u in f.sys.asyncs;
      AsyncIsUnfilled(c, f, u);
      var k := FirstEntry(fin, u);
      assert k < |fin| && fin[k].obj.None?;
    } else if !AllFilled(fin) {
      var k :| 0 <= k < |fin| && fin[k].obj.None?;
      UnfilledIsAsync(c, f, k);
    }
  }

  // ---- Waiting ----

  lemma RootCounts(f: Fine)
    requires WaitSafe(f) && f.sys.ctx.stack.active != []
    ensures |Counting(f.pcs)| > 0
  {
    assert f.sys.ctx.stack.active[0].uid in Counting(f.pcs);
  }

  lemma NothingCounts(f: Fine)
    requires Tidy(f) && WaitSafe(f) && f.group.count == 0
    ensures f.sys.ctx.stack.active == [] && f.sys.asyncs == map[] && f.filled == {} && DropSafe(f)
    ensures forall u :: u in f.sys.spans ==> Late(f, u)
  {
    var active := f.sys.ctx.stack.active;
    if active != [] {
      RootCounts(f);
    }
    assert |Counting(f.pcs)| == 0;
    assert f.sys.asyncs.Keys == {};
    forall u | u in f.sys.spans ensures Late(f, u) {
      assert !IsOpen(active, u);
    }
    forall u | u in f.pcs ensures f.pcs[u].Dropping? {
      assert u !in Counting(f.pcs);
    }
  }

  lemma WaitPop(f: Fine, a: Action)
    requires Tidy(f) && WaitSafe(f) && IsPop(a) && Act(f, a).To?
    ensures WaitSafe(Act(f, a).next)
  {
    PopActs(f, a);
    var active := f.sys.ctx.stack.active;
    if |active| > 1 {
      assert active[0].uid < active[|active| - 1].uid;
    }
  }

  lemma WaitPush(f: Fine, a: Action)
    requires Tidy(f) && WaitSafe(f) && IsPush(a) && Act(f, a).To?
    ensures WaitSafe(Act(f, a).next)
  {
    PushActs(f, a);
  }

  lemma WaitOther(f: Fine, a: Action)
    requires WaitSafe(f) && !f.owner.Using? && !IsPop(a) && !IsPush(a) && Act(f, a).To?
    ensures WaitSafe(Act(f, a).next)
  {
  }

  lemma WaitSafeStays(f: Fine, a: Action)
    requires Tidy(f) && WaitSafe(f) && !f.owner.Using? && Act(f, a).To?
    ensures WaitSafe(Act(f, a).next)
  {
    if IsPop(a) {
      WaitPop(f, a);
    } else if IsPush(a) {
      WaitPush(f, a);
    } else {
      WaitOther(f, a);
    }
  }

  lemma NoAddAtZero(f: Fine, a: Action)
    requires Tidy(f) && WaitSafe(f) && f.group.count == 0 && a.PrepareAdd?
    ensures Act(f, a).Disabled?
  {
    NothingCounts(f);
    assert a.u in f.sys.spans ==> Late(f, a.u);
  }

  lemma CountActs(f: Fine, a: Action)
    requires Act(f, a).To?
    ensures Act(f, a).next.group.count == f.group.count + (if a.PrepareAdd? then 1 else if a.CallDone? then -1 else 0)
  {
  }

  lemma ReturnsAtZero(f: Fine, a: Action)
    requires f.owner.Waiting? && Act(f, a).To? && HasReturned(Act(f, a).next) && !HasReturned(f)
    ensures Act(f, a).next.group.count == 0
  {
  }

  lemma ReturnedStays(f: Fine, a: Action)
    requires Tidy(f) && WaitSafe(f) && f.owner.Waiting? && Act(f, a).To?
    requires HasReturned(f) ==> f.group.count == 0
    ensures HasReturned(Act(f, a).next) ==> Act(f, a).next.group.count == 0
  {
    if HasReturned(f) {
      CountActs(f, a);
      if a.PrepareAdd? {
        NoAddAtZero(f, a);
      }
    } else if HasReturned(Act(f, a).next) {
      ReturnsAtZero(f, a);
    }
  }

  lemma CallWaitActs(f: Fine)
    requires Act(f, CallWait).To?
    ensures f.owner.Using?
    ensures var g := Act(f, CallWait).next;
            && g == f.(owner := Waiting, group := g.group)
            && g.group == f.group.(waiters := f.group.waiters[WAITER := WG.Entering])
  {
  }

  /** The owner changes only by calling wait and by dropping the context. */
  lemma OwnerActs(f: Fine, a: Action)
    requires Act(f, a).To? && !a.CallWait? && !IsReport(a)
    ensures Act(f, a).next.owner == f.owner
  {
  }

  lemma ReportActs(f: Fine, a: Action)
    requires Act(f, a).To? && IsReport(a)
    ensures !f.owner.Gone? && (a.WaitDrop? ==> HasReturned(f)) && (a.DropContext? ==> f.owner.Using?)
    ensures Segment(f.sys.ctx).Some?
    ensures Act(f, a).next ==
            f.(owner := Gone(Segment(f.sys.ctx).value), sys := WithStack(f.sys, f.sys.ctx.stack.(finalized := [])))
  {
  }

  lemma PushKeepsBacked(f: Fine, a: Action)
    requires Backed(f) && IsPush(a) && Act(f, a).To?
    ensures Backed(Act(f, a).next)
  {
    PushActs(f, a);
    var fin := f.sys.ctx.stack.finalized;
    forall v: nat | v in Act(f, a).next.sys.asyncs ensures EntryOf(fin + [LateEntry(f, a.u)], v).Some? {
      EntryAppend(fin, LateEntry(f, a.u), v);
    }
  }

  lemma FillKeepsBacked(f: Fine, u: nat)
    requires Backed(f) && Act(f, FillEntry(u)).To?
    ensures Backed(Act(f, FillEntry(u)).next)
  {
    FillActs(f, u);
    var f' := Act(f, FillEntry(u)).next;
    Fills(f.sys, u, f'.sys);
    forall v: nat | v in f'.sys.asyncs ensures EntryOf(f'.sys.ctx.stack.finalized, v).Some? {
      EntryFill(f.sys.ctx.stack.finalized, u, f.sys.asyncs[u], v);
    }
  }

  lemma EntriesKept(f: Fine, a: Action)
    requires f.owner.Gone? && !IsPush(a) && !a.FillEntry? && Act(f, a).To?
    ensures Act(f, a).next.sys.asyncs.Keys == f.sys.asyncs.Keys
    ensures Act(f, a).next.sys.ctx.stack.finalized == f.sys.ctx.stack.finalized
  {
  }

  lemma GoneKeepsBacked(f: Fine, a: Action)
    requires f.owner.Gone? && Backed(f) && Act(f, a).To?
    ensures Backed(Act(f, a).next)
  {
    if IsPush(a) {
      PushKeepsBacked(f, a);
    } else if a.FillEntry? {
      FillKeepsBacked(f, a.u);
    } else {
      EntriesKept(f, a);
    }
  }

  lemma GoneStays(f: Fine, a: Action)
    requires f.owner.Gone? && Act(f, a).To?
    ensures Act(f, a).next.owner == f.owner && !a.CallWait? && !IsReport(a)
  {
  }

  lemma ActKeepsSound(c: Context, f: Fine, a: Action)
    requires Sound(c, f) && Act(f, a).To?
    ensures Sound(c, Act(f, a).next)
  {
    ActKeepsTidy(f, a);
    if IsReport(a) {
      ReportActs(f, a);
    } else if f.owner.Gone? {
      GoneStays(f, a);
    } else {
      ActKeepsLinked(c, f, a);
    }
  }

  lemma StaysInUse(f: Fine, a: Action)
    requires !f.owner.Gone? && !IsReport(a) && Act(f, a).To?
    ensures !Act(f, a).next.owner.Gone?
  {
    if a.CallWait? {
      CallWaitActs(f);
    } else {
      OwnerActs(f, a);
    }
  }

  /** A report leaves no asynchronous span. */
  lemma ReportKeepsBacked(c: Context, f: Fine, a: Action)
    requires Sound(c, f) && IsReport(a) && Act(f, a).To?
    ensures Backed(Act(f, a).next)
  {
    ReportActs(f, a);
    SegmentWorks(c, f);
  }

  /** Once the context is gone, every asynchronous span has its entry. */
  lemma ActKeepsBacked(c: Context, f: Fine, a: Action)
    requires Sound(c, f) && (f.owner.Gone? ==> Backed(f)) && Act(f, a).To?
    ensures Act(f, a).next.owner.Gone? ==> Backed(Act(f, a).next)
  {
    if IsReport(a) {
      ReportKeepsBacked(c, f, a);
    } else if f.owner.Gone? {
      GoneKeepsBacked(f, a);
    } else {
      StaysInUse(f, a);
    }
  }

  // ---- What panics, in orderly and disorderly runs ----

  /** Dropping an asynchronous span with neither its context nor any Span left. */
  predicate DropsLate(f: Fine, a: Action) {
    a.FillEntry? && a.u in f.sys.asyncs && f.owner.Gone? && f.sys.spans == map[]
  }

  /** Dropping the context, or returning from wait, with an asynchronous span left. */
  predicate ReportsEarly(f: Fine, a: Action) {
    (if a.WaitDrop? then HasReturned(f) else a.DropContext? && f.owner.Using?) && f.sys.asyncs != map[]
  }

  /** Closing a span that is not, or no longer, the innermost open one. */
  predicate ClosesOther(f: Fine, a: Action) {
    && (a.DropPop? || a.PrepareCheck? || a.PreparePop?) && a.u in f.sys.spans
    && (if a.PreparePop? then At(f, a.u, Counted) else a.u !in f.pcs)
    && !IsTop(f.sys.ctx.stack.active, a.u)
  }

  /** Opening a local or exit span before any entry span. */
  predicate OpensTooEarly(f: Fine, a: Action) {
    a.User? && (a.e.CreateLocal? || a.e.CreateExit?) && f.owner.Using? && f.sys.ctx.nextSpanId == 0
  }

  lemma BackedFills(f: Fine, u: nat)
    requires Backed(f) && u in f.sys.asyncs
    ensures Step(f.sys, DropAsync(u)).Some?
  {
    assert EntryOf(f.sys.ctx.stack.finalized, u).Some?;
  }

  lemma EntryFound(c: Context, f: Fine, u: nat)
    requires Sound(c, f) && (f.owner.Gone? ==> Backed(f)) && u in f.sys.asyncs
    ensures Step(f.sys, DropAsync(u)).Some?
  {
    if f.owner.Gone? {
      BackedFills(f, u);
    } else {
      FillFound(c, f, u);
    }
  }

  lemma FillOutcome(f: Fine, u: nat)
    requires u in f.sys.asyncs ==> Step(f.sys, DropAsync(u)).Some?
    ensures if u !in f.sys.asyncs then Act(f, FillEntry(u)) == Disabled
            else if f.owner.Gone? && f.sys.spans == map[] then Act(f, FillEntry(u)) == Panics(ContextDropped)
            else Act(f, FillEntry(u)).To?
  {
  }

  lemma FillPanicsIff(c: Context, f: Fine, a: Action)
    requires Sound(c, f) && (f.owner.Gone? ==> Backed(f)) && a.FillEntry?
    ensures if DropsLate(f, a) then Act(f, a) == Panics(ContextDropped) else !Act(f, a).Panics?
  {
    if a.u in f.sys.asyncs {
      EntryFound(c, f, a.u);
    }
    FillOutcome(f, a.u);
  }

  lemma ReportDisabled(f: Fine, a: Action)
    requires IsReport(a) && !(if a.WaitDrop? then HasReturned(f) else f.owner.Using?)
    ensures Act(f, a) == Disabled
  {
  }

  lemma ReportPanicsIff(c: Context, f: Fine, a: Action)
    requires Sound(c, f) && IsReport(a)
    ensures if ReportsEarly(f, a) then Act(f, a) == Panics(Unfinished) else !Act(f, a).Panics?
  {
    if if a.WaitDrop? then HasReturned(f) else f.owner.Using? {
      SegmentWorks(c, f);
      ReportOutcome(f, a);
    } else {
      ReportDisabled(f, a);
    }
  }

  lemma DonePanics(f: Fine, a: Action)
    requires Balanced(f) && a.CallDone?
    ensures !Act(f, a).Panics?
  {
    assert a.u in f.filled ==> |f.filled| > 0;
  }

  lemma OtherPanics(f: Fine, a: Action)
    requires !a.FillEntry? && !a.CallDone? && !IsReport(a)
    ensures if ClosesOther(f, a) then Act(f, a) == Panics(NotActive)
            else if OpensTooEarly(f, a) then Act(f, a) == Panics(NoEntrySpan)
            else !Act(f, a).Panics?
  {
  }

  /** Who holds what an action needs. */
  predicate Possible(f: Fine, a: Action) {
    match a
    case User(EditSpan(u, _)) => u in f.sys.spans && u !in f.pcs
    case User(EditAsync(u, _)) => u in f.sys.asyncs
    case User(e) => !e.DropSpan? && !e.Prepare? && !e.DropAsync? && f.owner.Using?
    case DropPop(u) => u in f.sys.spans && u !in f.pcs
    case PrepareCheck(u) => u in f.sys.spans && u !in f.pcs
    case DropPush(u) => u in f.pcs && f.pcs[u].Dropping?
    case PrepareAdd(u) => u in f.pcs && f.pcs[u].Checked?
    case PreparePop(u) => u in f.pcs && f.pcs[u].Counted?
    case PreparePush(u) => u in f.pcs && f.pcs[u].Popped?
    case FillEntry(u) => u in f.sys.asyncs
    case CallDone(u) => u in f.filled
    case CallWait => f.owner.Using?
    case DropContext => f.owner.Using?
    case WaitLock => WAITER in f.group.waiters && (f.group.waiters[WAITER].Entering? || f.group.waiters[WAITER].Notified?)
    case WaitWake => WAITER in f.group.waiters && f.group.waiters[WAITER].Parked?
    case WaitDrop => HasReturned(f)
  }

  /** Nothing but holding what it needs keeps an action from being tried. */
  lemma DisabledIff(f: Fine, a: Action)
    requires PcsOk(f) && WaiterOk(f)
    ensures Act(f, a).Disabled? <==> !Possible(f, a)
  {
  }

  /** The outcome o of action a panics with each message exactly when it should, and never with the others. */
  predicate Explained(f: Fine, a: Action, o: Outcome) {
    && (o == Panics(ContextDropped) <==> DropsLate(f, a))
    && (o == Panics(Unfinished) <==> ReportsEarly(f, a))
    && (o == Panics(NotActive) <==> ClosesOther(f, a))
    && (o == Panics(NoEntrySpan) <==> OpensTooEarly(f, a))
    && o != Panics(Unreachable) && o != Panics(CountUnderflow)
  }

  lemma OtherExplained(f: Fine, a: Action)
    requires !a.FillEntry? && !a.CallDone? && !IsReport(a)
    ensures Explained(f, a, Act(f, a))
  {
    OtherPanics(f, a);
  }

  lemma SettlingOutcome(f: Fine, a: Action, o: Outcome)
    requires a.FillEntry? || a.CallDone? || IsReport(a)
    requires if DropsLate(f, a) then o == Panics(ContextDropped)
             else if ReportsEarly(f, a) then o == Panics(Unfinished)
             else !o.Panics?
    ensures Explained(f, a, o)
  {
  }

  lemma SettlingPanics(c: Context, f: Fine, a: Action)
    requires Sound(c, f) && (f.owner.Gone? ==> Backed(f)) && (a.FillEntry? || a.CallDone? || IsReport(a))
    ensures if DropsLate(f, a) then Act(f, a) == Panics(ContextDropped)
            else if ReportsEarly(f, a) then Act(f, a) == Panics(Unfinished)
            else !Act(f, a).Panics?
  {
    if a.FillEntry? {
      FillPanicsIff(c, f, a);
    } else if a.CallDone? {
      DonePanics(f, a);
    } else {
      ReportPanicsIff(c, f, a);
    }
  }

  lemma SettlingExplained(c: Context, f: Fine, a: Action)
    requires Sound(c, f) && (f.owner.Gone? ==> Backed(f)) && (a.FillEntry? || a.CallDone? || IsReport(a))
    ensures Explained(f, a, Act(f, a))
  {
    SettlingPanics(c, f, a);
    SettlingOutcome(f, a, Act(f, a));
  }

  lemma PanicsByMisuse(c: Context, f: Fine, a: Action)
    requires Sound(c, f) && (f.owner.Gone? ==> Backed(f))
    ensures Explained(f, a, Act(f, a))
  {
    if a.FillEntry? || a.CallDone? || IsReport(a) {
      SettlingExplained(c, f, a);
    } else {
      OtherExplained(f, a);
    }
  }

  lemma GoneOtherSafe(f: Fine, a: Action)
    requires f.owner.Gone? && DropSafe(f) && Act(f, a).To? && !IsPop(a) && !IsPush(a)
    ensures Act(f, a).next.sys.ctx.stack.active == [] && Act(f, a).next.pcs == f.pcs
  {
  }

  lemma GoneStaysSafe(f: Fine, a: Action)
    requires Tidy(f) && f.owner.Gone? && DropSafe(f) && Act(f, a).To?
    ensures DropSafe(Act(f, a).next)
  {
    if IsPop(a) {
      PopActs(f, a);
    } else if IsPush(a) {
      PushActs(f, a);
    } else {
      GoneOtherSafe(f, a);
      if a.FillEntry? {
        FillActs(f, a.u);
      } else {
        EntriesKept(f, a);
        assert Act(f, a).next.sys.asyncs.Keys == {};
      }
    }
  }

  lemma ActKeepsQuiet(f: Fine, a: Action)
    requires Tidy(f) && Quiet(f) && Orderly(f, a) && Act(f, a).To?
    ensures Quiet(Act(f, a).next)
  {
    if a.CallWait? {
      CallWaitActs(f);
    } else if IsReport(a) {
      ReportActs(f, a);
      if a.WaitDrop? {
        NothingCounts(f);
      }
    } else {
      OwnerActs(f, a);
      if f.owner.Gone? {
        GoneStaysSafe(f, a);
      } else if f.owner.Waiting? {
        WaitSafeStays(f, a);
        ReturnedStays(f, a);
      }
    }
  }

  lemma {:induction false} OrderlyRun(c: Context, f: Fine, actions: seq<Action>, g: Fine)
    requires Sound(c, f) && Quiet(f) && AllOrderly(f, actions) && RunAll(f, actions) == Some(g)
    ensures Sound(c, g) && Quiet(g)
    decreases |actions|
  {
    if actions != [] {
      ActKeepsSound(c, f, actions[0]);
      ActKeepsQuiet(f, actions[0]);
      OrderlyRun(c, Act(f, actions[0]).next, actions[1..], g);
    }
  }

  /** f is reached by an interleaving that waits for, or drops, the context only when that is safe. */
  ghost predicate OrderlyReach(c: Context, actions: seq<Action>, f: Fine) {
    Fresh(c) && AllOrderly(Begin(c), actions) && RunAll(Begin(c), actions) == Some(f)
  }

  lemma OrderlyReachKeeps(c: Context, actions: seq<Action>, f: Fine)
    requires OrderlyReach(c, actions, f)
    ensures Sound(c, f) && Quiet(f)
  {
    BeginSound(c);
    OrderlyRun(c, Begin(c), actions, f);
  }

  lemma FillRuns(f: Fine, u: nat)
    requires u in f.sys.asyncs ==> StackAlive(f) && Step(f.sys, DropAsync(u)).Some?
    ensures !Act(f, FillEntry(u)).Panics?
    ensures u in f.sys.asyncs ==> Act(f, FillEntry(u)).To?
  {
  }

  lemma ReportOutcome(f: Fine, a: Action)
    requires IsReport(a) && (a.WaitDrop? ==> HasReturned(f)) && (a.DropContext? ==> f.owner.Using?)
    ensures if AllFilled(f.sys.ctx.stack.finalized) then Act(f, a).To? && Act(f, a).next.owner.Gone?
            else Act(f, a) == Panics(Unfinished)
  {
  }

  /** In order, nothing is dropped late or reported early. */
  lemma OrderlyUse(f: Fine, a: Action)
    requires Tidy(f) && Quiet(f) && Orderly(f, a)
    ensures !DropsLate(f, a) && !ReportsEarly(f, a)
  {
    if HasReturned(f) {
      NothingCounts(f);
    }
  }

  lemma PanicSites(o: Outcome)
    requires o != Panics(ContextDropped) && o != Panics(Unreachable) && o != Panics(Unfinished) && o != Panics(CountUnderflow)
    ensures o.Panics? <==> o == Panics(NotActive) || o == Panics(NoEntrySpan)
    ensures o.Panics? ==> !IsRacePanic(o.site)
  {
    if o.Panics? {
      match o.site
      case NotActive =>
      case NoEntrySpan =>
      case _ =>
    }
  }

  lemma PanicsExactly(c: Context, f: Fine, a: Action)
    requires Sound(c, f) && Quiet(f) && Orderly(f, a)
    ensures Act(f, a).Panics? <==> ClosesOther(f, a) || OpensTooEarly(f, a)
    ensures Act(f, a).Panics? ==> !IsRacePanic(Act(f, a).site)
  {
    OrderlyUse(f, a);
    QuietBacked(f);
    PanicsByMisuse(c, f, a);
    PanicSites(Act(f, a));
  }

  lemma QuietBacked(f: Fine)
    requires Quiet(f)
    ensures f.owner.Gone? ==> Backed(f)
  {
  }

  lemma ReturnedFilled(c: Context, f: Fine)
    requires Sound(c, f) && Quiet(f) && HasReturned(f)
    ensures AllFilled(f.sys.ctx.stack.finalized) && f.sys.ctx.stack.active == [] && f.sys.asyncs == map[] && f.filled == {}
  {
    NothingCounts(f);
    SegmentWorks(c, f);
  }

  /**
   In every orderly interleaving: the wait-group count is never below the number of empty entries and
   done never underflows; the stack is alive whenever an asynchronous span is dropped, and its entry is
   there; and once wait has returned every entry is filled and no span is open. What panics is exactly
   closing a span that is not, or no longer, the innermost one, and opening a local or exit span before
   any entry span.
   */
  lemma OrderlyNeverRaces(c: Context, actions: seq<Action>, f: Fine, a: Action)
    requires OrderlyReach(c, actions, f) && Orderly(f, a)
    ensures f.group.count >= |f.sys.asyncs|
    ensures Act(f, a).Panics? <==> ClosesOther(f, a) || OpensTooEarly(f, a)
    ensures Act(f, a).Panics? ==> !IsRacePanic(Act(f, a).site)
    ensures HasReturned(f) ==>
              AllFilled(f.sys.ctx.stack.finalized) && f.sys.ctx.stack.active == [] && f.sys.asyncs == map[] && f.filled == {}
  {
    OrderlyReachKeeps(c, actions, f);
    PanicsExactly(c, f, a);
    if HasReturned(f) {
      ReturnedFilled(c, f);
    }
  }
}
