/**
 What is reported when closing spans is interleaved: always the spans that the whole operations report,
 in the order in which their entries were pushed. That order is the postorder exactly when entries are
 pushed in the order in which the spans were popped.
 */
module AsyncReport {
  import opened Wrappers
  import opened Text
  import opened SpanStack
  import opened Forest
  import opened TraceContext
  import opened SegmentRuns
  import opened SegmentReport
  import opened SpanLife
  import opened SpanContent
  import opened AsyncRefinesSync
  import opened AsyncProtocol
  import opened AsyncSafety

  /** The spans in the order in which they were popped. */
  function PopOrder(actions: seq<Action>): seq<int> {
    if actions == [] then []
    else (if IsPop(actions[0]) then [actions[0].u] else []) + PopOrder(actions[1..])
  }

  /** The spans in the order in which their entries were pushed. */
  function PushOrder(actions: seq<Action>): seq<int> {
    if actions == [] then []
    else (if IsPush(actions[0]) then [actions[0].u] else []) + PushOrder(actions[1..])
  }

  /** Each entry is pushed before the next span is popped, as when one thread closes all spans. */
  predicate OneAtATime(actions: seq<Action>, closing: Option<nat>)
    decreases |actions|
  {
    if actions == [] then closing.None?
    else if IsPop(actions[0]) then closing.None? && OneAtATime(actions[1..], Some(actions[0].u))
    else if IsPush(actions[0]) then closing == Some(actions[0].u) && OneAtATime(actions[1..], None)
    else OneAtATime(actions[1..], closing)
  }

  /** One closing thread pushes in the order of its pops. */
  lemma {:induction false} OneThreadInOrder(actions: seq<Action>, closing: Option<nat>)
    requires OneAtATime(actions, closing)
    ensures PushOrder(actions) == (match closing case None => [] case Some(u) => [u]) + PopOrder(actions)
    decreases |actions|
  {
    if actions != [] {
      var a := actions[0];
      OneThreadInOrder(actions[1..], if IsPop(a) then Some(a.u) else if IsPush(a) then None else closing);
    }
  }

  // ---- The lists in the state are those of the schedule ----

  lemma CloseIds(s: System, u: nat, plain: bool, s': System)
    requires Step(s, if plain then DropSpan(u) else Prepare(u)) == Some(s')
    ensures ClosedIds(s'.ctx.stack.finalized) == ClosedIds(s.ctx.stack.finalized) + [u]
  {
    Closes(s, u, plain, s');
  }

  /** Only closing a span changes which spans are closed. */
  lemma OtherIds(s: System, e: Event, s': System)
    requires Step(s, e) == Some(s') && !e.DropSpan? && !e.Prepare?
    ensures ClosedIds(s'.ctx.stack.finalized) == ClosedIds(s.ctx.stack.finalized)
  {
    if e.DropAsync? {
      Fills(s, e.uid, s');
    }
  }

  lemma EffectIds(s: System, a: Action, s': System)
    requires match Effect(a) case Some(e) => Step(s, e) == Some(s') case None => s' == s
    requires a.User? ==> !a.e.DropSpan? && !a.e.Prepare?
    ensures ClosedIds(s'.ctx.stack.finalized) == ClosedIds(s.ctx.stack.finalized) + (if IsPop(a) then [a.u] else [])
  {
    if IsPop(a) {
      CloseIds(s, a.u, a.DropPop?, s');
    } else if Effect(a).Some? {
      OtherIds(s, Effect(a).value, s');
    }
  }

  lemma NotAClosingEvent(f: Fine, a: Action)
    requires Act(f, a).To?
    ensures a.User? ==> !a.e.DropSpan? && !a.e.Prepare?
  {
  }

  lemma PushedIds(f: Fine, a: Action)
    requires PcsOk(f) && IsPush(a) && Act(f, a).To?
    ensures ClosedIds(Act(f, a).next.sys.ctx.stack.finalized) == ClosedIds(f.sys.ctx.stack.finalized) + [a.u]
  {
    PushActs(f, a);
  }

  lemma FineOrder(f: Fine, a: Action)
    requires PcsOk(f) && Act(f, a).To? && !IsReport(a)
    ensures ClosedIds(Act(f, a).next.sys.ctx.stack.finalized) ==
            ClosedIds(f.sys.ctx.stack.finalized) + (if IsPush(a) then [a.u] else [])
  {
    var f' := Act(f, a).next;
    if IsPush(a) {
      PushedIds(f, a);
    } else if a.User? {
      UserActs(f, a.e);
      OtherIds(f.sys, a.e, f'.sys);
    } else if a.FillEntry? {
      FillActs(f, a.u);
      OtherIds(f.sys, DropAsync(a.u), f'.sys);
    } else if IsPop(a) {
      PopActs(f, a);
    } else {
      SilentActs(f, a);
    }
  }

  lemma {:induction false} RunSound(c: Context, f: Fine, actions: seq<Action>, g: Fine)
    requires Sound(c, f) && RunAll(f, actions) == Some(g)
    ensures Sound(c, g)
    ensures f.owner.Gone? ==> g.owner.Gone?
    decreases |actions|
  {
    if actions != [] {
      ActKeepsSound(c, f, actions[0]);
      if f.owner.Gone? {
        GoneStays(f, actions[0]);
      }
      RunSound(c, Act(f, actions[0]).next, actions[1..], g);
    }
  }

  lemma StillInUse(c: Context, f: Fine, a: Action, rest: seq<Action>, g: Fine)
    requires Sound(c, f) && Act(f, a).To? && RunAll(Act(f, a).next, rest) == Some(g) && !g.owner.Gone?
    ensures Sound(c, Act(f, a).next) && !f.owner.Gone? && !IsReport(a)
  {
    ActKeepsSound(c, f, a);
    RunSound(c, Act(f, a).next, rest, g);
    if IsReport(a) {
      ReportActs(f, a);
    } else if f.owner.Gone? {
      GoneStays(f, a);
    }
  }

  lemma PopsStep(c: Context, f: Fine, a: Action, rest: seq<Action>, g: Fine)
    requires Sound(c, f) && Act(f, a).To? && RunAll(Act(f, a).next, rest) == Some(g) && !g.owner.Gone?
    ensures Sound(c, Act(f, a).next)
    ensures ClosedIds(Act(f, a).next.whole.ctx.stack.finalized) ==
            ClosedIds(f.whole.ctx.stack.finalized) + (if IsPop(a) then [a.u] else [])
  {
    StillInUse(c, f, a, rest, g);
    ActIsWhole(c, f, a);
    NotAClosingEvent(f, a);
    EffectIds(f.whole, a, Act(f, a).next.whole);
  }

  lemma {:induction false} RunPops(c: Context, f: Fine, actions: seq<Action>, g: Fine)
    requires Sound(c, f) && RunAll(f, actions) == Some(g) && !g.owner.Gone?
    ensures ClosedIds(g.whole.ctx.stack.finalized) == ClosedIds(f.whole.ctx.stack.finalized) + PopOrder(actions)
    decreases |actions|
  {
    if actions != [] {
      var a, rest := actions[0], actions[1..];
      PopsStep(c, f, a, rest, g);
      RunPops(c, Act(f, a).next, rest, g);
      AppendChain(ClosedIds(f.whole.ctx.stack.finalized), if IsPop(a) then [a.u] else [],
                  ClosedIds(Act(f, a).next.whole.ctx.stack.finalized), PopOrder(rest), ClosedIds(g.whole.ctx.stack.finalized));
    }
  }

  lemma PushesStep(c: Context, f: Fine, a: Action, rest: seq<Action>, g: Fine)
    requires Sound(c, f) && Act(f, a).To? && RunAll(Act(f, a).next, rest) == Some(g) && !g.owner.Gone?
    ensures Sound(c, Act(f, a).next)
    ensures ClosedIds(Act(f, a).next.sys.ctx.stack.finalized) ==
            ClosedIds(f.sys.ctx.stack.finalized) + (if IsPush(a) then [a.u] else [])
  {
    StillInUse(c, f, a, rest, g);
    FineOrder(f, a);
  }

  lemma {:induction false} RunPushes(c: Context, f: Fine, actions: seq<Action>, g: Fine)
    requires Sound(c, f) && RunAll(f, actions) == Some(g) && !g.owner.Gone?
    ensures ClosedIds(g.sys.ctx.stack.finalized) == ClosedIds(f.sys.ctx.stack.finalized) + PushOrder(actions)
    decreases |actions|
  {
    if actions != [] {
      var a, rest := actions[0], actions[1..];
      PushesStep(c, f, a, rest, g);
      RunPushes(c, Act(f, a).next, rest, g);
      AppendChain(ClosedIds(f.sys.ctx.stack.finalized), if IsPush(a) then [a.u] else [],
                  ClosedIds(Act(f, a).next.sys.ctx.stack.finalized), PushOrder(rest), ClosedIds(g.sys.ctx.stack.finalized));
    }
  }

  lemma AppendChain(ids: seq<int>, step: seq<int>, ids': seq<int>, rest: seq<int>, all: seq<int>)
    requires ids' == ids + step && all == ids' + rest
    ensures all == ids + (step + rest)
  {
  }

  /**
   In every run, as long as the context is not dropped: the shared state is that of a run of whole
   operations, except for the entries still to be pushed and their order, and every further action is one
   whole operation or none.
   */
  lemma EveryActIsWhole(c: Context, actions: seq<Action>, f: Fine, a: Action)
    requires Fresh(c) && RunAll(Begin(c), actions) == Some(f) && !f.owner.Gone? && Act(f, a).To?
    ensures ReachableFrom(c, f.whole) && Same(f)
    ensures match Effect(a)
            case Some(e) => Step(f.whole, e) == Some(Act(f, a).next.whole)
            case None => Act(f, a).next.whole == f.whole
  {
    BeginSound(c);
    RunSound(c, Begin(c), actions, f);
    ActIsWhole(c, f, a);
  }

  /**
   What panics in any run, orderly or not, and with which message: dropping an asynchronous span with
   neither the context nor a Span left, reporting with an asynchronous span left, closing a span that is
   not innermost, and opening a local or exit span before any entry span. The entry of an asynchronous
   span is never missing, and the wait group never underflows.
   */
  lemma EveryPanic(c: Context, actions: seq<Action>, f: Fine, a: Action)
    requires Fresh(c) && RunAll(Begin(c), actions) == Some(f)
    ensures Explained(f, a, Act(f, a))
    ensures f.group.count == |f.sys.asyncs| + |f.filled| + |Counting(f.pcs)|
  {
    RunStateBacked(c, actions, f);
    PanicsByMisuse(c, f, a);
  }

  /** Everybody can do at any time what the things they hold allow. */
  lemma EveryChance(c: Context, actions: seq<Action>, f: Fine, a: Action)
    requires Fresh(c) && RunAll(Begin(c), actions) == Some(f)
    ensures Act(f, a).Disabled? <==> !Possible(f, a)
  {
    RunStateBacked(c, actions, f);
    DisabledIff(f, a);
  }

  lemma RunStateBacked(c: Context, actions: seq<Action>, f: Fine)
    requires Fresh(c) && RunAll(Begin(c), actions) == Some(f)
    ensures Sound(c, f) && (f.owner.Gone? ==> Backed(f))
  {
    BeginSound(c);
    RunSound(c, Begin(c), actions, f);
    RunBacked(c, Begin(c), actions, f);
  }

  lemma {:induction false} RunBacked(c: Context, f: Fine, actions: seq<Action>, g: Fine)
    requires Sound(c, f) && (f.owner.Gone? ==> Backed(f)) && RunAll(f, actions) == Some(g)
    ensures g.owner.Gone? ==> Backed(g)
    decreases |actions|
  {
    if actions != [] {
      ActKeepsSound(c, f, actions[0]);
      ActKeepsBacked(c, f, actions[0]);
      RunBacked(c, Act(f, actions[0]).next, actions[1..], g);
    }
  }

  // ---- The reported spans ----

  lemma EntryOfAt(fin: seq<FinalizeSpan>, k: nat)
    requires Distinct(fin) && k < |fin|
    ensures EntryOf(fin, fin[k].uid) == Some(fin[k])
  {
  }

  lemma IdIffEntry(fin: seq<FinalizeSpan>, u: nat)
    ensures u in ClosedIds(fin) <==> EntryOf(fin, u).Some?
  {
    var ids, k := ClosedIds(fin), FirstEntry(fin, u);
    if k < |fin| {
      assert ids[k] == u;
    } else {
      assert forall j :: 0 <= j < |ids| ==> ids[j] != u;
    }
  }

  /** What is found under a uid in fin is also in all. */
  lemma SameElements(fin: seq<FinalizeSpan>, all: seq<FinalizeSpan>)
    requires Distinct(fin) && forall u: nat :: EntryOf(fin, u).Some? ==> EntryOf(all, u) == EntryOf(fin, u)
    ensures forall e :: e in fin ==> e in all
  {
    forall e | e in fin ensures e in all {
      var k :| 0 <= k < |fin| && fin[k] == e;
      EntryOfAt(fin, k);
      assert EntryOf(all, e.uid) == Some(e);
    }
  }

  lemma {:induction false} CountOnce(s: seq<SpanObject>, x: SpanObject)
    requires forall i, j :: 0 <= i < j < |s| ==> s[i] != s[j]
    ensures multiset(s)[x] == if x in s then 1 else 0
  {
    if s != [] {
      CountOnce(s[1..], x);
      assert s == [s[0]] + s[1..];
      assert x in s <==> x == s[0] || x in s[1..];
    }
  }

  lemma SameMultiset(s: seq<SpanObject>, t: seq<SpanObject>)
    requires forall i, j :: 0 <= i < j < |s| ==> s[i] != s[j]
    requires forall i, j :: 0 <= i < j < |t| ==> t[i] != t[j]
    requires forall x :: x in s <==> x in t
    ensures multiset(s) == multiset(t)
  {
    forall x ensures multiset(s)[x] == multiset(t)[x] {
      CountOnce(s, x);
      CountOnce(t, x);
    }
  }

  ghost predicate DistinctSpans(fin: seq<FinalizeSpan>, ps: seq<int>) {
    Distinct(fin) && AllFilled(fin) && EntriesMatch(fin, ps)
  }

  lemma ObjectsDiffer(fin: seq<FinalizeSpan>, ps: seq<int>)
    requires DistinctSpans(fin, ps)
    ensures forall i, j :: 0 <= i < j < |fin| ==> Objects(fin)[i] != Objects(fin)[j]
  {
  }

  lemma ObjectsIn(fin: seq<FinalizeSpan>, all: seq<FinalizeSpan>, x: SpanObject)
    requires AllFilled(fin) && AllFilled(all) && (forall e :: e in fin ==> e in all) && x in Objects(fin)
    ensures x in Objects(all)
  {
    var k :| 0 <= k < |fin| && Objects(fin)[k] == x;
    assert fin[k] in all;
    var j :| 0 <= j < |all| && all[j] == fin[k];
    assert Objects(all)[j] == x;
  }

  /** Full lists with the same entries hold the same objects, in an order that the uids tell. */
  lemma SameObjects(fin: seq<FinalizeSpan>, all: seq<FinalizeSpan>, ps: seq<int>)
    requires DistinctSpans(fin, ps) && DistinctSpans(all, ps) && forall u: nat :: EntryOf(fin, u) == EntryOf(all, u)
    ensures multiset(Objects(fin)) == multiset(Objects(all))
    ensures Objects(fin) == Objects(all) <==> ClosedIds(fin) == ClosedIds(all)
  {
    SameElements(fin, all);
    SameElements(all, fin);
    ObjectsDiffer(fin, ps);
    ObjectsDiffer(all, ps);
    forall x ensures x in Objects(fin) <==> x in Objects(all) {
      if x in Objects(fin) {
        ObjectsIn(fin, all, x);
      }
      if x in Objects(all) {
        ObjectsIn(all, fin, x);
      }
    }
    SameMultiset(Objects(fin), Objects(all));
    SameIdsSameObjects(fin, all, ps);
  }

  lemma SameIdsSameObjects(fin: seq<FinalizeSpan>, all: seq<FinalizeSpan>, ps: seq<int>)
    requires DistinctSpans(fin, ps) && DistinctSpans(all, ps) && forall u: nat :: EntryOf(fin, u) == EntryOf(all, u)
    ensures Objects(fin) == Objects(all) <==> ClosedIds(fin) == ClosedIds(all)
  {
    if ClosedIds(fin) == ClosedIds(all) {
      assert |fin| == |all|;
      forall k | 0 <= k < |fin| ensures fin[k] == all[k] {
        assert ClosedIds(fin)[k] == ClosedIds(all)[k];
        EntryOfAt(fin, k);
        EntryOfAt(all, k);
      }
    }
    if Objects(fin) == Objects(all) {
      assert |fin| == |all|;
      forall k | 0 <= k < |fin| ensures fin[k].uid == all[k].uid {
        assert Objects(fin)[k] == Objects(all)[k];
      }
    }
  }

  /** All entries are those of the whole operations when no thread is closing a span. */
  lemma NothingLate(f: Fine)
    requires Same(f) && PcsOk(f) && StackOk(f) && f.sys.asyncs == map[] && f.sys.spans == map[]
    ensures f.whole.spans == map[] && f.whole.asyncs == map[] && f.whole.ctx.stack.active == []
    ensures forall u: nat :: EntryOf(f.sys.ctx.stack.finalized, u) == EntryOf(f.whole.ctx.stack.finalized, u)
  {
    assert f.pcs.Keys == {};
    assert f.whole.spans.Keys == {} && f.whole.asyncs.Keys == {};
    assert LateEntries(f) == map[];
    IdleOpen(f);
  }

  lemma WholeDistinct(s: System)
    requires Inv(s) && s.asyncs == map[]
    ensures DistinctSpans(s.ctx.stack.finalized, s.parents)
  {
    ReportableIffInv(s);
    ShapeDistinct(s.ctx, s.parents);
  }

  /** All entries are those of the whole operations when no thread is closing a span. */
  lemma AllPushed(c: Context, f: Fine)
    requires Linked(c, f) && Tidy(f) && f.sys.asyncs == map[] && f.sys.spans == map[]
    ensures f.whole.spans == map[] && f.whole.asyncs == map[] && f.whole.ctx.stack.active == []
    ensures Inv(f.whole) && DistinctSpans(f.whole.ctx.stack.finalized, f.whole.parents)
    ensures DistinctSpans(f.sys.ctx.stack.finalized, f.whole.parents)
    ensures forall u: nat :: EntryOf(f.sys.ctx.stack.finalized, u) == EntryOf(f.whole.ctx.stack.finalized, u)
  {
    NothingLate(f);
    ReachableHasInv(f.whole);
    WholeDistinct(f.whole);
    SegmentWorks(c, f);
    EntriesKnown(c, f);
  }

  /** f is reached by some interleaving, and a drops the context, which reports the segment. */
  ghost predicate Reports(c: Context, actions: seq<Action>, f: Fine, a: Action) {
    Fresh(c) && RunAll(Begin(c), actions) == Some(f) && IsReport(a) && Act(f, a).To?
  }

  lemma OrdersFrom(c: Context, f: Fine, actions: seq<Action>, g: Fine)
    requires Sound(c, f) && RunAll(f, actions) == Some(g) && !g.owner.Gone?
    requires |f.whole.ctx.stack.finalized| == 0 && |f.sys.ctx.stack.finalized| == 0
    ensures ClosedIds(g.whole.ctx.stack.finalized) == PopOrder(actions)
    ensures ClosedIds(g.sys.ctx.stack.finalized) == PushOrder(actions)
  {
    RunPops(c, f, actions, g);
    RunPushes(c, f, actions, g);
    FromEmpty(ClosedIds(f.whole.ctx.stack.finalized), PopOrder(actions), ClosedIds(g.whole.ctx.stack.finalized));
    FromEmpty(ClosedIds(f.sys.ctx.stack.finalized), PushOrder(actions), ClosedIds(g.sys.ctx.stack.finalized));
  }

  lemma FromEmpty(before: seq<int>, more: seq<int>, after: seq<int>)
    requires |before| == 0 && after == before + more
    ensures after == more
  {
  }

  lemma RunStateFrom(c: Context, f: Fine, actions: seq<Action>, g: Fine)
    requires Sound(c, f) && RunAll(f, actions) == Some(g) && !g.owner.Gone?
    requires |f.whole.ctx.stack.finalized| == 0 && |f.sys.ctx.stack.finalized| == 0
    ensures Sound(c, g)
    ensures ClosedIds(g.whole.ctx.stack.finalized) == PopOrder(actions)
    ensures ClosedIds(g.sys.ctx.stack.finalized) == PushOrder(actions)
  {
    RunSound(c, f, actions, g);
    OrdersFrom(c, f, actions, g);
  }

  /** The state after a run, and the lists of closed spans in it. */
  lemma RunState(c: Context, actions: seq<Action>, f: Fine)
    requires Fresh(c) && RunAll(Begin(c), actions) == Some(f) && !f.owner.Gone?
    ensures Sound(c, f)
    ensures ClosedIds(f.whole.ctx.stack.finalized) == PopOrder(actions)
    ensures ClosedIds(f.sys.ctx.stack.finalized) == PushOrder(actions)
  {
    BeginSound(c);
    RunStateFrom(c, Begin(c), actions, f);
  }

  /** What the owner of the context and the holders of spans did, in order. */
  function UserEvents(actions: seq<Action>): seq<Event> {
    if actions == [] then []
    else (if actions[0].User? then [actions[0].e] else []) + UserEvents(actions[1..])
  }

  lemma ActHeader(f: Fine, a: Action)
    requires Act(f, a).To?
    ensures SameIdentity(Act(f, a).next.sys.ctx, f.sys.ctx)
    ensures Act(f, a).next.sys.ctx.traceId == if a.User? then TraceIdNext(a.e, f.sys.ctx.traceId) else f.sys.ctx.traceId
  {
    if a.User? {
      UserActs(f, a.e);
      StepHeader(f.sys, a.e, Act(f, a).next.sys);
    }
  }

  lemma {:induction false} RunAllHeader(f: Fine, actions: seq<Action>, g: Fine)
    requires RunAll(f, actions) == Some(g)
    ensures SameIdentity(g.sys.ctx, f.sys.ctx)
    ensures g.sys.ctx.traceId == TraceIdAfter(UserEvents(actions), f.sys.ctx.traceId)
    decreases |actions|
  {
    if actions != [] {
      var a, rest := actions[0], actions[1..];
      ActHeader(f, a);
      RunAllHeader(Act(f, a).next, rest, g);
      FirstUserEvent(actions, f.sys.ctx.traceId);
    }
  }

  lemma FirstUserEvent(actions: seq<Action>, before: Text)
    requires actions != []
    ensures TraceIdAfter(UserEvents(actions), before) ==
            TraceIdAfter(UserEvents(actions[1..]), if actions[0].User? then TraceIdNext(actions[0].e, before) else before)
  {
    var rest := UserEvents(actions[1..]);
    if actions[0].User? {
      assert UserEvents(actions) == [actions[0].e] + rest && ([actions[0].e] + rest)[1..] == rest;
    } else {
      assert UserEvents(actions) == rest;
    }
  }

  lemma ReportedSegment(f: Fine, a: Action)
    requires IsReport(a) && Act(f, a).To?
    ensures !f.owner.Gone? && Some(Act(f, a).next.owner.segment) == Segment(f.sys.ctx)
  {
    ReportActs(f, a);
  }

  lemma ReportState(c: Context, actions: seq<Action>, f: Fine, a: Action)
    requires Reports(c, actions, f, a)
    ensures Sound(c, f) && !f.owner.Gone?
    ensures Some(Act(f, a).next.owner.segment) == Segment(f.sys.ctx)
    ensures ClosedIds(f.whole.ctx.stack.finalized) == PopOrder(actions)
    ensures ClosedIds(f.sys.ctx.stack.finalized) == PushOrder(actions)
  {
    ReportedSegment(f, a);
    RunState(c, actions, f);
  }

  lemma AllFinished(c: Context, f: Fine)
    requires Sound(c, f) && !f.owner.Gone? && Segment(f.sys.ctx).Some?
    ensures f.sys.asyncs == map[]
  {
    SegmentWorks(c, f);
  }

  lemma Issued(c: Context, f: Fine, u: nat)
    requires ReachableFrom(c, f.whole)
    ensures u < f.whole.ctx.nextSpanId <==> u in f.whole.spans || EntryOf(f.whole.ctx.stack.finalized, u).Some?
    ensures u in f.whole.spans ==> EntryOf(f.whole.ctx.stack.finalized, u).None?
  {
    var es :| Reaches(c, es, f.whole);
    EverySpanOnce(c, es, f.whole, u);
  }

  lemma PushedOnce(c: Context, f: Fine, u: nat)
    requires Linked(c, f) && Tidy(f)
    ensures EntryOf(f.sys.ctx.stack.finalized, u).Some? <==> u < f.sys.ctx.nextSpanId && u !in f.sys.spans
  {
    Issued(c, f, u);
    assert Late(f, u) <==> u in LateEntries(f);
  }

  /**
   Whatever the interleaving, orderly or not: the segment lists its spans in the order in which their
   entries were pushed, each once. A span held while the context is dropped is missing, and no other.
   The segment has the identity of the context and the trace id adopted last.
   */
  lemma ReportedInPushOrder(c: Context, actions: seq<Action>, f: Fine, a: Action)
    requires Reports(c, actions, f, a)
    ensures var ids := SpanIds(Act(f, a).next.owner.segment.spans);
            && ids == PushOrder(actions)
            && (forall i, j :: 0 <= i < j < |ids| ==> ids[i] != ids[j])
            && (forall u: nat :: u in ids <==> u < f.sys.ctx.nextSpanId && u !in f.sys.spans)
    ensures var seg := Act(f, a).next.owner.segment;
            && seg.traceId == TraceIdAfter(UserEvents(actions), c.traceId) && seg.traceSegmentId == c.traceSegmentId
            && seg.service == c.service && seg.serviceInstance == c.serviceInstance && !seg.isSizeLimited
  {
    ReportState(c, actions, f, a);
    ListedIds(c, f);
    ListedHeader(c, actions, f);
  }

  /** What the list of closed spans says, whatever its order. */
  lemma ListedIds(c: Context, f: Fine)
    requires Linked(c, f) && Tidy(f) && AllFilled(f.sys.ctx.stack.finalized)
    ensures var fin := f.sys.ctx.stack.finalized;
            var ids := SpanIds(Objects(fin));
            && ids == ClosedIds(fin)
            && (forall i, j :: 0 <= i < j < |ids| ==> ids[i] != ids[j])
            && (forall u: nat :: u in ids <==> u < f.sys.ctx.nextSpanId && u !in f.sys.spans)
  {
    var fin := f.sys.ctx.stack.finalized;
    EntriesKnown(c, f);
    assert SpanIds(Objects(fin)) == ClosedIds(fin);
    forall u: nat ensures u in ClosedIds(fin) <==> u < f.sys.ctx.nextSpanId && u !in f.sys.spans {
      PushedOnce(c, f, u);
      IdIffEntry(fin, u);
    }
  }

  lemma ListedHeader(c: Context, actions: seq<Action>, f: Fine)
    requires Fresh(c) && RunAll(Begin(c), actions) == Some(f) && Segment(f.sys.ctx).Some?
    ensures var seg := Segment(f.sys.ctx).value;
            && seg.traceId == TraceIdAfter(UserEvents(actions), c.traceId) && seg.traceSegmentId == c.traceSegmentId
            && seg.service == c.service && seg.serviceInstance == c.serviceInstance && !seg.isSizeLimited
  {
    RunAllHeader(Begin(c), actions, f);
  }

  lemma SubMatch(fin: seq<FinalizeSpan>, all: seq<FinalizeSpan>, ps: seq<int>)
    requires EntriesMatch(all, ps) && forall e :: e in fin ==> e in all
    ensures EntriesMatch(fin, ps)
  {
    forall k | 0 <= k < |fin| && fin[k].obj.Some?
      ensures ObjectOf(fin[k].obj.value, fin[k].uid, ps) && fin[k].ref.None?
    {
      assert fin[k] in all;
    }
  }

  lemma EntriesKnown(c: Context, f: Fine)
    requires Linked(c, f)
    ensures EntriesMatch(f.sys.ctx.stack.finalized, f.sys.parents)
  {
    ReachableHasInv(f.whole);
    SameElements(f.sys.ctx.stack.finalized, f.whole.ctx.stack.finalized);
    SubMatch(f.sys.ctx.stack.finalized, f.whole.ctx.stack.finalized, f.whole.parents);
  }

  /**
   When no Span is held any more, the segment has exactly the spans that a run of whole operations
   reports which drops every span plainly. It is the same segment, and its spans are in the postorder of
   the forest that their own parent ids describe, exactly when the entries were pushed in the order of
   the pops. A single closing thread does that.
   */
  lemma ConcurrentReport(c: Context, actions: seq<Action>, f: Fine, a: Action) returns (es: seq<Event>, s: System)
    requires Reports(c, actions, f, a) && f.sys.spans == map[]
    ensures Reaches(c, es, s) && s.ctx.stack.active == [] && Segment(s.ctx).Some?
    ensures forall e :: e in es ==> !e.Prepare? && !e.EditAsync? && !e.DropAsync?
    ensures var seg, plain := Act(f, a).next.owner.segment, Segment(s.ctx).value;
            && multiset(seg.spans) == multiset(plain.spans) && seg == plain.(spans := seg.spans)
            && (seg == plain <==> PushOrder(actions) == PopOrder(actions))
            && Wf(ParentTable(seg.spans))
            && (SpanIds(seg.spans) == Postorder(ParentTable(seg.spans)) <==> PushOrder(actions) == PopOrder(actions))
    ensures OneAtATime(actions, None) ==> PushOrder(actions) == PopOrder(actions)
  {
    ReportState(c, actions, f, a);
    AllFinished(c, f);
    AllPushed(c, f);
    s := f.whole;
    var fs :| Reaches(c, fs, s);
    es := Synchronous(fs);
    AsyncClosingRefinesPlain(c, fs, s);
    SameObjects(f.sys.ctx.stack.finalized, s.ctx.stack.finalized, s.parents);
    PushedTable(f);
    if OneAtATime(actions, None) {
      OneThreadInOrder(actions, None);
    }
  }

  /** The list as pushed gives back the parent table, whatever its order. */
  lemma PushedTable(f: Fine)
    requires Inv(f.whole) && f.whole.ctx.stack.active == []
    requires DistinctSpans(f.whole.ctx.stack.finalized, f.whole.parents)
    requires DistinctSpans(f.sys.ctx.stack.finalized, f.whole.parents)
    requires forall u: nat :: EntryOf(f.sys.ctx.stack.finalized, u) == EntryOf(f.whole.ctx.stack.finalized, u)
    ensures SpanIds(Objects(f.sys.ctx.stack.finalized)) == ClosedIds(f.sys.ctx.stack.finalized)
    ensures ParentTable(Objects(f.sys.ctx.stack.finalized)) == f.whole.parents && Wf(f.whole.parents)
    ensures Postorder(f.whole.parents) == ClosedIds(f.whole.ctx.stack.finalized)
  {
    var fin, all, n := f.sys.ctx.stack.finalized, f.whole.ctx.stack.finalized, |f.whole.parents|;
    assert ClosingOrder(f.whole.ctx.stack) == ClosedIds(all);
    SameElements(fin, all);
    SameElements(all, fin);
    forall x ensures x in ClosedIds(fin) <==> 0 <= x < n {
      IdsIn(fin, all, x);
      IdsIn(all, fin, x);
    }
    TableOf(fin, f.whole.parents);
  }

  lemma IdsIn(fin: seq<FinalizeSpan>, all: seq<FinalizeSpan>, x: int)
    requires forall e :: e in fin ==> e in all
    ensures x in ClosedIds(fin) ==> x in ClosedIds(all)
  {
    if x in ClosedIds(fin) {
      var k :| 0 <= k < |fin| && ClosedIds(fin)[k] == x;
      assert fin[k] in all;
      var j :| 0 <= j < |all| && all[j] == fin[k];
      assert ClosedIds(all)[j] == x;
    }
  }

  /** Two threads that drop the two innermost spans can push them in the other order. */
  lemma TwoClosersReorder(f: Fine, u: nat, v: nat) returns (actions: seq<Action>, g: Fine)
    requires var active := f.sys.ctx.stack.active;
             |active| >= 2 && active[|active| - 1].uid == u && active[|active| - 2].uid == v && u != v
    requires u in f.sys.spans && v in f.sys.spans && u !in f.pcs && v !in f.pcs
    ensures RunAll(f, actions) == Some(g)
    ensures PopOrder(actions) == [u, v] && PushOrder(actions) == [v, u]
  {
    var f1 := PopRuns(f, u);
    var f2 := PopRuns(f1, v);
    var pushes;
    pushes, g := PushTwo(f2, v, u);
    FirstAction(f1, DropPop(v), f2, pushes, g);
    FirstAction(f, DropPop(u), f1, [DropPop(v)] + pushes, g);
    actions := [DropPop(u)] + ([DropPop(v)] + pushes);
  }

  lemma PushTwo(f: Fine, v: nat, u: nat) returns (actions: seq<Action>, g: Fine)
    requires u != v && u in f.sys.spans && v in f.sys.spans && u in f.pcs && v in f.pcs
    requires f.pcs[u].Dropping? && f.pcs[v].Dropping?
    ensures RunAll(f, actions) == Some(g) && PopOrder(actions) == [] && PushOrder(actions) == [v, u]
  {
    var h := PushRuns(f, v);
    g := PushRuns(h, u);
    var none: seq<Action> := [];
    FirstAction(h, DropPush(u), g, none, g);
    FirstAction(f, DropPush(v), h, [DropPush(u)] + none, g);
    actions := [DropPush(v)] + ([DropPush(u)] + none);
  }

  lemma FirstAction(f: Fine, a: Action, f': Fine, rest: seq<Action>, g: Fine)
    requires Act(f, a) == To(f') && RunAll(f', rest) == Some(g)
    ensures RunAll(f, [a] + rest) == Some(g)
    ensures PopOrder([a] + rest) == (if IsPop(a) then [a.u] else []) + PopOrder(rest)
    ensures PushOrder([a] + rest) == (if IsPush(a) then [a.u] else []) + PushOrder(rest)
  {
    RunAllCons(f, a, rest);
    assert ([a] + rest)[0] == a && ([a] + rest)[1..] == rest;
  }

  lemma PopRuns(f: Fine, u: nat) returns (g: Fine)
    requires IsTop(f.sys.ctx.stack.active, u) && u in f.sys.spans && u !in f.pcs
    ensures Act(f, DropPop(u)) == To(g) && g.sys == Pop(f.sys) && g.pcs == f.pcs[u := Dropping(Top(f.sys))]
  {
    g := Act(f, DropPop(u)).next;
  }

  lemma PushRuns(f: Fine, u: nat) returns (g: Fine)
    requires u in f.sys.spans && u in f.pcs && f.pcs[u].Dropping?
    ensures Act(f, DropPush(u)) == To(g) && g.sys.spans == f.sys.spans - {u} && g.pcs == f.pcs - {u}
  {
    g := Act(f, DropPush(u)).next;
  }
}
