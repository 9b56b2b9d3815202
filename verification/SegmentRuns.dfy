/**
 Runs of a tracing context together with the handles its user holds: the open Span objects, the
 AsyncSpan objects, and the wait-group count. Every step here is one whole operation;
 AsyncProtocol takes the operations apart into their lock-guarded actions.
 */
module SegmentRuns {
  import opened Wrappers
  import opened Maps
  import opened Text
  import opened SpanStack
  import opened Forest
  import opened TraceContext

  datatype Edit = Tag(key: Text, value: Text) | Log(data: seq<(Text, Text)>)

  function ApplyEdit(o: SpanObject, e: Edit): SpanObject {
    match e
    case Tag(k, v) => o.(tags := o.tags + [(k, v)])
    case Log(d) => o.(logs := o.logs + [d])
  }

  datatype Event =
    | CreateEntry(op: Text)
    | CreateEntryFrom(op: Text, from: PropagationContext)
    | CreateLocal(op: Text)
    | CreateExit(op: Text, peer: Text)
    | EditSpan(uid: nat, edit: Edit)
    | EditAsync(uid: nat, edit: Edit)
    | Continue(snapshot: ContextSnapshot)
    | DropSpan(uid: nat)
    | Prepare(uid: nat)
    | DropAsync(uid: nat)

  /** parents is a history variable: the parent id given to each span, in order of creation. */
  datatype System = System(
    ctx: Context,
    spans: map<nat, SpanObject>,
    asyncs: map<nat, SpanObject>,
    pending: int,
    parents: seq<int>)

  function Start(ctx: Context): System {
    System(ctx, map[], map[], 0, [])
  }

  /** The state once the next span is open with the given object. */
  function Create(s: System, obj: SpanObject): System {
    System(Opened(s.ctx, obj.operationName), s.spans[s.ctx.nextUid := obj], s.asyncs, s.pending,
           s.parents + [obj.parentSpanId])
  }

  function WithStack(s: System, st: Stack): System {
    s.(ctx := s.ctx.(stack := st))
  }

  /** The object of the span that a creating event opens. */
  function CreatedObject(c: Context, e: Event): SpanObject
    requires Creates(e)
  {
    match e
    case CreateEntry(op) => NextSpan(c, op, EMPTY, Entry)
    case CreateEntryFrom(op, p) => NextSpan(c, op, EMPTY, Entry).(refs := [CrossProcessRef(p)])
    case CreateLocal(op) => NextSpan(c, op, EMPTY, Local)
    case CreateExit(op, peer) => NextSpan(c, op, peer, Exit)
  }

  /** One operation; None when the handle it needs is not held, or when the library panics. */
  function Step(s: System, e: Event): Option<System> {
    match e
    case CreateEntry(_) =>
      Some(Create(s, CreatedObject(s.ctx, e)))
    case CreateEntryFrom(_, p) =>
      var s' := Create(s, CreatedObject(s.ctx, e));
      Some(s'.(ctx := s'.ctx.(traceId := p.parentTraceId)))
    case CreateLocal(_) =>
      if s.ctx.nextSpanId == 0 then None else Some(Create(s, CreatedObject(s.ctx, e)))
    case CreateExit(_, _) =>
      if s.ctx.nextSpanId == 0 then None else Some(Create(s, CreatedObject(s.ctx, e)))
    case EditSpan(u, edit) =>
      if u !in s.spans then None else Some(s.(spans := s.spans[u := ApplyEdit(s.spans[u], edit)]))
    case EditAsync(u, edit) =>
      if u !in s.asyncs then None else Some(s.(asyncs := s.asyncs[u := ApplyEdit(s.asyncs[u], edit)]))
    case Continue(snapshot) =>
      Some(s.(ctx := Continued(s.ctx, snapshot)))
    case DropSpan(u) =>
      if u !in s.spans then None
      else (
        match Close(s.ctx.stack, u, Some(s.spans[u]))
        case None => None
        case Some(st) => Some(WithStack(s, st).(spans := s.spans - {u}))
      )
    case Prepare(u) =>
      if u !in s.spans then None
      else (
        match Close(s.ctx.stack, u, None)
        case None => None
        case Some(st) =>
          Some(WithStack(s, st).(spans := s.spans - {u}, asyncs := s.asyncs[u := s.spans[u]], pending := s.pending + 1))
      )
    case DropAsync(u) =>
      if u !in s.asyncs then None
      else (
        match Fill(s.ctx.stack.finalized, u, s.asyncs[u])
        case None => None
        case Some(fin) =>
          Some(WithStack(s, s.ctx.stack.(finalized := fin)).(asyncs := s.asyncs - {u}, pending := s.pending - 1))
      )
  }

  function Run(s: System, es: seq<Event>): Option<System>
    decreases |es|
  {
    if es == [] then Some(s)
    else
      match Step(s, es[0])
      case None => None
      case Some(s') => Run(s', es[1..])
  }

  lemma {:induction false} RunConcat(s: System, es: seq<Event>, fs: seq<Event>)
    ensures Run(s, es + fs) == match Run(s, es) case None => None case Some(s') => Run(s', fs)
    decreases |es|
  {
    if es == [] {
      assert es + fs == fs;
    } else {
      assert (es + fs)[1..] == es[1..] + fs;
      match Step(s, es[0])
      case None =>
      case Some(s') => RunConcat(s', es[1..], fs);
    }
  }

  lemma RunOne(s: System, e: Event, s': System)
    requires Step(s, e) == Some(s')
    ensures Run(s, [e]) == Some(s')
  {
    assert Run(s', [e][1..]) == Some(s');
  }

  // ---- What single operations do ----

  function Top(s: System): ActiveSpan
    requires s.ctx.stack.active != []
  {
    s.ctx.stack.active[|s.ctx.stack.active| - 1]
  }

  predicate Creates(e: Event) {
    e.CreateEntry? || e.CreateEntryFrom? || e.CreateLocal? || e.CreateExit?
  }

  /** What opening a span does. */
  lemma Opens(s: System, e: Event, s': System)
    requires Creates(e) && Step(s, e) == Some(s')
    ensures s'.ctx.stack.finalized == s.ctx.stack.finalized && s'.asyncs == s.asyncs
    ensures s'.spans == s.spans[s.ctx.nextUid := CreatedObject(s.ctx, e)]
    ensures s'.parents == s.parents + [CreatedObject(s.ctx, e).parentSpanId]
    ensures s'.ctx.stack.active == s.ctx.stack.active + [ActiveSpan(s.ctx.nextUid, s.ctx.nextSpanId, None)]
    ensures s'.ctx == Opened(s.ctx, CreatedObject(s.ctx, e).operationName).(traceId := s'.ctx.traceId)
    ensures s'.ctx.traceId == if e.CreateEntryFrom? then e.from.parentTraceId else s.ctx.traceId
  {
  }

  /** What closing the innermost span does. */
  lemma Closes(s: System, u: nat, plain: bool, s': System)
    requires Step(s, if plain then DropSpan(u) else Prepare(u)) == Some(s')
    ensures IsTop(s.ctx.stack.active, u) && u in s.spans
    ensures s'.ctx == s.ctx.(stack := s'.ctx.stack) && s'.parents == s.parents
    ensures s'.ctx.stack.active == s.ctx.stack.active[..|s.ctx.stack.active| - 1]
    ensures s'.ctx.stack.finalized == s.ctx.stack.finalized
                                      + [ClosedEntry(Top(s), u, if plain then Some(s.spans[u]) else None)]
    ensures s'.spans == s.spans - {u}
    ensures s'.asyncs == if plain then s.asyncs else s.asyncs[u := s.spans[u]]
  {
  }

  /** What filling an entry does. */
  lemma Fills(s: System, u: nat, s': System)
    requires Step(s, DropAsync(u)) == Some(s')
    ensures u in s.asyncs && EntryOf(s.ctx.stack.finalized, u).Some?
    ensures Fill(s.ctx.stack.finalized, u, s.asyncs[u]) == Some(s'.ctx.stack.finalized)
    ensures s'.ctx == s.ctx.(stack := s.ctx.stack.(finalized := s'.ctx.stack.finalized)) && s'.parents == s.parents
    ensures s'.spans == s.spans && s'.asyncs == s.asyncs - {u}
  {
  }

  // ---- The invariant of every run ----

  /** o is the object of span u. */
  ghost predicate ObjectOf(o: SpanObject, u: int, ps: seq<int>) {
    0 <= u < |ps| && o.spanId == u && o.parentSpanId == ps[u]
  }

  /** u is the uid of an open span. */
  ghost predicate IsOpen(active: seq<ActiveSpan>, u: int) {
    exists k :: 0 <= k < |active| && active[k].uid == u
  }

  /** Span u was closed by prepare_for_async and its entry is still empty. */
  ghost predicate Unfilled(fin: seq<FinalizeSpan>, u: int) {
    exists k :: 0 <= k < |fin| && fin[k].uid == u && fin[k].obj.None?
  }

  /** The Span handles are those of the open spans, the AsyncSpan handles those of the empty entries. */
  ghost predicate HandlesMatch(s: System) {
    && (forall u: nat :: u in s.spans <==> IsOpen(s.ctx.stack.active, u))
    && (forall u: nat :: u in s.asyncs <==> Unfilled(s.ctx.stack.finalized, u))
    && s.pending == |s.asyncs|
  }

  /** Every object carries the id of its span and the parent recorded for it. */
  ghost predicate ObjectsMatch(s: System) {
    && (forall u :: u in s.spans ==> ObjectOf(s.spans[u], u, s.parents))
    && (forall u :: u in s.asyncs ==> ObjectOf(s.asyncs[u], u, s.parents))
    && EntriesMatch(s.ctx.stack.finalized, s.parents)
  }

  ghost predicate EntriesMatch(fin: seq<FinalizeSpan>, ps: seq<int>) {
    forall k :: 0 <= k < |fin| && fin[k].obj.Some? ==> ObjectOf(fin[k].obj.value, fin[k].uid, ps) && fin[k].ref.None?
  }

  ghost predicate Inv(s: System) {
    Shape(s.ctx, s.parents) && HandlesMatch(s) && ObjectsMatch(s)
  }

  /** The closed ids are pairwise different, none of them is open, and all of them were issued. */
  ghost predicate DistinctIds(st: Stack, n: nat) {
    && (forall i, j :: 0 <= i < j < |st.finalized| ==> st.finalized[i].uid != st.finalized[j].uid)
    && (forall i, k :: 0 <= i < |st.finalized| && 0 <= k < |st.active| ==> st.finalized[i].uid != st.active[k].uid)
    && (forall j, k :: 0 <= j < k < |st.active| ==> st.active[j].uid < st.active[k].uid)
    && (forall i :: 0 <= i < |st.finalized| ==> st.finalized[i].uid < n)
    && (forall k :: 0 <= k < |st.active| ==> st.active[k].uid < n)
  }

  lemma ShapeDistinct(c: Context, ps: seq<int>)
    requires Shape(c, ps)
    ensures DistinctIds(c.stack, |ps|) && c.nextSpanId == c.nextUid == |ps|
  {
    var fin, active := c.stack.finalized, c.stack.active;
    var order := ClosingOrder(c.stack);
    assert forall i :: 0 <= i < |fin| ==> order[i] == fin[i].uid && order[i] in order;
    forall k | 0 <= k < |active|
      ensures active[k].uid < |ps| && forall i :: 0 <= i < |fin| ==> fin[i].uid != active[k].uid
    {
      var j := |fin| + |active| - 1 - k;
      assert order[j] == active[k].uid && order[j] in order;
    }
  }

  lemma OpenMoves(st: Stack, a: ActiveSpan)
    ensures forall v: nat :: IsOpen(st.active + [a], v) <==> IsOpen(st.active, v) || v == a.uid
  {
    var active, active' := st.active, st.active + [a];
    forall v: nat ensures IsOpen(active', v) <==> IsOpen(active, v) || v == a.uid {
      if IsOpen(active, v) {
        var k :| 0 <= k < |active| && active[k].uid == v;
        assert active'[k].uid == v;
      }
      assert active'[|active|].uid == a.uid;
    }
  }

  /** What closing span u does to the open spans and to the empty entries. */
  lemma CloseMoves(st: Stack, u: nat, obj: Option<SpanObject>, n: nat)
    requires DistinctIds(st, n) && Close(st, u, obj).Some?
    ensures var st' := Close(st, u, obj).value;
            && u < n && IsOpen(st.active, u) && !Unfilled(st.finalized, u)
            && (forall v: nat :: IsOpen(st'.active, v) <==> IsOpen(st.active, v) && v != u)
            && (forall v: nat :: Unfilled(st'.finalized, v) <==> Unfilled(st.finalized, v) || (v == u && obj.None?))
  {
    var st' := Close(st, u, obj).value;
    var fin, fin' := st.finalized, st'.finalized;
    var active, active' := st.active, st'.active;
    var n := |active| - 1;
    assert active[n].uid == u;
    forall v: nat ensures IsOpen(active', v) <==> IsOpen(active, v) && v != u {
      if IsOpen(active, v) && v != u {
        var k :| 0 <= k < |active| && active[k].uid == v;
        assert active'[k].uid == v;
      }
      if IsOpen(active', v) {
        var k :| 0 <= k < |active'| && active'[k].uid == v;
        assert active[k].uid < active[n].uid;
      }
    }
    forall v: nat ensures Unfilled(fin', v) <==> Unfilled(fin, v) || (v == u && obj.None?) {
      if Unfilled(fin, v) {
        var k :| 0 <= k < |fin| && fin[k].uid == v && fin[k].obj.None?;
        assert fin'[k].uid == v;
      }
      assert fin'[|fin|].uid == u && (fin'[|fin|].obj.None? <==> obj.None?);
    }
  }

  /** What filling the empty entry of span u does. */
  lemma FillMoves(st: Stack, u: nat, obj: SpanObject, n: nat)
    requires DistinctIds(st, n) && Unfilled(st.finalized, u)
    ensures Fill(st.finalized, u, obj).Some?
    ensures forall v: nat :: Unfilled(Fill(st.finalized, u, obj).value, v) <==> Unfilled(st.finalized, v) && v != u
  {
    var fin := st.finalized;
    var k := FirstEntry(fin, u);
    var fin' := Fill(fin, u, obj).value;
    forall v: nat ensures Unfilled(fin', v) <==> Unfilled(fin, v) && v != u {
      if v != u && Unfilled(fin, v) {
        var j :| 0 <= j < |fin| && fin[j].uid == v && fin[j].obj.None?;
        assert fin'[j] == fin[j];
      }
    }
  }

  lemma RefMoves(active: seq<ActiveSpan>, ref: SegmentReference)
    ensures forall v: nat :: IsOpen(WithRef(active, ref), v) <==> IsOpen(active, v)
  {
    var active' := WithRef(active, ref);
    assert |active'| == |active| && forall k :: 0 <= k < |active| ==> active'[k].uid == active[k].uid;
  }

  lemma CreateKeepsHandles(s: System, obj: SpanObject, traceId: Text)
    requires HandlesMatch(s)
    ensures var s' := Create(s, obj); HandlesMatch(s'.(ctx := s'.ctx.(traceId := traceId)))
  {
    OpenMoves(s.ctx.stack, ActiveSpan(s.ctx.nextUid, s.ctx.nextSpanId, None));
  }

  lemma DropKeepsHandles(s: System, u: nat, s': System)
    requires HandlesMatch(s) && DistinctIds(s.ctx.stack, |s.parents|) && Step(s, DropSpan(u)) == Some(s')
    ensures HandlesMatch(s')
  {
    CloseMoves(s.ctx.stack, u, Some(s.spans[u]), |s.parents|);
  }

  lemma PrepareKeepsHandles(s: System, u: nat, s': System)
    requires HandlesMatch(s) && DistinctIds(s.ctx.stack, |s.parents|) && Step(s, Prepare(u)) == Some(s')
    ensures HandlesMatch(s')
  {
    CloseMoves(s.ctx.stack, u, None, |s.parents|);
    assert u !in s.asyncs;
  }

  lemma FilledKeepsHandles(s: System, u: nat, fin: seq<FinalizeSpan>)
    requires HandlesMatch(s) && u in s.asyncs
    requires forall v: nat :: Unfilled(fin, v) <==> Unfilled(s.ctx.stack.finalized, v) && v != u
    ensures HandlesMatch(WithStack(s, s.ctx.stack.(finalized := fin)).(asyncs := s.asyncs - {u}, pending := s.pending - 1))
  {
    RemoveSize(s.asyncs, u);
  }

  lemma StepFills(s: System, u: nat, s': System) returns (fin: seq<FinalizeSpan>)
    requires Step(s, DropAsync(u)) == Some(s')
    ensures u in s.asyncs && Fill(s.ctx.stack.finalized, u, s.asyncs[u]) == Some(fin)
    ensures s' == WithStack(s, s.ctx.stack.(finalized := fin)).(asyncs := s.asyncs - {u}, pending := s.pending - 1)
  {
    fin := s'.ctx.stack.finalized;
  }

  lemma FillKeepsHandles(s: System, u: nat, s': System)
    requires HandlesMatch(s) && DistinctIds(s.ctx.stack, |s.parents|) && Step(s, DropAsync(u)) == Some(s')
    ensures HandlesMatch(s')
  {
    var fin := StepFills(s, u, s');
    FillMoves(s.ctx.stack, u, s.asyncs[u], |s.parents|);
    FilledKeepsHandles(s, u, fin);
  }

  lemma StepKeepsHandles(s: System, e: Event, s': System)
    requires HandlesMatch(s) && DistinctIds(s.ctx.stack, |s.parents|)
    requires Step(s, e) == Some(s')
    ensures HandlesMatch(s')
  {
    match e
    case EditSpan(_, _) =>
    case EditAsync(u, _) => assert s'.asyncs.Keys == s.asyncs.Keys;
    case Continue(snapshot) => RefMoves(s.ctx.stack.active, CrossThreadRef(s.ctx, snapshot));
    case DropSpan(u) => DropKeepsHandles(s, u, s');
    case Prepare(u) => PrepareKeepsHandles(s, u, s');
    case DropAsync(u) => FillKeepsHandles(s, u, s');
    case _ => CreateKeepsHandles(s, CreatedObject(s.ctx, e), s'.ctx.traceId);
  }

  lemma CreateKeepsObjects(s: System, obj: SpanObject)
    requires ObjectsMatch(s) && s.ctx.nextUid == |s.parents| && obj.spanId == s.ctx.nextUid
    ensures ObjectsMatch(Create(s, obj))
  {
    assert s.parents <= Create(s, obj).parents;
  }

  lemma CloseKeepsObjects(s: System, e: Event, s': System)
    requires ObjectsMatch(s) && (e.DropSpan? || e.Prepare?) && Step(s, e) == Some(s')
    ensures ObjectsMatch(s')
  {
    assert ObjectOf(s.spans[e.uid], e.uid, s.parents);
    var fin, fin' := s.ctx.stack.finalized, s'.ctx.stack.finalized;
    assert fin' == fin + [fin'[|fin|]];
  }

  lemma FillKeepsObjects(s: System, u: nat, s': System)
    requires ObjectsMatch(s) && Step(s, DropAsync(u)) == Some(s')
    ensures ObjectsMatch(s')
  {
    assert ObjectOf(s.asyncs[u], u, s.parents);
  }

  lemma StepKeepsObjects(s: System, e: Event, s': System)
    requires ObjectsMatch(s) && s.ctx.nextUid == s.ctx.nextSpanId == |s.parents|
    requires Step(s, e) == Some(s')
    ensures ObjectsMatch(s')
  {
    match e
    case EditSpan(_, _) =>
    case EditAsync(_, _) =>
    case Continue(_) =>
    case DropSpan(_) => CloseKeepsObjects(s, e, s');
    case Prepare(_) => CloseKeepsObjects(s, e, s');
    case DropAsync(u) => FillKeepsObjects(s, u, s');
    case _ => CreateKeepsObjects(s, CreatedObject(s.ctx, e));
  }

  lemma SameShape(c: Context, c': Context, ps: seq<int>)
    requires Shape(c, ps) && c' == c.(traceId := c'.traceId)
    ensures Shape(c', ps)
  {
  }

  lemma CreateKeepsShape(s: System, e: Event, s': System)
    requires Shape(s.ctx, s.parents) && Creates(e) && Step(s, e) == Some(s')
    ensures Shape(s'.ctx, s'.parents)
  {
    var op := CreatedObject(s.ctx, e).operationName;
    Opens(s, e, s');
    OpenKeepsShape(s.ctx, s.parents, op);
    SameShape(Opened(s.ctx, op), s'.ctx, s'.parents);
  }

  /** Opening adds to the closing order, everything else leaves it as it is. */
  lemma StepKeepsShape(s: System, e: Event, s': System)
    requires Shape(s.ctx, s.parents) && Step(s, e) == Some(s')
    ensures Shape(s'.ctx, s'.parents)
  {
    match e
    case EditSpan(_, _) =>
    case EditAsync(_, _) =>
    case Continue(snapshot) => ContinuedKeepsShape(s.ctx, s.parents, snapshot);
    case DropSpan(u) => CloseKeepsShape(s.ctx, s.parents, u, Some(s.spans[u]));
    case Prepare(u) => CloseKeepsShape(s.ctx, s.parents, u, None);
    case DropAsync(u) => FillKeepsShape(s.ctx, s.parents, u, s.asyncs[u]);
    case _ => CreateKeepsShape(s, e, s');
  }

  lemma StepKeepsInv(s: System, e: Event, s': System)
    requires Inv(s) && Step(s, e) == Some(s')
    ensures Inv(s')
  {
    ShapeDistinct(s.ctx, s.parents);
    StepKeepsHandles(s, e, s');
    StepKeepsObjects(s, e, s');
    StepKeepsShape(s, e, s');
  }

  lemma UnusedInv(s: System)
    requires |s.parents| == 0 && |s.ctx.stack.active| == 0 && |s.ctx.stack.finalized| == 0
    requires s.ctx.nextSpanId == 0 && s.ctx.nextUid == 0
    requires |s.spans| == 0 && |s.asyncs| == 0 && s.pending == 0
    ensures Inv(s)
  {
    EmptyShape(s.ctx, s.parents);
  }

  lemma StartInv(c: Context)
    requires Fresh(c)
    ensures Inv(Start(c))
  {
    UnusedInv(Start(c));
  }

  lemma {:induction false} RunKeepsInv(s: System, es: seq<Event>)
    requires Inv(s) && Run(s, es).Some?
    ensures Inv(Run(s, es).value)
    decreases |es|
  {
    if es != [] {
      StepKeepsInv(s, es[0], Step(s, es[0]).value);
      RunKeepsInv(Step(s, es[0]).value, es[1..]);
    }
  }

  /** Every state some run of a fresh context reaches. */
  ghost predicate Reaches(c: Context, es: seq<Event>, s: System) {
    Fresh(c) && Run(Start(c), es) == Some(s)
  }

  lemma ReachableInv(c: Context, es: seq<Event>, s: System)
    requires Reaches(c, es, s)
    ensures Inv(s)
  {
    StartInv(c);
    RunKeepsInv(Start(c), es);
  }

  ghost predicate ReachableFrom(c: Context, s: System) {
    exists es :: Reaches(c, es, s)
  }

  ghost predicate Reachable(s: System) {
    exists c :: ReachableFrom(c, s)
  }

  lemma ReachableFromStep(c: Context, s: System, e: Event, s': System)
    requires ReachableFrom(c, s) && Step(s, e) == Some(s')
    ensures ReachableFrom(c, s')
  {
    var es :| Reaches(c, es, s);
    RunConcat(Start(c), es, [e]);
    RunOne(s, e, s');
    assert Reaches(c, es + [e], s');
  }

  lemma ReachableStep(s: System, e: Event, s': System)
    requires Reachable(s) && Step(s, e) == Some(s')
    ensures Reachable(s')
  {
    var c :| ReachableFrom(c, s);
    ReachableFromStep(c, s, e, s');
  }

  lemma ReachableHasInv(s: System)
    requires Reachable(s)
    ensures Inv(s)
  {
    var c :| ReachableFrom(c, s);
    var es :| Reaches(c, es, s);
    ReachableInv(c, es, s);
  }
}
