/**
 The life of one span: open, closed but still edited by an asynchronous span, or closed for good.
 What is reported for a span depends only on its creation, the edits made through its own handles and
 the last reference set while it was the innermost open span.
 */
module SpanLife {
  import opened Wrappers
  import opened Text
  import opened SpanStack
  import opened TraceContext
  import opened SegmentRuns
  import opened SegmentReport
  import opened AsyncRefinesSync

  datatype Life =
    | Unborn
    | Open(obj: SpanObject, ref: Option<SegmentReference>)
    | Async(obj: SpanObject, ref: Option<SegmentReference>)
    | Closed(obj: SpanObject)

  function RefOfOpen(active: seq<ActiveSpan>, u: nat): Option<SegmentReference> {
    if active == [] then None
    else if active[|active| - 1].uid == u then active[|active| - 1].ref
    else RefOfOpen(active[..|active| - 1], u)
  }

  function LifeOf(s: System, u: nat): Life {
    var fin := s.ctx.stack.finalized;
    var k := FirstEntry(fin, u);
    if u in s.spans then Open(s.spans[u], RefOfOpen(s.ctx.stack.active, u))
    else if k == |fin| then Unborn
    else if u in s.asyncs then Async(s.asyncs[u], fin[k].ref)
    else if fin[k].obj.Some? then Closed(fin[k].obj.value)
    else Unborn
  }

  /** The reference that event e sets on span u, if it sets one. */
  function RefSet(s: System, e: Event, u: nat): Option<SegmentReference> {
    if e.Continue? && e.snapshot.IsValid() && IsTop(s.ctx.stack.active, u)
    then Some(CrossThreadRef(s.ctx, e.snapshot)) else None
  }

  function OrElse<T>(a: Option<T>, b: Option<T>): Option<T> {
    if a.Some? then a else b
  }

  /** How one event moves the life of span u on. */
  function LifeStep(s: System, l: Life, e: Event, u: nat): Life {
    match l
    case Unborn =>
      if Creates(e) && s.ctx.nextUid == u then Open(CreatedObject(s.ctx, e), None) else l
    case Open(o, r) =>
      if e == DropSpan(u) then Closed(Finish(o, r))
      else if e == Prepare(u) then Async(o, r)
      else if e.EditSpan? && e.uid == u then Open(ApplyEdit(o, e.edit), r)
      else Open(o, OrElse(RefSet(s, e, u), r))
    case Async(o, r) =>
      if e == DropAsync(u) then Closed(Finish(o, r))
      else if e.EditAsync? && e.uid == u then Async(ApplyEdit(o, e.edit), r)
      else l
    case Closed(_) => l
  }

  lemma {:induction false} RefOfOpenWithRef(active: seq<ActiveSpan>, ref: SegmentReference, u: nat)
    ensures RefOfOpen(WithRef(active, ref), u) == if IsTop(active, u) then Some(ref) else RefOfOpen(active, u)
  {
    if active != [] {
      var k := |active| - 1;
      assert WithRef(active, ref)[..k] == active[..k];
    }
  }

  lemma RefOfOpenPush(active: seq<ActiveSpan>, a: ActiveSpan, u: nat)
    ensures RefOfOpen(active + [a], u) == if a.uid == u then a.ref else RefOfOpen(active, u)
  {
    assert (active + [a])[..|active|] == active;
  }

  /** Where span u can be, in terms of its own handles and entry only. */
  predicate Located(s: System, u: nat) {
    var fin := s.ctx.stack.finalized;
    var k := FirstEntry(fin, u);
    && (u in s.spans ==> k == |fin|)
    && (k < |fin| ==> (u in s.asyncs <==> fin[k].obj.None?))
    && (k == |fin| ==> u !in s.asyncs)
    && (IsTop(s.ctx.stack.active, u) ==> u in s.spans)
    && (u >= s.ctx.nextUid ==> u !in s.spans && k == |fin|)
  }

  lemma ReachableLocated(s: System, u: nat)
    requires Reachable(s)
    ensures Located(s, u)
  {
    ReachableHasInv(s);
    ShapeDistinct(s.ctx, s.parents);
    HandlesLocated(s, u);
  }

  lemma HandlesLocated(s: System, u: nat)
    requires HandlesMatch(s) && DistinctIds(s.ctx.stack, s.ctx.nextUid)
    ensures Located(s, u)
  {
    assert u in s.spans <==> IsOpen(s.ctx.stack.active, u);
    assert u in s.asyncs <==> Unfilled(s.ctx.stack.finalized, u);
    StackLocates(s.ctx.stack, s.ctx.nextUid, u);
  }

  lemma StackLocates(st: Stack, n: nat, u: nat)
    requires DistinctIds(st, n)
    ensures var k := FirstEntry(st.finalized, u);
            && (IsOpen(st.active, u) ==> k == |st.finalized| && u < n)
            && (IsTop(st.active, u) ==> IsOpen(st.active, u))
            && (k < |st.finalized| ==> u < n && (Unfilled(st.finalized, u) <==> st.finalized[k].obj.None?))
            && (k == |st.finalized| ==> !Unfilled(st.finalized, u))
  {
    assert IsTop(st.active, u) ==> st.active[|st.active| - 1].uid == u;
  }

  lemma CreateLife(s: System, e: Event, s': System, u: nat)
    requires Located(s, u) && Creates(e) && Step(s, e) == Some(s')
    ensures LifeOf(s', u) == LifeStep(s, LifeOf(s, u), e, u)
  {
    Opens(s, e, s');
    OpenedLife(s, s', CreatedObject(s.ctx, e), u);
  }

  lemma OpenedLife(s: System, s': System, obj: SpanObject, u: nat)
    requires Located(s, u)
    requires s'.spans == s.spans[s.ctx.nextUid := obj] && s'.asyncs == s.asyncs
    requires s'.ctx.stack.finalized == s.ctx.stack.finalized
    requires s'.ctx.stack.active == s.ctx.stack.active + [ActiveSpan(s.ctx.nextUid, s.ctx.nextSpanId, None)]
    ensures LifeOf(s', u) == if u == s.ctx.nextUid then Open(obj, None) else LifeOf(s, u)
    ensures u == s.ctx.nextUid ==> LifeOf(s, u).Unborn?
  {
    RefOfOpenPush(s.ctx.stack.active, ActiveSpan(s.ctx.nextUid, s.ctx.nextSpanId, None), u);
  }

  lemma ClosedElsewhere(st: Stack, v: nat, obj: Option<SpanObject>, u: nat)
    requires Close(st, v, obj).Some? && (u == v ==> FirstEntry(st.finalized, u) == |st.finalized|)
    ensures var st' := Close(st, v, obj).value;
            && (u != v ==> RefOfOpen(st'.active, u) == RefOfOpen(st.active, u))
            && FirstEntry(st'.finalized, u) == (if u == v then |st.finalized|
                                                else if FirstEntry(st.finalized, u) < |st.finalized| then FirstEntry(st.finalized, u)
                                                else |st.finalized| + 1)
  {
    var k := |st.active| - 1;
    assert st.active == st.active[..k] + [st.active[k]];
    RefOfOpenPush(st.active[..k], st.active[k], u);
    FirstEntryAppend(st.finalized, ClosedEntry(st.active[k], v, obj), u);
  }

  lemma ClosingLife(s: System, e: Event, s': System, u: nat)
    requires Located(s, u) && (e.DropSpan? || e.Prepare?) && Step(s, e) == Some(s')
    ensures LifeOf(s', u) == LifeStep(s, LifeOf(s, u), e, u)
  {
    ClosedElsewhere(s.ctx.stack, e.uid, if e.DropSpan? then Some(s.spans[e.uid]) else None, u);
  }

  lemma FillingLife(s: System, e: Event, s': System, u: nat)
    requires Located(s, u) && e.DropAsync? && Step(s, e) == Some(s')
    ensures LifeOf(s', u) == LifeStep(s, LifeOf(s, u), e, u)
  {
    var fin, fin' := s.ctx.stack.finalized, s'.ctx.stack.finalized;
    var k := FirstEntry(fin, e.uid);
    FirstEntryUpdate(fin, k, fin'[k], u);
  }

  lemma StepLife(s: System, e: Event, s': System, u: nat)
    requires Located(s, u) && Step(s, e) == Some(s')
    ensures LifeOf(s', u) == LifeStep(s, LifeOf(s, u), e, u)
  {
    if Creates(e) {
      CreateLife(s, e, s', u);
    } else if e.DropSpan? || e.Prepare? {
      ClosingLife(s, e, s', u);
    } else if e.DropAsync? {
      FillingLife(s, e, s', u);
    } else if e.Continue? {
      RefOfOpenWithRef(s.ctx.stack.active, CrossThreadRef(s.ctx, e.snapshot), u);
    }
  }

  /** The edits made to span u, through whichever of its handles, in order. */
  function EditsOf(es: seq<Event>, u: nat): seq<Edit> {
    if es == [] then []
    else if (es[0].EditSpan? || es[0].EditAsync?) && es[0].uid == u then [es[0].edit] + EditsOf(es[1..], u)
    else EditsOf(es[1..], u)
  }

  /** The last reference that the events es set on span u; earlier if they set none. */
  function LastRef(s: System, es: seq<Event>, u: nat, earlier: Option<SegmentReference>): Option<SegmentReference>
    decreases |es|
  {
    if es == [] then earlier
    else
      match Step(s, es[0])
      case None => earlier
      case Some(s') => LastRef(s', es[1..], u, OrElse(RefSet(s, es[0], u), earlier))
  }

  /** A span closed for good never changes again. */
  lemma {:induction false} ClosedStays(s: System, es: seq<Event>, t: System, u: nat, earlier: Option<SegmentReference>)
    requires Reachable(s) && Run(s, es) == Some(t) && LifeOf(s, u).Closed?
    ensures LifeOf(t, u) == LifeOf(s, u) && EditsOf(es, u) == [] && LastRef(s, es, u, earlier) == earlier
    decreases |es|
  {
    if es != [] {
      var s' := Step(s, es[0]).value;
      ReachableStep(s, es[0], s');
      ReachableLocated(s, u);
      StepLife(s, es[0], s', u);
      ClosedStays(s', es[1..], t, u, earlier);
    }
  }

  /** e as seen by span u: the edit it makes to it, if any. */
  function EditedBy(o: SpanObject, e: Event, u: nat): SpanObject {
    if (e.EditSpan? || e.EditAsync?) && e.uid == u then ApplyEdit(o, e.edit) else o
  }

  predicate Alive(l: Life) {
    l.Open? || l.Async?
  }

  /** One event in the life of a span that is not closed for good. */
  lemma AliveStep(s: System, e: Event, s': System, u: nat)
    requires Located(s, u) && Step(s, e) == Some(s') && Alive(LifeOf(s, u))
    ensures var l, l' := LifeOf(s, u), LifeOf(s', u);
            if l'.Closed? then
              l'.obj == Finish(l.obj, l.ref) && EditedBy(l.obj, e, u) == l.obj && RefSet(s, e, u).None?
            else
              Alive(l') && l'.obj == EditedBy(l.obj, e, u) && l'.ref == OrElse(RefSet(s, e, u), l.ref)
  {
    StepLife(s, e, s', u);
  }

  /** What a span is finally closed with: all its edits, in order, and the last reference set on it. */
  lemma {:induction false} RunLife(s: System, es: seq<Event>, t: System, u: nat)
    requires Reachable(s) && Run(s, es) == Some(t) && Alive(LifeOf(s, u)) && LifeOf(t, u).Closed?
    ensures LifeOf(t, u).obj ==
            Finish(ApplyEdits(LifeOf(s, u).obj, EditsOf(es, u)), LastRef(s, es, u, LifeOf(s, u).ref))
    decreases |es|
  {
    if es != [] {
      var e, rest, l := es[0], es[1..], LifeOf(s, u);
      var s' := Step(s, e).value;
      ReachableStep(s, e, s');
      ReachableLocated(s, u);
      AliveStep(s, e, s', u);
      assert es == [e] + rest;
      EditsOfCons(e, rest, u, l.obj);
      if LifeOf(s', u).Closed? {
        ClosedStays(s', rest, t, u, l.ref);
      } else {
        RunLife(s', rest, t, u);
      }
    }
  }

  lemma EditsOfCons(e: Event, rest: seq<Event>, u: nat, o: SpanObject)
    ensures ApplyEdits(o, EditsOf([e] + rest, u)) == ApplyEdits(EditedBy(o, e, u), EditsOf(rest, u))
  {
    assert ([e] + rest)[1..] == rest;
    if (e.EditSpan? || e.EditAsync?) && e.uid == u {
      assert ([e.edit] + EditsOf(rest, u))[1..] == EditsOf(rest, u);
    }
  }

  /** The object in the entry of a span: as created, then edited, then finished with the last reference set on it. */
  lemma FinishedObject(c: Context, before: seq<Event>, s: System, e: Event, after: seq<Event>, t: System, k: nat)
    requires Reaches(c, before, s) && Creates(e) && Step(s, e).Some?
    requires Run(Step(s, e).value, after) == Some(t)
    requires k < |t.ctx.stack.finalized| && t.ctx.stack.finalized[k].uid == s.ctx.nextUid
    requires t.ctx.stack.finalized[k].obj.Some?
    ensures t.ctx.stack.finalized[k].obj.value ==
            Finish(ApplyEdits(CreatedObject(s.ctx, e), EditsOf(after, s.ctx.nextUid)),
                   LastRef(Step(s, e).value, after, s.ctx.nextUid, None))
  {
    var u, s' := s.ctx.nextUid, Step(s, e).value;
    assert ReachableFrom(c, s);
    ReachableStep(s, e, s');
    ReachableLocated(s, u);
    StepLife(s, e, s', u);
    assert LifeOf(s', u) == Open(CreatedObject(s.ctx, e), None);
    RunReaches(s', after, t);
    EntryLife(t, k);
    RunLife(s', after, t, u);
  }

  lemma {:induction false} RunReaches(s: System, es: seq<Event>, t: System)
    requires Reachable(s) && Run(s, es) == Some(t)
    ensures Reachable(t)
    decreases |es|
  {
    if es != [] {
      ReachableStep(s, es[0], Step(s, es[0]).value);
      RunReaches(Step(s, es[0]).value, es[1..], t);
    }
  }

  lemma EntryLife(t: System, k: nat)
    requires Reachable(t) && k < |t.ctx.stack.finalized| && t.ctx.stack.finalized[k].obj.Some?
    ensures LifeOf(t, t.ctx.stack.finalized[k].uid) == Closed(t.ctx.stack.finalized[k].obj.value)
  {
    var fin := t.ctx.stack.finalized;
    var u := fin[k].uid;
    ReachableLocated(t, u);
    ReachableHasInv(t);
    ShapeDistinct(t.ctx, t.parents);
    assert FirstEntry(fin, u) == k;
  }

  // ---- The endpoint of a snapshot ----

  /** The name a snapshot reports is that of the span created last, open or not. */
  predicate NewestNamed(s: System) {
    if s.ctx.nextUid == 0 then s.ctx.primaryEndpoint == EMPTY
    else
      var l := LifeOf(s, s.ctx.nextUid - 1);
      !l.Unborn? && l.obj.operationName == s.ctx.primaryEndpoint
  }

  lemma LifeStepKeepsName(s: System, l: Life, e: Event, u: nat)
    requires !l.Unborn?
    ensures !LifeStep(s, l, e, u).Unborn? && LifeStep(s, l, e, u).obj.operationName == l.obj.operationName
  {
  }

  lemma StepEndpoint(s: System, e: Event, s': System)
    requires Step(s, e) == Some(s')
    ensures if Creates(e)
            then s'.ctx.nextUid == s.ctx.nextUid + 1 && s'.ctx.primaryEndpoint == CreatedObject(s.ctx, e).operationName
            else s'.ctx.nextUid == s.ctx.nextUid && s'.ctx.primaryEndpoint == s.ctx.primaryEndpoint
  {
  }

  lemma StepKeepsNewest(s: System, e: Event, s': System)
    requires Located(s, s.ctx.nextUid) && (s.ctx.nextUid > 0 ==> Located(s, s.ctx.nextUid - 1))
    requires NewestNamed(s) && Step(s, e) == Some(s')
    ensures NewestNamed(s')
  {
    StepEndpoint(s, e, s');
    var u: nat := if Creates(e) || s.ctx.nextUid == 0 then s.ctx.nextUid else s.ctx.nextUid - 1;
    var l := LifeOf(s, u);
    StepLife(s, e, s', u);
    if Creates(e) {
      assert l.Unborn? && LifeStep(s, l, e, u) == Open(CreatedObject(s.ctx, e), None);
    } else if s.ctx.nextUid > 0 {
      LifeStepKeepsName(s, l, e, u);
    }
  }

  lemma {:induction false} RunKeepsNewest(s: System, es: seq<Event>, t: System)
    requires Reachable(s) && NewestNamed(s) && Run(s, es) == Some(t)
    ensures NewestNamed(t)
    decreases |es|
  {
    if es != [] {
      var s' := Step(s, es[0]).value;
      ReachableStep(s, es[0], s');
      ReachableLocated(s, s.ctx.nextUid);
      if s.ctx.nextUid > 0 {
        ReachableLocated(s, s.ctx.nextUid - 1);
      }
      StepKeepsNewest(s, es[0], s');
      RunKeepsNewest(s', es[1..], t);
    }
  }

  /** A captured endpoint is the name of the span created last, which need not be the innermost open one. */
  lemma CapturedEndpoint(c: Context, es: seq<Event>, s: System)
    requires Reaches(c, es, s)
    ensures NewestNamed(s) && Capture(s.ctx).parentEndpoint == s.ctx.primaryEndpoint
  {
    assert Reaches(c, [], Start(c)) && ReachableFrom(c, Start(c));
    RunKeepsNewest(Start(c), es, s);
  }

  /** As long as the innermost open span is the one created last, the endpoint is its name. */
  lemma EndpointOfInnermost(c: Context, es: seq<Event>, s: System)
    requires Reaches(c, es, s) && s.ctx.nextUid > 0 && IsTop(s.ctx.stack.active, s.ctx.nextUid - 1)
    ensures s.ctx.nextUid - 1 in s.spans && Capture(s.ctx).spanId == s.ctx.nextUid - 1
    ensures Capture(s.ctx).parentEndpoint == s.spans[s.ctx.nextUid - 1].operationName
  {
    CapturedEndpoint(c, es, s);
    assert ReachableFrom(c, s);
    ReachableLocated(s, s.ctx.nextUid - 1);
    ReachableInv(c, es, s);
  }

  /** Once a nested span was closed, a snapshot names span 0 by its id and the closed span by its endpoint. */
  lemma EndpointOfClosed(c: Context, a: Text, b: Text) returns (es: seq<Event>, s: System)
    requires Fresh(c)
    ensures Reaches(c, es, s) && IsTop(s.ctx.stack.active, 0) && 0 in s.spans && s.spans[0].operationName == a
    ensures Capture(s.ctx).spanId == 0 && Capture(s.ctx).parentEndpoint == b
  {
    var s1 := Step(Start(c), CreateEntry(a)).value;
    var s2 := Step(s1, CreateLocal(b)).value;
    Opens(Start(c), CreateEntry(a), s1);
    Opens(s1, CreateLocal(b), s2);
    s := Step(s2, DropSpan(1)).value;
    Closes(s2, 1, true, s);
    var none: seq<Event> := [];
    FirstEvent(s2, DropSpan(1), s, none, s);
    FirstEvent(s1, CreateLocal(b), s2, [DropSpan(1)] + none, s);
    FirstEvent(Start(c), CreateEntry(a), s1, [CreateLocal(b)] + ([DropSpan(1)] + none), s);
    es := [CreateEntry(a)] + ([CreateLocal(b)] + ([DropSpan(1)] + none));
  }

  lemma FirstEvent(s: System, e: Event, s': System, rest: seq<Event>, t: System)
    requires Step(s, e) == Some(s') && Run(s', rest) == Some(t)
    ensures Run(s, [e] + rest) == Some(t)
  {
    assert ([e] + rest)[0] == e && ([e] + rest)[1..] == rest;
  }

  // ---- The plain run of AsyncRefinesSync makes the same edits ----

  lemma {:induction false} EditsOfConcat(es: seq<Event>, fs: seq<Event>, u: nat)
    ensures EditsOf(es + fs, u) == EditsOf(es, u) + EditsOf(fs, u)
    decreases |es|
  {
    if es == [] {
      assert es + fs == fs;
    } else {
      assert (es + fs)[0] == es[0] && (es + fs)[1..] == es[1..] + fs;
      EditsOfConcat(es[1..], fs, u);
    }
  }

  lemma EditsOfEvent(e: Event, rest: seq<Event>, u: nat)
    ensures EditsOf([e] + rest, u) ==
            if (e.EditSpan? || e.EditAsync?) && e.uid == u then [e.edit] + EditsOf(rest, u) else EditsOf(rest, u)
  {
    assert ([e] + rest)[1..] == rest;
  }

  lemma {:induction false} EditsOfSpanEdits(v: nat, edits: seq<Edit>, u: nat)
    ensures EditsOf(AsSpanEdits(v, edits), u) == if v == u then edits else []
    decreases |edits|
  {
    if edits != [] {
      EditsOfSpanEdits(v, edits[1..], u);
      EditsOfEvent(EditSpan(v, edits[0]), AsSpanEdits(v, edits[1..]), u);
      assert edits == [edits[0]] + edits[1..];
    }
  }

  lemma EditsOfPlainPrepare(v: nat, edits: seq<Edit>, rest: seq<Event>, u: nat)
    ensures EditsOf(AsSpanEdits(v, edits) + [DropSpan(v)] + rest, u) == (if v == u then edits else []) + EditsOf(rest, u)
  {
    EditsOfConcat(AsSpanEdits(v, edits) + [DropSpan(v)], rest, u);
    EditsOfConcat(AsSpanEdits(v, edits), [DropSpan(v)], u);
    EditsOfSpanEdits(v, edits, u);
    assert EditsOf([DropSpan(v)], u) == [];
  }

  /** What is known of the edits still to come for span u, depending on whether it is asynchronous now. */
  ghost predicate EditsAgree(s: System, es: seq<Event>, u: nat) {
    if LifeOf(s, u).Async? then EditsOf(Synchronous(es), u) == [] && EditsOf(es, u) == EditsUntilDrop(es, u)
    else EditsOf(Synchronous(es), u) == EditsOf(es, u)
  }

  /** The synchronous run with one event in front, as far as the edits of u are concerned. */
  lemma SynchronousEdits(e: Event, rest: seq<Event>, u: nat)
    ensures EditsOf(Synchronous([e] + rest), u) ==
            if e == Prepare(u) then EditsUntilDrop(rest, u) + EditsOf(Synchronous(rest), u)
            else if e.EditSpan? && e.uid == u then [e.edit] + EditsOf(Synchronous(rest), u)
            else EditsOf(Synchronous(rest), u)
  {
    SynchronousCons(e, rest);
    if e.Prepare? {
      EditsOfPlainPrepare(e.uid, EditsUntilDrop(rest, e.uid), Synchronous(rest), u);
    } else if !e.EditAsync? && !e.DropAsync? {
      EditsOfEvent(e, Synchronous(rest), u);
    }
  }

  lemma EditsAgreeStep(s: System, e: Event, s': System, rest: seq<Event>, u: nat)
    requires Located(s, u) && Step(s, e) == Some(s') && EditsAgree(s', rest, u)
    requires LifeOf(s', u).Closed? ==> EditsOf(rest, u) == []
    ensures EditsAgree(s, [e] + rest, u)
  {
    StepLife(s, e, s', u);
    SynchronousEdits(e, rest, u);
    EditsOfEvent(e, rest, u);
    EditsCons(e, rest, u);
  }

  lemma {:induction false} RunEditsAgree(s: System, es: seq<Event>, t: System, u: nat)
    requires Reachable(s) && Run(s, es) == Some(t) && !LifeOf(t, u).Async?
    ensures EditsAgree(s, es, u)
    decreases |es|
  {
    if es != [] {
      var s' := Step(s, es[0]).value;
      assert es == [es[0]] + es[1..];
      ReachableStep(s, es[0], s');
      ReachableLocated(s, u);
      RunEditsAgree(s', es[1..], t, u);
      if LifeOf(s', u).Closed? {
        ClosedStays(s', es[1..], t, u, None);
      }
      EditsAgreeStep(s, es[0], s', es[1..], u);
    }
  }

  /** The run that closes every span plainly makes the same edits to each span, in the same order. */
  lemma PlainRunMakesSameEdits(c: Context, es: seq<Event>, t: System, u: nat)
    requires Reaches(c, es, t) && t.asyncs == map[]
    ensures EditsOf(Synchronous(es), u) == EditsOf(es, u)
  {
    assert Reaches(c, [], Start(c)) && ReachableFrom(c, Start(c));
    RunEditsAgree(Start(c), es, t, u);
  }
}
