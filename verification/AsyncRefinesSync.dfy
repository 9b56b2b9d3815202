/**
 Closing spans asynchronously reports the same segment as closing them plainly.

 Synchronous(es) is the run es with every prepare_for_async replaced by the edits the asynchronous
 span is going to receive, followed by a plain drop. The order in which the asynchronous spans were
 dropped, and everything that happened between prepare and drop, leaves no trace.
 */
module AsyncRefinesSync {
  import opened Wrappers
  import opened SpanStack
  import opened TraceContext
  import opened SegmentRuns
  import opened SegmentReport

  /** The edits made through the asynchronous span u until it is dropped. */
  function EditsUntilDrop(es: seq<Event>, u: nat): seq<Edit> {
    if es == [] || es[0] == DropAsync(u) then []
    else if es[0].EditAsync? && es[0].uid == u then [es[0].edit] + EditsUntilDrop(es[1..], u)
    else EditsUntilDrop(es[1..], u)
  }

  function ApplyEdits(o: SpanObject, edits: seq<Edit>): SpanObject
    decreases |edits|
  {
    if edits == [] then o else ApplyEdits(ApplyEdit(o, edits[0]), edits[1..])
  }

  function AsSpanEdits(u: nat, edits: seq<Edit>): seq<Event> {
    if edits == [] then [] else [EditSpan(u, edits[0])] + AsSpanEdits(u, edits[1..])
  }

  function Synchronous(es: seq<Event>): seq<Event> {
    if es == [] then []
    else
      var rest := Synchronous(es[1..]);
      match es[0]
      case Prepare(u) => AsSpanEdits(u, EditsUntilDrop(es[1..], u)) + [DropSpan(u)] + rest
      case EditAsync(_, _) => rest
      case DropAsync(_) => rest
      case e => [e] + rest
  }

  /** The entry as it will be once its asynchronous span has seen the events es. */
  function Resolve(f: FinalizeSpan, asyncs: map<nat, SpanObject>, es: seq<Event>): FinalizeSpan {
    if f.obj.None? && f.uid in asyncs then
      FinalizeSpan(f.uid, Some(Finish(ApplyEdits(asyncs[f.uid], EditsUntilDrop(es, f.uid)), f.ref)), None)
    else f
  }

  function ResolveAll(fin: seq<FinalizeSpan>, asyncs: map<nat, SpanObject>, es: seq<Event>): (r: seq<FinalizeSpan>)
    ensures |r| == |fin| && forall k :: 0 <= k < |fin| ==> r[k] == Resolve(fin[k], asyncs, es)
  {
    seq(|fin|, k requires 0 <= k < |fin| => Resolve(fin[k], asyncs, es))
  }

  /** The state in which every asynchronous span was already closed plainly, given what es will do. */
  function Resolved(s: System, es: seq<Event>): System {
    WithStack(s, s.ctx.stack.(finalized := ResolveAll(s.ctx.stack.finalized, s.asyncs, es)))
      .(asyncs := map[], pending := 0)
  }

  lemma {:induction false} RunSpanEdits(s: System, u: nat, edits: seq<Edit>)
    requires u in s.spans
    ensures Run(s, AsSpanEdits(u, edits)) == Some(s.(spans := s.spans[u := ApplyEdits(s.spans[u], edits)]))
    decreases |edits|
  {
    if edits == [] {
      assert s.spans[u := s.spans[u]] == s.spans;
    } else {
      var s' := Step(s, EditSpan(u, edits[0])).value;
      var es := AsSpanEdits(u, edits);
      assert es[0] == EditSpan(u, edits[0]) && es[1..] == AsSpanEdits(u, edits[1..]);
      RunSpanEdits(s', u, edits[1..]);
      var o := ApplyEdits(s.spans[u], edits);
      assert s.spans[u := s'.spans[u]][u := o] == s.spans[u := o];
    }
  }

  lemma EditsCons(e: Event, rest: seq<Event>, u: nat)
    ensures EditsUntilDrop([e] + rest, u) ==
            if e == DropAsync(u) then []
            else if e.EditAsync? && e.uid == u then [e.edit] + EditsUntilDrop(rest, u)
            else EditsUntilDrop(rest, u)
  {
    assert ([e] + rest)[1..] == rest;
  }

  /** Resolving the closed spans before an event, and after it, when the event concerns none of them. */
  lemma ResolveSame(fin: seq<FinalizeSpan>, asyncs: map<nat, SpanObject>, asyncs': map<nat, SpanObject>, e: Event, rest: seq<Event>)
    requires forall k :: 0 <= k < |fin| && fin[k].obj.None? ==>
               && (fin[k].uid in asyncs <==> fin[k].uid in asyncs')
               && (fin[k].uid in asyncs ==> asyncs[fin[k].uid] == asyncs'[fin[k].uid])
               && ((e.EditAsync? || e.DropAsync?) ==> fin[k].uid != e.uid)
    ensures ResolveAll(fin, asyncs, [e] + rest) == ResolveAll(fin, asyncs', rest)
  {
    forall k | 0 <= k < |fin| ensures Resolve(fin[k], asyncs, [e] + rest) == Resolve(fin[k], asyncs', rest) {
      EditsCons(e, rest, fin[k].uid);
    }
  }

  lemma ResolveAppend(fin: seq<FinalizeSpan>, f: FinalizeSpan, asyncs: map<nat, SpanObject>, es: seq<Event>)
    ensures ResolveAll(fin + [f], asyncs, es) == ResolveAll(fin, asyncs, es) + [Resolve(f, asyncs, es)]
  {
  }

  /** Events that do not concern asynchronous spans commute with resolving them. */
  lemma PlainStepResolved(s: System, e: Event, s': System, rest: seq<Event>)
    requires !e.Prepare? && !e.EditAsync? && !e.DropAsync?
    requires Step(s, e) == Some(s')
    ensures Step(Resolved(s, [e] + rest), e) == Some(Resolved(s', rest))
  {
    var fin := s.ctx.stack.finalized;
    ResolveSame(fin, s.asyncs, s.asyncs, e, rest);
    if e.DropSpan? {
      ResolveAppend(fin, s'.ctx.stack.finalized[|fin|], s.asyncs, rest);
    }
  }

  /** The entries after a prepare, resolved, are those before it and the finished span. */
  lemma PreparedEntries(s: System, u: nat, s': System, rest: seq<Event>)
    requires Step(s, Prepare(u)) == Some(s') && DistinctIds(s.ctx.stack, |s.parents|)
    ensures ResolveAll(s'.ctx.stack.finalized, s'.asyncs, rest) ==
            ResolveAll(s.ctx.stack.finalized, s.asyncs, [Prepare(u)] + rest)
            + [ClosedEntry(Top(s), u, Some(ApplyEdits(s.spans[u], EditsUntilDrop(rest, u))))]
  {
    var fin := s.ctx.stack.finalized;
    Closes(s, u, false, s');
    assert forall j :: 0 <= j < |fin| ==> fin[j].uid != Top(s).uid;
    ResolveSame(fin, s.asyncs, s'.asyncs, Prepare(u), rest);
    ResolveAppend(fin, s'.ctx.stack.finalized[|fin|], s'.asyncs, rest);
  }

  /** Closing the span plainly once it has its future edits. */
  lemma EditedCloses(s: System, u: nat, s': System, rest: seq<Event>)
    requires Step(s, Prepare(u)) == Some(s') && DistinctIds(s.ctx.stack, |s.parents|)
    ensures var r := Resolved(s, [Prepare(u)] + rest);
            Step(r.(spans := r.spans[u := ApplyEdits(s.spans[u], EditsUntilDrop(rest, u))]), DropSpan(u))
            == Some(Resolved(s', rest))
  {
    PreparedEntries(s, u, s', rest);
    Closes(s, u, false, s');
    assert s.spans[u := ApplyEdits(s.spans[u], EditsUntilDrop(rest, u))] - {u} == s.spans - {u};
  }

  /** Preparing a span amounts to applying its future edits and closing it plainly. */
  lemma PrepareResolved(s: System, u: nat, s': System, rest: seq<Event>)
    requires Step(s, Prepare(u)) == Some(s') && DistinctIds(s.ctx.stack, |s.parents|)
    ensures Run(Resolved(s, [Prepare(u)] + rest), AsSpanEdits(u, EditsUntilDrop(rest, u)) + [DropSpan(u)])
            == Some(Resolved(s', rest))
  {
    var edits := EditsUntilDrop(rest, u);
    var r := Resolved(s, [Prepare(u)] + rest);
    RunSpanEdits(r, u, edits);
    RunConcat(r, AsSpanEdits(u, edits), [DropSpan(u)]);
    EditedCloses(s, u, s', rest);
    RunOne(r.(spans := r.spans[u := ApplyEdits(r.spans[u], edits)]), DropSpan(u), Resolved(s', rest));
  }

  lemma ResolveEdit(f: FinalizeSpan, asyncs: map<nat, SpanObject>, u: nat, edit: Edit, rest: seq<Event>)
    requires u in asyncs
    ensures Resolve(f, asyncs, [EditAsync(u, edit)] + rest) ==
            Resolve(f, asyncs[u := ApplyEdit(asyncs[u], edit)], rest)
  {
    EditsCons(EditAsync(u, edit), rest, f.uid);
    assert ([edit] + EditsUntilDrop(rest, u))[1..] == EditsUntilDrop(rest, u);
  }

  lemma EditStepResolved(s: System, u: nat, edit: Edit, s': System, rest: seq<Event>)
    requires Step(s, EditAsync(u, edit)) == Some(s')
    ensures Resolved(s, [EditAsync(u, edit)] + rest) == Resolved(s', rest)
  {
    var fin := s.ctx.stack.finalized;
    forall k | 0 <= k < |fin|
      ensures Resolve(fin[k], s.asyncs, [EditAsync(u, edit)] + rest) == Resolve(fin[k], s'.asyncs, rest)
    {
      ResolveEdit(fin[k], s.asyncs, u, edit, rest);
    }
    assert ResolveAll(fin, s'.asyncs, rest) == ResolveAll(fin, s.asyncs, [EditAsync(u, edit)] + rest);
  }

  lemma FillEntriesResolved(fin: seq<FinalizeSpan>, asyncs: map<nat, SpanObject>, u: nat, rest: seq<Event>)
    requires u in asyncs && FirstEntry(fin, u) < |fin| && fin[FirstEntry(fin, u)].obj.None?
    requires forall i, j :: 0 <= i < j < |fin| ==> fin[i].uid != fin[j].uid
    ensures ResolveAll(Fill(fin, u, asyncs[u]).value, asyncs - {u}, rest) == ResolveAll(fin, asyncs, [DropAsync(u)] + rest)
  {
    var fin', n := Fill(fin, u, asyncs[u]).value, FirstEntry(fin, u);
    forall k | 0 <= k < |fin|
      ensures Resolve(fin[k], asyncs, [DropAsync(u)] + rest) == Resolve(fin'[k], asyncs - {u}, rest)
    {
      EditsCons(DropAsync(u), rest, fin[k].uid);
    }
  }

  lemma FillStepResolved(s: System, u: nat, s': System, rest: seq<Event>)
    requires Step(s, DropAsync(u)) == Some(s') && DistinctIds(s.ctx.stack, |s.parents|)
    requires Unfilled(s.ctx.stack.finalized, u)
    ensures Resolved(s, [DropAsync(u)] + rest) == Resolved(s', rest)
  {
    Fills(s, u, s');
    FillEntriesResolved(s.ctx.stack.finalized, s.asyncs, u, rest);
  }

  /** Editing or dropping an asynchronous span changes nothing in the resolved state. */
  lemma AsyncStepResolved(s: System, e: Event, s': System, rest: seq<Event>)
    requires e.EditAsync? || e.DropAsync?
    requires Step(s, e) == Some(s') && DistinctIds(s.ctx.stack, |s.parents|)
    requires Unfilled(s.ctx.stack.finalized, e.uid)
    ensures Resolved(s, [e] + rest) == Resolved(s', rest)
  {
    if e.EditAsync? {
      EditStepResolved(s, e.uid, e.edit, s', rest);
    } else {
      FillStepResolved(s, e.uid, s', rest);
    }
  }

  lemma PlainRunResolved(s: System, e: Event, s': System, rest: seq<Event>)
    requires !e.Prepare? && !e.EditAsync? && !e.DropAsync? && Step(s, e) == Some(s')
    ensures Run(Resolved(s, [e] + rest), [e] + Synchronous(rest)) == Run(Resolved(s', rest), Synchronous(rest))
  {
    PlainStepResolved(s, e, s', rest);
    assert ([e] + Synchronous(rest))[1..] == Synchronous(rest);
  }

  lemma SynchronousCons(e: Event, rest: seq<Event>)
    ensures Synchronous([e] + rest) ==
            if e.Prepare? then AsSpanEdits(e.uid, EditsUntilDrop(rest, e.uid)) + [DropSpan(e.uid)] + Synchronous(rest)
            else if e.EditAsync? || e.DropAsync? then Synchronous(rest)
            else [e] + Synchronous(rest)
  {
    assert ([e] + rest)[1..] == rest;
  }

  lemma StepResolved(s: System, e: Event, s': System, rest: seq<Event>)
    requires HandlesMatch(s) && DistinctIds(s.ctx.stack, |s.parents|) && Step(s, e) == Some(s')
    ensures Run(Resolved(s, [e] + rest), Synchronous([e] + rest)) == Run(Resolved(s', rest), Synchronous(rest))
  {
    SynchronousCons(e, rest);
    if e.Prepare? {
      PrepareResolved(s, e.uid, s', rest);
      RunConcat(Resolved(s, [e] + rest), AsSpanEdits(e.uid, EditsUntilDrop(rest, e.uid)) + [DropSpan(e.uid)], Synchronous(rest));
    } else if e.EditAsync? || e.DropAsync? {
      assert Unfilled(s.ctx.stack.finalized, e.uid);
      AsyncStepResolved(s, e, s', rest);
    } else {
      PlainRunResolved(s, e, s', rest);
    }
  }

  /** Without asynchronous spans there is nothing to resolve. */
  lemma NothingToResolve(s: System, es: seq<Event>)
    requires s.asyncs == map[] && s.pending == 0
    ensures Resolved(s, es) == s
  {
    assert ResolveAll(s.ctx.stack.finalized, s.asyncs, es) == s.ctx.stack.finalized;
  }

  lemma {:induction false} RunResolved(s: System, es: seq<Event>, t: System)
    requires Inv(s) && Run(s, es) == Some(t) && t.asyncs == map[] && t.pending == 0
    ensures Run(Resolved(s, es), Synchronous(es)) == Some(t)
    decreases |es|
  {
    if es == [] {
      NothingToResolve(s, es);
    } else {
      var s' := Step(s, es[0]).value;
      assert es == [es[0]] + es[1..];
      StepKeepsInv(s, es[0], s');
      RunResolved(s', es[1..], t);
      ShapeDistinct(s.ctx, s.parents);
      StepResolved(s, es[0], s', es[1..]);
    }
  }

  /**
   For every run whose asynchronous spans have all been dropped, the run that closes the same spans
   plainly, at the points where they were prepared, ends in the same state and reports the same segment.
   */
  lemma AsyncClosingRefinesPlain(c: Context, es: seq<Event>, t: System)
    requires Reaches(c, es, t) && t.asyncs == map[]
    ensures Reaches(c, Synchronous(es), t)
    ensures Segment(t.ctx).Some?
    ensures forall e :: e in Synchronous(es) ==> !e.Prepare? && !e.EditAsync? && !e.DropAsync?
  {
    ReachableInv(c, es, t);
    RunsSynchronously(c, es, t);
    ReportableIffInv(t);
    SynchronousIsPlain(es);
  }

  lemma RunsSynchronously(c: Context, es: seq<Event>, t: System)
    requires Reaches(c, es, t) && t.asyncs == map[] && Inv(t)
    ensures Run(Start(c), Synchronous(es)) == Some(t)
  {
    StartInv(c);
    RunResolved(Start(c), es, t);
    NothingToResolve(Start(c), es);
  }

  lemma {:induction false} SynchronousIsPlain(es: seq<Event>)
    ensures forall e :: e in Synchronous(es) ==> !e.Prepare? && !e.EditAsync? && !e.DropAsync?
    decreases |es|
  {
    if es != [] {
      SynchronousIsPlain(es[1..]);
      if es[0].Prepare? {
        SpanEditsOnly(es[0].uid, EditsUntilDrop(es[1..], es[0].uid));
      }
    }
  }

  lemma {:induction false} SpanEditsOnly(u: nat, edits: seq<Edit>)
    ensures forall e :: e in AsSpanEdits(u, edits) ==> e.EditSpan?
    decreases |edits|
  {
    if edits != [] {
      SpanEditsOnly(u, edits[1..]);
    }
  }
}
