/**
 A user of the library: a tracing context with the spans and asynchronous spans obtained from it. Each
 method call is one step of the runs of SegmentRuns, so everything proved of runs holds of the objects.
 */
module Session {
  import opened Wrappers
  import opened Text
  import opened SpanStack
  import opened TraceContext
  import opened SegmentRuns
  import opened SegmentReport
  import opened SpanLife
  import opened Tracing

  lemma StartReachable(c: Context)
    requires Fresh(c)
    ensures Reachable(Start(c))
  {
    assert Reaches(c, [], Start(c));
    assert ReachableFrom(c, Start(c));
  }

  lemma FillStep(s: System, u: nat) returns (s': System)
    requires Reachable(s) && u in s.asyncs
    ensures Step(s, DropAsync(u)) == Some(s') && Reachable(s') && s.pending > 0
    ensures Fill(s.ctx.stack.finalized, u, s.asyncs[u]) == Some(s'.ctx.stack.finalized)
    ensures s'.ctx == s.ctx.(stack := s.ctx.stack.(finalized := s'.ctx.stack.finalized)) && s'.parents == s.parents
    ensures s'.spans == s.spans && s'.asyncs == s.asyncs - {u} && s'.pending == s.pending - 1
  {
    FillEnabled(s, u);
    ReachableHasInv(s);
    s' := Step(s, DropAsync(u)).value;
    ReachableStep(s, DropAsync(u), s');
  }

  lemma RefusedIff(s: System, e: Event)
    requires e.CreateLocal? || e.CreateExit?
    ensures Step(s, e).None? <==> s.ctx.nextSpanId == 0
  {
  }

  lemma ContinueStep(s: System, snapshot: ContextSnapshot, s': System)
    requires Reachable(s) && s' == s.(ctx := Continued(s.ctx, snapshot))
    ensures Step(s, Continue(snapshot)) == Some(s') && Reachable(s')
  {
    ReachableStep(s, Continue(snapshot), s');
  }

  lemma CloseStep(s: System, u: nat, plain: bool) returns (s': System)
    requires Reachable(s) && u in s.spans
    ensures var r := Step(s, if plain then DropSpan(u) else Prepare(u));
            if IsTop(s.ctx.stack.active, u) then r == Some(s') && Reachable(s') else r == None
    ensures IsTop(s.ctx.stack.active, u) ==>
              && Close(s.ctx.stack, u, if plain then Some(s.spans[u]) else None) == Some(s'.ctx.stack)
              && s'.ctx == s.ctx.(stack := s'.ctx.stack) && s'.parents == s.parents
              && s'.spans == s.spans - {u}
              && s'.asyncs == (if plain then s.asyncs else s.asyncs[u := s.spans[u]])
              && s'.pending == s.pending + if plain then 0 else 1
  {
    var e := if plain then DropSpan(u) else Prepare(u);
    if IsTop(s.ctx.stack.active, u) {
      s' := Step(s, e).value;
      ReachableStep(s, e, s');
    } else {
      s' := s;
    }
  }

  class Session {
    const context: TracingContext
    var spans: map<nat, Span>
    var asyncs: map<nat, AsyncSpan>
    /** The state of the run that the calls so far make up. */
    ghost var run: System

    /** Every handle belongs to this context and holds the object of its span. */
    ghost predicate HandlesFit()
      reads this, spans.Values, asyncs.Values
    {
      && run.spans.Keys == spans.Keys && run.asyncs.Keys == asyncs.Keys
      && (forall u :: u in spans ==> SpanFits(spans[u], u, run.spans[u]))
      && (forall u :: u in asyncs ==> AsyncFits(asyncs[u], u, run.asyncs[u]))
    }

    ghost predicate SpanFits(span: Span, u: nat, obj: SpanObject)
      reads span
    {
      span.uid == u && span.stack == context.stack && span.wg == context.wg && span.obj == Some(obj)
    }

    ghost predicate AsyncFits(span: AsyncSpan, u: nat, obj: SpanObject)
      reads span
    {
      span.uid == u && span.stack == context.stack && span.wg == context.wg && span.obj == Some(obj)
    }

    ghost predicate ContextFits()
      reads this, context, context.stack, context.wg
    {
      run.ctx == context.View() && run.pending == context.wg.count && run.parents == context.parents
    }

    ghost predicate Valid()
      reads this, context, context.stack, context.wg, spans.Values, asyncs.Values
    {
      ContextFits() && HandlesFit() && Reachable(run)
    }

    lemma ContextValid()
      requires ContextFits() && Reachable(run)
      ensures context.Valid()
    {
      ReachableHasInv(run);
    }

    constructor (context: TracingContext)
      requires Fresh(context.View()) && context.parents == [] && context.wg.count == 0
      ensures Valid() && this.context == context && run == Start(context.View())
    {
      this.context, spans, asyncs := context, map[], map[];
      run := Start(context.View());
      StartReachable(context.View());
    }

    method DropSpan(u: nat) returns (ok: bool)
      requires Valid() && u in spans
      modifies this`spans, this`run, context.stack, spans.Values
      ensures ok <==> Step(old(run), Event.DropSpan(u)).Some?
      ensures ok ==> Valid() && Step(old(run), Event.DropSpan(u)) == Some(run)
    {
      ghost var next := CloseStep(run, u, true);
      ok := spans[u].Drop();
      spans := spans - {u};
      run := next;
    }

    method PrepareForAsync(u: nat) returns (ok: bool)
      requires Valid() && u in spans
      modifies this`spans, this`asyncs, this`run, context.stack, context.wg, spans.Values
      ensures ok <==> Step(old(run), Prepare(u)).Some?
      ensures ok ==> Valid() && Step(old(run), Prepare(u)) == Some(run)
    {
      ghost var next := CloseStep(run, u, false);
      var a := spans[u].PrepareForAsync();
      if a.None? {
        return false;
      }
      spans, asyncs := spans - {u}, asyncs[u := a.value];
      run := next;
      return true;
    }

    method DropAsync(u: nat)
      requires Valid() && u in asyncs
      modifies this`asyncs, this`run, context.stack, context.wg, asyncs.Values
      ensures Valid() && Step(old(run), Event.DropAsync(u)) == Some(run)
    {
      ghost var next := FillStep(run, u);
      var r := asyncs[u].Drop(true);
      asyncs := asyncs - {u};
      run := next;
    }

    method EditSpan(u: nat, edit: Edit)
      requires Valid() && u in spans
      modifies this`run, spans.Values
      ensures Valid() && Step(old(run), Event.EditSpan(u, edit)) == Some(run)
    {
      match edit {
        case Tag(k, v) => spans[u].AddTag(k, v);
        case Log(d) => spans[u].AddLog(d);
      }
      ghost var next := run.(spans := run.spans[u := ApplyEdit(run.spans[u], edit)]);
      ReachableStep(run, Event.EditSpan(u, edit), next);
      run := next;
    }

    method EditAsync(u: nat, edit: Edit)
      requires Valid() && u in asyncs
      modifies this`run, asyncs.Values
      ensures Valid() && Step(old(run), Event.EditAsync(u, edit)) == Some(run)
    {
      match edit {
        case Tag(k, v) => asyncs[u].AddTag(k, v);
        case Log(d) => asyncs[u].AddLog(d);
      }
      ghost var next := run.(asyncs := run.asyncs[u := ApplyEdit(run.asyncs[u], edit)]);
      ReachableStep(run, Event.EditAsync(u, edit), next);
      run := next;
    }

    method Continue(snapshot: ContextSnapshot)
      requires Valid()
      modifies this`run, context, context.stack
      ensures Valid() && Step(old(run), Event.Continue(snapshot)) == Some(run)
    {
      ContextValid();
      ghost var next := run.(ctx := Continued(run.ctx, snapshot));
      ContinueStep(run, snapshot, next);
      var ok := context.ContinueFrom(snapshot, true);
      run := next;
    }

    /** The span that event e opened joins the handles. */
    method Enter(span: Span, e: Event)
      requires HandlesFit() && Reachable(run) && Creates(e) && Step(run, e).Some?
      requires var next := Step(run, e).value;
               next.ctx == context.View() && next.pending == context.wg.count && next.parents == context.parents
      requires span.uid == run.ctx.nextUid && span.stack == context.stack && span.wg == context.wg
      requires span.obj == Some(CreatedObject(run.ctx, e))
      modifies this`spans, this`run
      ensures Valid() && Step(old(run), e) == Some(run)
    {
      ghost var next := Step(run, e).value;
      ReachableStep(run, e, next);
      Opens(run, e, next);
      spans := spans[span.uid := span];
      run := next;
    }

    method CreateEntry(op: Text)
      requires Valid()
      modifies this`spans, this`run, context, context.stack
      ensures Valid() && Step(old(run), Event.CreateEntry(op)) == Some(run)
    {
      ContextValid();
      var span := context.CreateEntrySpan(op);
      Enter(span, Event.CreateEntry(op));
    }

    method CreateEntryFrom(op: Text, from: PropagationContext)
      requires Valid()
      modifies this`spans, this`run, context, context.stack
      ensures Valid() && Step(old(run), Event.CreateEntryFrom(op, from)) == Some(run)
    {
      ContextValid();
      var span := context.CreateEntrySpanWithPropagation(op, from);
      Enter(span, Event.CreateEntryFrom(op, from));
    }

    /** Local and exit spans; false where the library panics because no span was ever created. */
    method CreateCommon(e: Event) returns (ok: bool)
      requires Valid() && (e.CreateLocal? || e.CreateExit?)
      modifies this`spans, this`run, context, context.stack
      ensures ok <==> Step(old(run), e).Some?
      ensures ok ==> Valid() && Step(old(run), e) == Some(run)
    {
      RefusedIff(run, e);
      assert run.ctx.nextSpanId == context.nextSpanId;
      ContextValid();
      var span := context.CreateCommonSpan(e.op, if e.CreateExit? then e.peer else EMPTY, if e.CreateExit? then Exit else Local);
      if span.None? {
        return false;
      }
      Enter(span.value, e);
      return true;
    }
  }
}
