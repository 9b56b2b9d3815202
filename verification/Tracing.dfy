/**
 The objects a user holds: the tracing context, its spans and asynchronous spans, and the tracer that
 reports. Each method states the new state of the shared stack with the functions of SpanStack and
 TraceContext, on which the runs of SegmentRuns are built.
 */
module Tracing {
  import opened Wrappers
  import opened Text
  import opened SpanStack
  import opened TraceContext
  import opened WaitGroupModel

  class Span {
    const uid: nat
    var obj: Option<SpanObject>
    const wg: WaitGroup
    const stack: SpanStack

    constructor (uid: nat, obj: SpanObject, wg: WaitGroup, stack: SpanStack)
      ensures this.uid == uid && this.obj == Some(obj) && this.wg == wg && this.stack == stack
    {
      this.uid, this.obj, this.wg, this.stack := uid, Some(obj), wg, stack;
    }

    method AddTag(key: Text, value: Text)
      requires obj.Some?
      modifies this`obj
      ensures obj == Some(old(obj).value.(tags := old(obj).value.tags + [(key, value)]))
    {
      obj := Some(obj.value.(tags := obj.value.tags + [(key, value)]));
    }

    method AddLog(data: seq<(Text, Text)>)
      requires obj.Some?
      modifies this`obj
      ensures obj == Some(old(obj).value.(logs := old(obj).value.logs + [data]))
    {
      obj := Some(obj.value.(logs := obj.value.logs + [data]));
    }

    /** None where the library panics because the span is not the innermost one. */
    method PrepareForAsync() returns (r: Option<AsyncSpan>)
      requires obj.Some?
      modifies this`obj, wg, stack
      ensures r.Some? <==> IsTop(old(stack.active), uid)
      ensures r.Some? ==>
                && fresh(r.value) && r.value.obj == old(obj) && obj == None
                && r.value.uid == uid && r.value.wg == wg && r.value.stack == stack
                && Close(old(stack.View()), uid, None) == Some(stack.View())
                && wg.count == old(wg.count) + 1
      ensures r.None? ==> obj == old(obj) && stack.View() == old(stack.View()) && wg.count == old(wg.count)
    {
      if !(stack.active != [] && stack.active[|stack.active| - 1].uid == uid) {
        return None;
      }
      wg.Increase(1);
      var a := new AsyncSpan(uid, obj.value, wg, stack);
      obj := None;
      var dropped := Drop();
      return Some(a);
    }

    /** Returns false where the library panics because the span is not the innermost one. */
    method Drop() returns (ok: bool)
      modifies this`obj, stack
      ensures obj == None
      ensures ok <==> Close(old(stack.View()), uid, old(obj)).Some?
      ensures stack.View() == if ok then Close(old(stack.View()), uid, old(obj)).value else old(stack.View())
    {
      var o := obj;
      obj := None;
      ok := stack.CloseSpan(uid, o);
    }
  }

  datatype DropOutcome = Done | ContextDropped | EntryMissing | CountUnderflow

  class AsyncSpan {
    const uid: nat
    var obj: Option<SpanObject>
    const wg: WaitGroup
    const stack: SpanStack

    constructor (uid: nat, obj: SpanObject, wg: WaitGroup, stack: SpanStack)
      ensures this.uid == uid && this.obj == Some(obj) && this.wg == wg && this.stack == stack
    {
      this.uid, this.obj, this.wg, this.stack := uid, Some(obj), wg, stack;
    }

    method AddTag(key: Text, value: Text)
      requires obj.Some?
      modifies this`obj
      ensures obj == Some(old(obj).value.(tags := old(obj).value.tags + [(key, value)]))
    {
      obj := Some(obj.value.(tags := obj.value.tags + [(key, value)]));
    }

    method AddLog(data: seq<(Text, Text)>)
      requires obj.Some?
      modifies this`obj
      ensures obj == Some(old(obj).value.(logs := old(obj).value.logs + [data]))
    {
      obj := Some(obj.value.(logs := obj.value.logs + [data]));
    }

    /**
     Fills the entry, and only then tells the wait group. stackAlive tells whether the weak reference to
     the stack can still be upgraded.
     */
    method Drop(stackAlive: bool) returns (r: DropOutcome)
      requires obj.Some?
      modifies this`obj, wg, stack
      ensures stack.active == old(stack.active)
      ensures r.ContextDropped? <==> !stackAlive
      ensures r.EntryMissing? <==> stackAlive && Fill(old(stack.finalized), uid, old(obj).value).None?
      ensures r.ContextDropped? || r.EntryMissing? ==>
                stack.finalized == old(stack.finalized) && wg.count == old(wg.count)
      ensures r.Done? || r.CountUnderflow? ==>
                Some(stack.finalized) == Fill(old(stack.finalized), uid, old(obj).value) && obj == None
      ensures r.CountUnderflow? ==> old(wg.count) == 0
      ensures r.Done? ==> wg.count == old(wg.count) - 1
    {
      if !stackAlive {
        return ContextDropped;
      }
      var o := obj.value;
      obj := None;
      var filled := stack.FillAsyncSpan(uid, o);
      if !filled {
        return EntryMissing;
      }
      var ok, notify := wg.Finish();
      return if ok then DropOutcome.Done else CountUnderflow;
    }
  }

  class TracingContext {
    var traceId: Text
    const traceSegmentId: Text
    const service: Text
    const serviceInstance: Text
    var nextSpanId: nat
    const stack: SpanStack
    var primaryEndpointName: Text
    var spanUidGenerator: nat
    const wg: WaitGroup
    /** The parent id of every span created so far. */
    ghost var parents: seq<int>

    function View(): Context
      reads this, stack
    {
      Context(traceId, traceSegmentId, service, serviceInstance, nextSpanId, spanUidGenerator, primaryEndpointName,
              stack.View())
    }

    ghost predicate Valid()
      reads this, stack
    {
      Shape(View(), parents)
    }

    constructor (traceId: Text, traceSegmentId: Text, service: Text, serviceInstance: Text)
      ensures Valid() && Fresh(View())
      ensures this.traceId == traceId && this.traceSegmentId == traceSegmentId
      ensures this.service == service && this.serviceInstance == serviceInstance
      ensures fresh(stack) && fresh(wg) && wg.count == 0 && parents == []
    {
      this.traceId, this.traceSegmentId := traceId, traceSegmentId;
      this.service, this.serviceInstance := service, serviceInstance;
      nextSpanId, spanUidGenerator, primaryEndpointName := 0, 0, EMPTY;
      parents := [];
      stack := new SpanStack();
      wg := new WaitGroup();
      new;
      FreshShape(View(), parents);
    }

    method PeekActiveSpanId() returns (id: Option<int>)
      ensures id == ActiveSpanId(stack.active)
    {
      id := if stack.active == [] then None else Some(stack.active[|stack.active| - 1].spanId);
    }

    method OpenSpan(op: Text, peer: Text, spanType: SpanType) returns (span: Span)
      requires Valid()
      modifies this, stack
      ensures Valid() && View() == Opened(old(View()), op)
      ensures parents == old(parents) + [ActiveSpanIdOr(old(View()), -1)]
      ensures fresh(span) && span.uid == old(spanUidGenerator) && span.stack == stack && span.wg == wg
      ensures span.obj == Some(NextSpan(old(View()), op, peer, spanType))
      ensures IsNewSpan(span.obj.value, old(nextSpanId), ActiveSpanIdOr(old(View()), -1), op, peer, spanType)
    {
      OpenKeepsShape(View(), parents, op);
      var active := PeekActiveSpanId();
      var parent := if active.Some? then active.value else -1;
      var obj := SpanObject(nextSpanId, parent, op, peer, spanType, if spanType.Entry? then Http else Unknown,
                            COMPONENT_ID, false, [], [], []);
      nextSpanId := nextSpanId + 1;
      var uid := spanUidGenerator;
      spanUidGenerator := uid + 1;
      primaryEndpointName := op;
      stack.active := stack.active + [ActiveSpan(uid, obj.spanId, None)];
      parents := parents + [parent];
      span := new Span(uid, obj, wg, stack);
    }

    method CreateEntrySpan(op: Text) returns (span: Span)
      requires Valid()
      modifies this, stack
      ensures Valid() && View() == Opened(old(View()), op)
      ensures parents == old(parents) + [ActiveSpanIdOr(old(View()), -1)]
      ensures fresh(span) && span.uid == old(spanUidGenerator) && span.stack == stack && span.wg == wg
      ensures span.obj == Some(NextSpan(old(View()), op, EMPTY, Entry))
      ensures IsNewSpan(span.obj.value, old(nextSpanId), ActiveSpanIdOr(old(View()), -1), op, EMPTY, Entry)
    {
      span := OpenSpan(op, EMPTY, Entry);
    }

    method CreateEntrySpanWithPropagation(op: Text, p: PropagationContext) returns (span: Span)
      requires Valid()
      modifies this, stack
      ensures Valid() && View() == Opened(old(View()), op).(traceId := p.parentTraceId)
      ensures parents == old(parents) + [ActiveSpanIdOr(old(View()), -1)]
      ensures fresh(span) && span.uid == old(spanUidGenerator) && span.stack == stack && span.wg == wg
      ensures span.obj == Some(NextSpan(old(View()), op, EMPTY, Entry).(refs := [CrossProcessRef(p)]))
    {
      span := CreateEntrySpan(op);
      traceId := p.parentTraceId;
      assert span.obj.value.refs + [CrossProcessRef(p)] == [CrossProcessRef(p)];
      span.obj := Some(span.obj.value.(refs := span.obj.value.refs + [CrossProcessRef(p)]));
    }

    /** Exit and local spans; None where the library panics because no span was ever created. */
    method CreateCommonSpan(op: Text, peer: Text, spanType: SpanType) returns (span: Option<Span>)
      requires Valid() && !spanType.Entry?
      modifies this, stack
      ensures Valid()
      ensures span.None? <==> old(nextSpanId) == 0
      ensures span.None? ==> View() == old(View()) && parents == old(parents)
      ensures span.Some? ==>
                && View() == Opened(old(View()), op)
                && parents == old(parents) + [ActiveSpanIdOr(old(View()), -1)]
                && fresh(span.value) && span.value.uid == old(spanUidGenerator)
                && span.value.stack == stack && span.value.wg == wg
                && span.value.obj == Some(NextSpan(old(View()), op, peer, spanType))
                && IsNewSpan(span.value.obj.value, old(nextSpanId), ActiveSpanIdOr(old(View()), -1), op, peer, spanType)
    {
      if nextSpanId == 0 {
        return None;
      }
      var s := OpenSpan(op, peer, spanType);
      return Some(s);
    }

    method TakeSnapshot() returns (s: ContextSnapshot)
      ensures s == Capture(View())
    {
      var active := PeekActiveSpanId();
      s := ContextSnapshot(traceId, traceSegmentId, if active.Some? then active.value else -1, primaryEndpointName);
    }

    /** Returns false where the library panics because the tracer is gone; the trace id is set by then. */
    method ContinueFrom(snapshot: ContextSnapshot, tracerAlive: bool) returns (ok: bool)
      requires Valid()
      modifies this, stack
      ensures Valid() && parents == old(parents)
      ensures ok <==> tracerAlive || !snapshot.IsValid()
      ensures View() == if ok then Continued(old(View()), snapshot) else old(View()).(traceId := snapshot.traceId)
    {
      ContinuedKeepsShape(View(), parents, snapshot);
      if snapshot.IsValid() {
        traceId := snapshot.traceId;
        if !tracerAlive {
          return false;
        }
        var ref := SegmentReference(CrossThread, snapshot.traceId, snapshot.traceSegmentId, snapshot.spanId, service,
                                    serviceInstance, snapshot.parentEndpoint, EMPTY);
        if stack.active != [] {
          var k := |stack.active| - 1;
          stack.active := stack.active[k := stack.active[k].(ref := Some(ref))];
        }
      }
      return true;
    }

    /** Takes the closed spans; None where the library panics on an unfinished asynchronous span. */
    method ConvertToSegmentObject() returns (r: Option<SegmentObject>)
      modifies stack`finalized
      ensures r == Segment(old(View())) && stack.finalized == []
      ensures r.Some? <==> forall k :: 0 <= k < |old(stack.finalized)| ==> old(stack.finalized)[k].obj.Some?
      ensures r.Some? ==>
                && r.value.traceId == traceId && r.value.traceSegmentId == traceSegmentId
                && r.value.service == service && r.value.serviceInstance == serviceInstance && !r.value.isSizeLimited
                && |r.value.spans| == |old(stack.finalized)|
                && forall k :: 0 <= k < |r.value.spans| ==> Some(r.value.spans[k]) == old(stack.finalized)[k].obj
    {
      var taken := stack.finalized;
      stack.finalized := [];
      var spans: seq<SpanObject> := [];
      var i := 0;
      while i < |taken|
        invariant i <= |taken| == |old(stack.finalized)| && |spans| == i
        invariant forall k :: 0 <= k < i ==> taken[k].obj == Some(spans[k])
      {
        if taken[i].obj.None? {
          return None;
        }
        spans := spans + [taken[i].obj.value];
        i := i + 1;
      }
      assert spans == Objects(taken);
      return Some(SegmentObject(traceId, traceSegmentId, spans, service, serviceInstance, false));
    }
  }

  class Tracer {
    /** The segments handed to the reporter. */
    var reported: seq<SegmentObject>

    /** Called when a context is dropped. Returns false where the conversion panics. */
    method FinalizeContext(context: TracingContext) returns (ok: bool)
      modifies this, context.stack`finalized
      ensures ok <==> Segment(old(context.View())).Some?
      ensures reported == old(reported) + (if ok then [Segment(old(context.View())).value] else [])
      ensures context.stack.finalized == []
    {
      var segment := context.ConvertToSegmentObject();
      if segment.None? {
        return false;
      }
      reported := reported + [segment.value];
      return true;
    }
  }
}
