/**
 What a reported segment says, field by field: the header of the segment, and for each span what its
 creation, the edits made to it and the references set on it leave in the reported object.
 */
module SpanContent {
  import opened Wrappers
  import opened Text
  import opened SpanStack
  import opened TraceContext
  import opened SegmentRuns
  import opened SegmentReport
  import opened AsyncRefinesSync
  import opened SpanLife

  // ---- The header of the segment ----

  predicate SameIdentity(c: Context, d: Context) {
    c.traceSegmentId == d.traceSegmentId && c.service == d.service && c.serviceInstance == d.serviceInstance
  }

  /** The trace id after the events: that of the last header or valid snapshot taken in, if there was one. */
  function TraceIdAfter(es: seq<Event>, before: Text): Text
    decreases |es|
  {
    if es == [] then before else TraceIdAfter(es[1..], TraceIdNext(es[0], before))
  }

  /** What one event does to the trace id. */
  function TraceIdNext(e: Event, before: Text): Text {
    if e.CreateEntryFrom? then e.from.parentTraceId
    else if e.Continue? && e.snapshot.IsValid() then e.snapshot.traceId
    else before
  }

  lemma StepHeader(s: System, e: Event, s': System)
    requires Step(s, e) == Some(s')
    ensures SameIdentity(s'.ctx, s.ctx) && s'.ctx.traceId == TraceIdNext(e, s.ctx.traceId)
  {
  }

  lemma {:induction false} RunHeader(s: System, es: seq<Event>, t: System)
    requires Run(s, es) == Some(t)
    ensures SameIdentity(t.ctx, s.ctx) && t.ctx.traceId == TraceIdAfter(es, s.ctx.traceId)
    decreases |es|
  {
    if es != [] {
      StepHeader(s, es[0], Step(s, es[0]).value);
      RunHeader(Step(s, es[0]).value, es[1..], t);
    }
  }

  /**
   A segment carries the trace id that was adopted last, or the context's own, the context's segment id,
   service and instance, and the objects of the closed spans in order.
   */
  lemma ReportedHeader(c: Context, es: seq<Event>, s: System, seg: SegmentObject)
    requires Reaches(c, es, s) && Segment(s.ctx) == Some(seg)
    ensures seg.traceId == TraceIdAfter(es, c.traceId) && seg.traceId == s.ctx.traceId
    ensures seg.traceSegmentId == c.traceSegmentId
    ensures seg.service == c.service && seg.serviceInstance == c.serviceInstance && !seg.isSizeLimited
    ensures |seg.spans| == |s.ctx.stack.finalized|
    ensures forall k :: 0 <= k < |seg.spans| ==> Some(seg.spans[k]) == s.ctx.stack.finalized[k].obj
  {
    RunHeader(Start(c), es, s);
  }

  // ---- References ----

  /** r refers to the segment a decoded header came from. */
  predicate RefersToHeader(r: SegmentReference, p: PropagationContext) {
    && r.refType.CrossProcess?
    && r.traceId == p.parentTraceId
    && r.parentTraceSegmentId == p.parentTraceSegmentId
    && r.parentSpanId == p.parentSpanId
    && r.parentService == p.parentService
    && r.parentServiceInstance == p.parentServiceInstance
    && r.parentEndpoint == p.destinationEndpoint
    && r.networkAddressUsedAtPeer == p.destinationAddress
  }

  /** r refers to the segment a snapshot came from; the service is the one that c belongs to. */
  predicate RefersToSnapshot(r: SegmentReference, s: ContextSnapshot, c: Context) {
    && r.refType.CrossThread?
    && r.traceId == s.traceId
    && r.parentTraceSegmentId == s.traceSegmentId
    && r.parentSpanId == s.spanId
    && r.parentService == c.service
    && r.parentServiceInstance == c.serviceInstance
    && r.parentEndpoint == s.parentEndpoint
    && r.networkAddressUsedAtPeer.bytes == []
  }

  /** The last valid snapshot continued from while u was the innermost open span; earlier if there was none. */
  function LastSnapshot(s: System, es: seq<Event>, u: nat, earlier: Option<ContextSnapshot>): Option<ContextSnapshot>
    decreases |es|
  {
    if es == [] then earlier
    else
      match Step(s, es[0])
      case None => earlier
      case Some(s') =>
        var now := es[0].Continue? && es[0].snapshot.IsValid() && IsTop(s.ctx.stack.active, u);
        LastSnapshot(s', es[1..], u, if now then Some(es[0].snapshot) else earlier)
  }

  ghost predicate SameReference(ref: Option<SegmentReference>, snapshot: Option<ContextSnapshot>, c: Context) {
    && (ref.Some? <==> snapshot.Some?)
    && (ref.Some? ==> RefersToSnapshot(ref.value, snapshot.value, c))
  }

  lemma {:induction false} LastRefIs(
    s: System, es: seq<Event>, u: nat, ref: Option<SegmentReference>, snapshot: Option<ContextSnapshot>, c: Context)
    requires SameIdentity(s.ctx, c) && SameReference(ref, snapshot, c)
    ensures SameReference(LastRef(s, es, u, ref), LastSnapshot(s, es, u, snapshot), c)
    decreases |es|
  {
    if es != [] && Step(s, es[0]).Some? {
      var s' := Step(s, es[0]).value;
      StepHeader(s, es[0], s');
      var now := es[0].Continue? && es[0].snapshot.IsValid() && IsTop(s.ctx.stack.active, u);
      LastRefIs(s', es[1..], u, OrElse(RefSet(s, es[0], u), ref), if now then Some(es[0].snapshot) else snapshot, c);
    }
  }

  // ---- Edits ----

  /** The tags that the edits add. */
  function TagsOf(edits: seq<Edit>): seq<(Text, Text)> {
    if edits == [] then []
    else (if edits[0].Tag? then [(edits[0].key, edits[0].value)] else []) + TagsOf(edits[1..])
  }

  /** The log entries that the edits add. */
  function LogsOf(edits: seq<Edit>): seq<seq<(Text, Text)>> {
    if edits == [] then []
    else (if edits[0].Log? then [edits[0].data] else []) + LogsOf(edits[1..])
  }

  lemma {:induction false} EditedFields(o: SpanObject, edits: seq<Edit>)
    ensures ApplyEdits(o, edits) == o.(tags := o.tags + TagsOf(edits), logs := o.logs + LogsOf(edits))
    decreases |edits|
  {
    if edits != [] {
      EditedFields(ApplyEdit(o, edits[0]), edits[1..]);
      if edits[0].Tag? {
        assert o.tags + TagsOf(edits) == o.tags + [(edits[0].key, edits[0].value)] + TagsOf(edits[1..]);
      } else {
        assert o.logs + LogsOf(edits) == o.logs + [edits[0].data] + LogsOf(edits[1..]);
      }
    }
  }

  // ---- Creation ----

  /** o is the object of a span just opened in c by event e. */
  predicate CreatedBy(o: SpanObject, c: Context, e: Event)
    requires Creates(e)
  {
    var parent := if c.stack.active == [] then -1 else c.stack.active[|c.stack.active| - 1].uid;
    IsNewSpan(o, c.nextUid, parent, e.op, if e.CreateExit? then e.peer else EMPTY,
              if e.CreateExit? then Exit else if e.CreateLocal? then Local else Entry)
  }

  lemma NewObject(s: System, e: Event)
    requires Inv(s) && Creates(e)
    ensures var o := CreatedObject(s.ctx, e);
            && CreatedBy(o, s.ctx, e) && o.tags == [] && o.logs == []
            && |o.refs| == (if e.CreateEntryFrom? then 1 else 0)
            && (e.CreateEntryFrom? ==> RefersToHeader(o.refs[0], e.from))
  {
  }

  /**
   The object reported for a span, whichever way it was closed: what its creation determines, the tags and
   log entries added to it in order, and as references first the header it was opened with, if any, and
   then the last valid snapshot continued from while it was the innermost open span, if any.
   */
  lemma ReportedObject(c: Context, before: seq<Event>, s: System, e: Event, after: seq<Event>, t: System, k: nat)
    requires Reaches(c, before, s) && Creates(e) && Step(s, e).Some?
    requires Run(Step(s, e).value, after) == Some(t)
    requires k < |t.ctx.stack.finalized| && t.ctx.stack.finalized[k].uid == s.ctx.nextUid
    requires t.ctx.stack.finalized[k].obj.Some?
    ensures var o, edits := t.ctx.stack.finalized[k].obj.value, EditsOf(after, s.ctx.nextUid);
            CreatedBy(o, s.ctx, e) && o.tags == TagsOf(edits) && o.logs == LogsOf(edits)
    ensures var refs := t.ctx.stack.finalized[k].obj.value.refs;
            var snapshot := LastSnapshot(Step(s, e).value, after, s.ctx.nextUid, None);
            var n := if e.CreateEntryFrom? then 1 else 0;
            && |refs| == n + (if snapshot.Some? then 1 else 0)
            && (n == 1 ==> RefersToHeader(refs[0], e.from))
            && (snapshot.Some? ==> RefersToSnapshot(refs[n], snapshot.value, c))
  {
    var u, s' := s.ctx.nextUid, Step(s, e).value;
    ReachableInv(c, before, s);
    FinishedObject(c, before, s, e, after, t, k);
    RunHeader(Start(c), before, s);
    StepHeader(s, e, s');
    LastRefIs(s', after, u, None, None, c);
    NewObject(s, e);
    FinishedFields(s, e, CreatedObject(s.ctx, e), EditsOf(after, u), LastRef(s', after, u, None));
    FinishedRefs(CreatedObject(s.ctx, e), EditsOf(after, u), LastRef(s', after, u, None));
  }

  lemma FinishedFields(s: System, e: Event, o: SpanObject, edits: seq<Edit>, ref: Option<SegmentReference>)
    requires Creates(e) && CreatedBy(o, s.ctx, e) && o.tags == [] && o.logs == []
    ensures var f := Finish(ApplyEdits(o, edits), ref);
            CreatedBy(f, s.ctx, e) && f.tags == TagsOf(edits) && f.logs == LogsOf(edits)
  {
    EditedFields(o, edits);
    Finished(ApplyEdits(o, edits), ref);
  }

  lemma FinishedRefs(o: SpanObject, edits: seq<Edit>, ref: Option<SegmentReference>)
    ensures Finish(ApplyEdits(o, edits), ref).refs == o.refs + (match ref case None => [] case Some(r) => [r])
  {
    EditedFields(o, edits);
    Finished(ApplyEdits(o, edits), ref);
  }
}
