/** The tracing context: what each of its operations does, as functions on its state, and the class. */
module TraceContext {
  import opened Wrappers
  import opened Text
  import opened SpanStack
  import opened Forest

  /** What a decoded sw8 header carries. */
  datatype PropagationContext = PropagationContext(
    doSample: bool,
    parentTraceId: Text,
    parentTraceSegmentId: Text,
    parentSpanId: int,
    parentService: Text,
    parentServiceInstance: Text,
    destinationEndpoint: Text,
    destinationAddress: Text)

  datatype ContextSnapshot = ContextSnapshot(traceId: Text, traceSegmentId: Text, spanId: int, parentEndpoint: Text) {
    predicate IsValid() {
      traceSegmentId != EMPTY && spanId > -1 && traceId != EMPTY
    }
  }

  datatype SegmentObject = SegmentObject(
    traceId: Text,
    traceSegmentId: Text,
    spans: seq<SpanObject>,
    service: Text,
    serviceInstance: Text,
    isSizeLimited: bool)

  datatype Context = Context(
    traceId: Text,
    traceSegmentId: Text,
    service: Text,
    serviceInstance: Text,
    nextSpanId: nat,
    nextUid: nat,
    primaryEndpoint: Text,
    stack: Stack)

  const COMPONENT_ID := 11000

  function ActiveSpanId(active: seq<ActiveSpan>): Option<int> {
    if active == [] then None else Some(active[|active| - 1].spanId)
  }

  function ActiveSpanIdOr(c: Context, default: int): int {
    match ActiveSpanId(c.stack.active) case Some(id) => id case None => default
  }

  /** The object of the next span. */
  function NextSpan(c: Context, op: Text, peer: Text, spanType: SpanType): SpanObject {
    SpanObject(c.nextSpanId, ActiveSpanIdOr(c, -1), op, peer, spanType,
               if spanType.Entry? then Http else Unknown, COMPONENT_ID, false, [], [], [])
  }

  /** The fields that creation gives a span, and that nothing changes later. */
  predicate IsNewSpan(o: SpanObject, id: int, parent: int, op: Text, peer: Text, spanType: SpanType) {
    && o.spanId == id && o.parentSpanId == parent && o.operationName == op && o.peer == peer
    && o.spanType == spanType && (o.spanLayer.Http? <==> spanType.Entry?)
    && o.componentId == 11000 && !o.skipAnalysis
  }

  /** The context once the next span is open. */
  function Opened(c: Context, op: Text): Context {
    c.(nextSpanId := c.nextSpanId + 1,
       nextUid := c.nextUid + 1,
       primaryEndpoint := op,
       stack := c.stack.(active := c.stack.active + [ActiveSpan(c.nextUid, c.nextSpanId, None)]))
  }

  function CrossProcessRef(p: PropagationContext): SegmentReference {
    SegmentReference(CrossProcess, p.parentTraceId, p.parentTraceSegmentId, p.parentSpanId, p.parentService,
                     p.parentServiceInstance, p.destinationEndpoint, p.destinationAddress)
  }

  /** The reference to the context a snapshot was captured from; service names are the tracer's own. */
  function CrossThreadRef(c: Context, s: ContextSnapshot): SegmentReference {
    SegmentReference(CrossThread, s.traceId, s.traceSegmentId, s.spanId, c.service, c.serviceInstance,
                     s.parentEndpoint, EMPTY)
  }

  function Capture(c: Context): ContextSnapshot {
    ContextSnapshot(c.traceId, c.traceSegmentId, ActiveSpanIdOr(c, -1), c.primaryEndpoint)
  }

  /** active with the reference of its innermost span set. */
  function WithRef(active: seq<ActiveSpan>, ref: SegmentReference): seq<ActiveSpan> {
    if active == [] then active
    else var k := |active| - 1; active[k := active[k].(ref := Some(ref))]
  }

  function Continued(c: Context, s: ContextSnapshot): Context {
    if !s.IsValid() then c
    else c.(traceId := s.traceId,
            stack := c.stack.(active := WithRef(c.stack.active, CrossThreadRef(c, s))))
  }

  predicate AllFilled(fin: seq<FinalizeSpan>) {
    forall k :: 0 <= k < |fin| ==> fin[k].obj.Some?
  }

  function Objects(fin: seq<FinalizeSpan>): (r: seq<SpanObject>)
    requires AllFilled(fin)
    ensures |r| == |fin| && forall k :: 0 <= k < |fin| ==> r[k] == fin[k].obj.value
  {
    seq(|fin|, k requires 0 <= k < |fin| => fin[k].obj.value)
  }

  /** The reported segment; None where an unfinished asynchronous span makes the library panic. */
  function Segment(c: Context): Option<SegmentObject> {
    if AllFilled(c.stack.finalized) then
      Some(SegmentObject(c.traceId, c.traceSegmentId, Objects(c.stack.finalized), c.service, c.serviceInstance, false))
    else None
  }

  // ---- The shape every reachable context has ----

  function ClosedIds(fin: seq<FinalizeSpan>): (r: seq<int>)
    ensures |r| == |fin| && forall k :: 0 <= k < |fin| ==> r[k] == fin[k].uid
  {
    seq(|fin|, k requires 0 <= k < |fin| => fin[k].uid)
  }

  /** The open spans, innermost first: the order in which they will be closed. */
  function OpenIds(active: seq<ActiveSpan>): (r: seq<int>)
    ensures |r| == |active| && forall k :: 0 <= k < |active| ==> r[k] == active[|active| - 1 - k].uid
  {
    seq(|active|, k requires 0 <= k < |active| => active[|active| - 1 - k].uid)
  }

  /** All spans in closing order: the closed ones, then the open ones as they will be closed. */
  function ClosingOrder(st: Stack): seq<int> {
    ClosedIds(st.finalized) + OpenIds(st.active)
  }

  /** ps is the parent table of all spans created so far. */
  ghost predicate Shape(c: Context, ps: seq<int>) {
    && Wf(ps)
    && c.nextSpanId == c.nextUid == |ps|
    && (forall k :: 0 <= k < |c.stack.active| ==> c.stack.active[k].spanId == c.stack.active[k].uid)
    && (forall j, k :: 0 <= j < k < |c.stack.active| ==> c.stack.active[j].uid < c.stack.active[k].uid)
    && Lists(ClosingOrder(c.stack), |ps|)
    && AncestorsFollow(ps, ClosingOrder(c.stack))
    && ClosingOrder(c.stack) == Postorder(ps)
  }

  /** Where the innermost open span stands in the closing order. */
  lemma InnermostPlaced(c: Context, ps: seq<int>)
    requires Shape(c, ps)
    ensures var x, before, after := ActiveSpanIdOr(c, -1), ClosedIds(c.stack.finalized), OpenIds(c.stack.active);
            && (if after == [] then x == -1 else x == after[0] && 0 <= x < |ps| && x !in before)
            && (forall k :: 0 < k < |after| ==> after[k] < x)
  {
    var before, after := ClosedIds(c.stack.finalized), OpenIds(c.stack.active);
    var order := before + after;
    assert order == ClosingOrder(c.stack);
    if after != [] {
      assert order[|before|] == after[0] && after[0] in order;
      assert forall k :: 0 <= k < |before| ==> order[k] == before[k];
    }
  }

  /** Opening puts the new id right in front of the innermost open span. */
  lemma OpenedOrder(c: Context, op: Text)
    ensures ClosingOrder(Opened(c, op).stack) == ClosedIds(c.stack.finalized) + [c.nextUid] + OpenIds(c.stack.active)
  {
    assert OpenIds(Opened(c, op).stack.active) == [c.nextUid] + OpenIds(c.stack.active);
  }

  lemma OpenedIncreases(c: Context, ps: seq<int>, op: Text)
    requires Shape(c, ps)
    ensures var active := Opened(c, op).stack.active;
            && (forall k :: 0 <= k < |active| ==> active[k].spanId == active[k].uid)
            && (forall j, k :: 0 <= j < k < |active| ==> active[j].uid < active[k].uid)
  {
    var before, after := ClosedIds(c.stack.finalized), OpenIds(c.stack.active);
    forall j | 0 <= j < |c.stack.active| ensures c.stack.active[j].uid < |ps| {
      assert after[|after| - 1 - j] in before + after;
    }
  }

  lemma OpenKeepsShape(c: Context, ps: seq<int>, op: Text)
    requires Shape(c, ps)
    ensures Shape(Opened(c, op), ps + [ActiveSpanIdOr(c, -1)])
  {
    var x, before, after := ActiveSpanIdOr(c, -1), ClosedIds(c.stack.finalized), OpenIds(c.stack.active);
    InnermostPlaced(c, ps);
    AncestorsFollowAppend(ps, x, before, after);
    PostorderAppend(ps, x, before, after);
    OpenedOrder(c, op);
    OpenedIncreases(c, ps, op);
  }

  /** Closing the innermost span leaves the closing order as it is. */
  lemma CloseKeepsShape(c: Context, ps: seq<int>, uid: nat, obj: Option<SpanObject>)
    requires Shape(c, ps) && Close(c.stack, uid, obj).Some?
    ensures Shape(c.(stack := Close(c.stack, uid, obj).value), ps)
  {
    var st := Close(c.stack, uid, obj).value;
    assert OpenIds(c.stack.active) == [uid] + OpenIds(st.active);
    assert ClosingOrder(st) == ClosingOrder(c.stack);
  }

  lemma FillKeepsShape(c: Context, ps: seq<int>, uid: nat, obj: SpanObject)
    requires Shape(c, ps) && Fill(c.stack.finalized, uid, obj).Some?
    ensures Shape(c.(stack := c.stack.(finalized := Fill(c.stack.finalized, uid, obj).value)), ps)
  {
    assert ClosedIds(Fill(c.stack.finalized, uid, obj).value) == ClosedIds(c.stack.finalized);
  }

  lemma ContinuedKeepsShape(c: Context, ps: seq<int>, s: ContextSnapshot)
    requires Shape(c, ps)
    ensures Shape(Continued(c, s), ps)
  {
    assert OpenIds(Continued(c, s).stack.active) == OpenIds(c.stack.active);
  }

  /** A context as created: no span was opened yet. */
  predicate Fresh(c: Context) {
    && c.nextSpanId == 0 && c.nextUid == 0 && c.primaryEndpoint.bytes == []
    && c.stack.active == [] && c.stack.finalized == []
  }

  lemma FreshShape(c: Context, ps: seq<int>)
    requires Fresh(c) && |ps| == 0
    ensures Shape(c, ps)
  {
    EmptyShape(c, ps);
  }

  lemma EmptyShape(c: Context, ps: seq<int>)
    requires |ps| == 0 && |c.stack.active| == 0 && |c.stack.finalized| == 0 && c.nextSpanId == 0 && c.nextUid == 0
    ensures Shape(c, ps)
  {
    NoNodes(ps, ClosingOrder(c.stack));
  }
}
