/**
 Chains of contexts: each one is linked once to the one before it, by the header that one sent or by a
 snapshot it captured, before it sends or captures anything itself.
 */
module Linking {
  import opened Wrappers
  import opened Text
  import opened Decimal
  import opened SpanStack
  import opened TraceContext
  import opened SegmentRuns
  import opened SpanLife
  import opened SpanContent
  import opened Sw8

  datatype Carrier = Header(endpoint: Text, address: Text) | Snapshot

  /** e carries what prev propagates. */
  predicate Carries(prev: System, how: Carrier, e: Event) {
    match how
    case Header(endpoint, address) =>
      e.CreateEntryFrom? && DecodePropagation(EncodePropagation(prev.ctx, endpoint, address)) == Ok(e.from)
    case Snapshot => e == Continue(Capture(prev.ctx)) && e.snapshot.IsValid()
  }

  /** A captured snapshot links anything exactly when a span is open and neither id is empty; a header always does. */
  lemma SnapshotValidIff(s: System)
    requires Reachable(s)
    ensures Capture(s.ctx).IsValid() <==>
            s.ctx.stack.active != [] && s.ctx.traceId.bytes != [] && s.ctx.traceSegmentId.bytes != []
    ensures s.ctx.stack.active == [] ==> Capture(s.ctx).spanId == -1 && Propagated(s.ctx, EMPTY, EMPTY).parentSpanId == 0
  {
    ActiveIdBounds(s);
  }

  predicate IsLink(e: Event) {
    e.CreateEntryFrom? || (e.Continue? && e.snapshot.IsValid())
  }

  predicate Unlinked(es: seq<Event>) {
    forall k :: 0 <= k < |es| ==> !IsLink(es[k])
  }

  /** The life of one context: what it does before its link, the link, and what it does until and after it propagates. */
  datatype Hop = Hop(
    start: Context,
    before: seq<Event>, atLink: System,
    link: Event,
    between: seq<Event>, sent: System,
    after: seq<Event>, final: System)

  ghost predicate HopRuns(h: Hop) {
    && Reaches(h.start, h.before, h.atLink)
    && Step(h.atLink, h.link).Some?
    && Run(Step(h.atLink, h.link).value, h.between) == Some(h.sent)
    && Run(h.sent, h.after) == Some(h.final)
    && Unlinked(h.before) && Unlinked(h.between) && Unlinked(h.after)
  }

  /** The first context: it is linked to nothing. */
  datatype Root = Root(start: Context, es: seq<Event>, sent: System, after: seq<Event>, final: System)

  ghost predicate RootRuns(r: Root) {
    && Reaches(r.start, r.es, r.sent) && Run(r.sent, r.after) == Some(r.final)
    && Unlinked(r.es) && Unlinked(r.after)
  }

  function Sender(root: Root, hops: seq<Hop>, i: nat): System
    requires i < |hops|
  {
    if i == 0 then root.sent else hops[i - 1].sent
  }

  function SenderStart(root: Root, hops: seq<Hop>, i: nat): Context
    requires i < |hops|
  {
    if i == 0 then root.start else hops[i - 1].start
  }

  /** Hop i runs, and its link carries what the one before it propagates. */
  ghost predicate LinkedHop(root: Root, hops: seq<Hop>, carriers: seq<Carrier>, i: nat)
    requires i < |hops| == |carriers|
  {
    && HopRuns(hops[i])
    && Carries(Sender(root, hops, i), carriers[i], hops[i].link)
    && Sender(root, hops, i).ctx.nextSpanId <= MAX_I32
  }

  ghost predicate Chain(root: Root, hops: seq<Hop>, carriers: seq<Carrier>) {
    && RootRuns(root) && |carriers| == |hops|
    && (forall i :: 0 <= i < |hops| ==> LinkedHop(root, hops, carriers, i))
  }

  // ---- Trace ids ----

  lemma {:induction false} UnlinkedKeeps(s: System, es: seq<Event>, t: System)
    requires Run(s, es) == Some(t) && Unlinked(es)
    ensures t.ctx.traceId == s.ctx.traceId && SameIdentity(t.ctx, s.ctx)
    decreases |es|
  {
    if es != [] {
      var s' := Step(s, es[0]).value;
      assert !IsLink(es[0]);
      assert forall k :: 0 <= k < |es[1..]| ==> es[1..][k] == es[k + 1];
      UnlinkedKeeps(s', es[1..], t);
    }
  }

  lemma HopStartIdentity(h: Hop)
    requires HopRuns(h)
    ensures SameIdentity(Step(h.atLink, h.link).value.ctx, h.start)
  {
    UnlinkedKeeps(Start(h.start), h.before, h.atLink);
    StepHeader(h.atLink, h.link, Step(h.atLink, h.link).value);
  }

  lemma HopIdentity(h: Hop)
    requires HopRuns(h)
    ensures SameIdentity(h.sent.ctx, h.start)
    ensures h.sent.ctx.traceId == h.final.ctx.traceId == Step(h.atLink, h.link).value.ctx.traceId
    ensures SameIdentity(h.final.ctx, h.start)
  {
    HopStartIdentity(h);
    UnlinkedKeeps(Step(h.atLink, h.link).value, h.between, h.sent);
    UnlinkedKeeps(h.sent, h.after, h.final);
  }

  lemma HopReachable(h: Hop)
    requires HopRuns(h)
    ensures Reachable(h.atLink) && Reachable(Step(h.atLink, h.link).value) && Reachable(h.sent) && Reachable(h.final)
  {
    assert ReachableFrom(h.start, h.atLink);
    ReachableStep(h.atLink, h.link, Step(h.atLink, h.link).value);
    RunReaches(Step(h.atLink, h.link).value, h.between, h.sent);
    RunReaches(h.sent, h.after, h.final);
  }

  /** The reference that the link leaves. */
  function LinkRef(h: Hop): SegmentReference
    requires h.link.CreateEntryFrom? || h.link.Continue?
  {
    if h.link.CreateEntryFrom? then CrossProcessRef(h.link.from) else CrossThreadRef(h.atLink.ctx, h.link.snapshot)
  }

  /**
   The reference names the sender's trace, its segment, and the span that was innermost when it propagated.
   From a header it has the sender's service and the destination, from a snapshot the receiver's own
   service and the sender's newest endpoint.
   */
  predicate RefNames(r: SegmentReference, sender: Context, how: Carrier, receiver: Context) {
    && r.traceId == sender.traceId
    && r.parentTraceSegmentId == sender.traceSegmentId
    && r.parentSpanId == ActiveSpanIdOr(sender, 0)
    && (match how
        case Header(endpoint, address) =>
          && r.refType.CrossProcess?
          && r.parentService == sender.service && r.parentServiceInstance == sender.serviceInstance
          && r.parentEndpoint == endpoint && r.networkAddressUsedAtPeer == address
        case Snapshot =>
          && r.refType.CrossThread?
          && r.parentService == receiver.service && r.parentServiceInstance == receiver.serviceInstance
          && r.parentEndpoint == sender.primaryEndpoint && r.networkAddressUsedAtPeer.bytes == [])
  }

  /** What a carrier takes from the sender into the linked context. */
  lemma CarriedLink(prev: System, how: Carrier, h: Hop)
    requires Reachable(prev) && prev.ctx.nextSpanId <= MAX_I32
    requires Carries(prev, how, h.link) && Step(h.atLink, h.link).Some?
    ensures IsLink(h.link)
    ensures Step(h.atLink, h.link).value.ctx.traceId == prev.ctx.traceId
    ensures RefNames(LinkRef(h), prev.ctx, how, h.atLink.ctx)
  {
    if how.Header? {
      EncodedIsDecoded(prev, how.endpoint, how.address);
    }
  }

  /** Whatever segment s reports has the given trace id and the identity of the context start. */
  predicate SegmentOf(s: System, start: Context, traceId: Text) {
    match Segment(s.ctx)
    case None => true
    case Some(seg) =>
      && seg.traceId == traceId && seg.traceSegmentId == start.traceSegmentId
      && seg.service == start.service && seg.serviceInstance == start.serviceInstance
  }

  /** One hop, in terms of the sender's state. */
  lemma HopShares(prev: System, how: Carrier, h: Hop)
    requires HopRuns(h) && Reachable(prev) && prev.ctx.nextSpanId <= MAX_I32 && Carries(prev, how, h.link)
    ensures Reachable(h.sent) && SameIdentity(h.sent.ctx, h.start) && IsLink(h.link)
    ensures h.sent.ctx.traceId == h.final.ctx.traceId == prev.ctx.traceId
    ensures RefNames(LinkRef(h), prev.ctx, how, h.start)
    ensures SegmentOf(h.final, h.start, prev.ctx.traceId)
  {
    HopReachable(h);
    HopIdentity(h);
    CarriedLink(prev, how, h);
    UnlinkedKeeps(Start(h.start), h.before, h.atLink);
  }

  lemma RootShares(root: Root)
    requires RootRuns(root)
    ensures root.sent.ctx.traceId == root.final.ctx.traceId == root.start.traceId
    ensures SameIdentity(root.sent.ctx, root.start) && Reachable(root.sent)
    ensures SegmentOf(root.final, root.start, root.start.traceId)
  {
    UnlinkedKeeps(Start(root.start), root.es, root.sent);
    UnlinkedKeeps(root.sent, root.after, root.final);
    assert ReachableFrom(root.start, root.sent);
  }

  /** The sender of a hop that is not the first is the hop before it. */
  lemma NextSender(root: Root, hops: seq<Hop>, carriers: seq<Carrier>, i: nat)
    requires 0 < i < |hops| == |carriers| && LinkedHop(root, hops, carriers, i - 1)
    requires Reachable(Sender(root, hops, i - 1))
    ensures var prev := Sender(root, hops, i);
            && Reachable(prev) && prev.ctx.traceId == Sender(root, hops, i - 1).ctx.traceId
            && prev.ctx.traceSegmentId == SenderStart(root, hops, i).traceSegmentId
  {
    HopShares(Sender(root, hops, i - 1), carriers[i - 1], hops[i - 1]);
  }

  lemma {:induction false} SenderShares(root: Root, hops: seq<Hop>, carriers: seq<Carrier>, i: nat)
    requires Chain(root, hops, carriers) && i < |hops|
    ensures var prev := Sender(root, hops, i);
            && Reachable(prev) && prev.ctx.traceId == root.start.traceId
            && prev.ctx.traceSegmentId == SenderStart(root, hops, i).traceSegmentId
    decreases i
  {
    if i == 0 {
      RootShares(root);
    } else {
      SenderShares(root, hops, carriers, i - 1);
      NextSender(root, hops, carriers, i);
    }
  }

  /**
   Along any chain, every context and the segment it reports carry the trace id of the first one and
   the context's own segment id and service, and the reference its link leaves names the segment of the
   context before it and the span that was innermost when it propagated.
   */
  lemma ChainShares(root: Root, hops: seq<Hop>, carriers: seq<Carrier>, i: nat)
    requires Chain(root, hops, carriers) && i < |hops|
    ensures root.sent.ctx.traceId == root.final.ctx.traceId == root.start.traceId
    ensures hops[i].sent.ctx.traceId == hops[i].final.ctx.traceId == root.start.traceId
    ensures SegmentOf(root.final, root.start, root.start.traceId)
    ensures SegmentOf(hops[i].final, hops[i].start, root.start.traceId)
    ensures IsLink(hops[i].link)
    ensures RefNames(LinkRef(hops[i]), Sender(root, hops, i).ctx, carriers[i], hops[i].start)
    ensures LinkRef(hops[i]).traceId == root.start.traceId
    ensures LinkRef(hops[i]).parentTraceSegmentId == SenderStart(root, hops, i).traceSegmentId
  {
    RootShares(root);
    SenderShares(root, hops, carriers, i);
    assert LinkedHop(root, hops, carriers, i);
    HopShares(Sender(root, hops, i), carriers[i], hops[i]);
  }

  // ---- Where the reference is reported ----

  /** All references of a span so far: those of its object and the one beside it. */
  function AllRefs(l: Life): seq<SegmentReference> {
    match l
    case Unborn => []
    case Open(o, r) => Finish(o, r).refs
    case Async(o, r) => Finish(o, r).refs
    case Closed(o) => o.refs
  }

  lemma StepKeepsRefs(s: System, e: Event, s': System, u: nat)
    requires Located(s, u) && Step(s, e) == Some(s') && !IsLink(e)
    ensures AllRefs(LifeOf(s', u)) == AllRefs(LifeOf(s, u))
  {
    StepLife(s, e, s', u);
    LifeStepKeepsRefs(s, LifeOf(s, u), e, u);
  }

  lemma LifeStepKeepsRefs(s: System, l: Life, e: Event, u: nat)
    requires !IsLink(e)
    ensures AllRefs(LifeStep(s, l, e, u)) == AllRefs(l)
  {
  }

  lemma {:induction false} UnlinkedKeepsRefs(s: System, es: seq<Event>, t: System, u: nat)
    requires Reachable(s) && Run(s, es) == Some(t) && Unlinked(es)
    ensures AllRefs(LifeOf(t, u)) == AllRefs(LifeOf(s, u))
    decreases |es|
  {
    if es != [] {
      var s' := Step(s, es[0]).value;
      assert !IsLink(es[0]);
      ReachableStep(s, es[0], s');
      ReachableLocated(s, u);
      StepKeepsRefs(s, es[0], s', u);
      assert forall k :: 0 <= k < |es[1..]| ==> es[1..][k] == es[k + 1];
      UnlinkedKeepsRefs(s', es[1..], t, u);
    }
  }

  /** The span that receives the reference, if one does: the new span, or the innermost open one. */
  function LinkedSpan(h: Hop): Option<nat> {
    if h.link.CreateEntryFrom? then Some(h.atLink.ctx.nextUid)
    else
      var active := h.atLink.ctx.stack.active;
      if active == [] then None else Some(active[|active| - 1].uid)
  }

  lemma LifeStepSetsRef(h: Hop, l: Life, u: nat)
    requires IsLink(h.link) && AllRefs(l) == []
    requires u == h.atLink.ctx.nextUid ==> l.Unborn?
    requires IsTop(h.atLink.ctx.stack.active, u) ==> l.Open?
    ensures AllRefs(LifeStep(h.atLink, l, h.link, u)) == if LinkedSpan(h) == Some(u) then [LinkRef(h)] else []
  {
  }

  lemma LinkSetsRef(h: Hop, u: nat)
    requires HopRuns(h) && IsLink(h.link) && AllRefs(LifeOf(h.atLink, u)) == []
    ensures AllRefs(LifeOf(Step(h.atLink, h.link).value, u)) == if LinkedSpan(h) == Some(u) then [LinkRef(h)] else []
  {
    HopReachable(h);
    ReachableLocated(h.atLink, u);
    StepLife(h.atLink, h.link, Step(h.atLink, h.link).value, u);
    LifeStepSetsRef(h, LifeOf(h.atLink, u), u);
  }

  lemma StartHasNoRefs(c: Context, u: nat)
    requires Fresh(c)
    ensures AllRefs(LifeOf(Start(c), u)) == []
  {
  }

  lemma LinkRefIs(h: Hop)
    requires HopRuns(h) && IsLink(h.link)
    ensures if h.link.CreateEntryFrom? then RefersToHeader(LinkRef(h), h.link.from)
            else RefersToSnapshot(LinkRef(h), h.link.snapshot, h.start)
  {
    UnlinkedKeeps(Start(h.start), h.before, h.atLink);
  }

  /**
   In the segment of a linked context, the linked span reports exactly the reference of the link, once,
   and no other span reports any.
   */
  lemma ReportedReferences(h: Hop, k: nat)
    requires HopRuns(h) && IsLink(h.link)
    requires k < |h.final.ctx.stack.finalized| && h.final.ctx.stack.finalized[k].obj.Some?
    ensures var f := h.final.ctx.stack.finalized[k];
            f.obj.value.refs == if LinkedSpan(h) == Some(f.uid) then [LinkRef(h)] else []
    ensures if h.link.CreateEntryFrom? then RefersToHeader(LinkRef(h), h.link.from)
            else RefersToSnapshot(LinkRef(h), h.link.snapshot, h.start)
  {
    LinkRefIs(h);
    var u := h.final.ctx.stack.finalized[k].uid;
    HopReachable(h);
    StartHasNoRefs(h.start, u);
    assert Reaches(h.start, [], Start(h.start)) && ReachableFrom(h.start, Start(h.start));
    UnlinkedKeepsRefs(Start(h.start), h.before, h.atLink, u);
    LinkSetsRef(h, u);
    UnlinkedKeepsRefs(Step(h.atLink, h.link).value, h.between, h.sent, u);
    UnlinkedKeepsRefs(h.sent, h.after, h.final, u);
    EntryLife(h.final, k);
  }
}
