/** What holds of every segment a tracing context builds, in each state and when it is reported. */
module SegmentReport {
  import opened Wrappers
  import opened SpanStack
  import opened Forest
  import opened TraceContext
  import opened SegmentRuns

  /** The parent a list of spans records for the span with the given id; -1 when there is no such span. */
  function ParentOf(spans: seq<SpanObject>, id: int): int {
    if spans == [] then -1
    else if spans[0].spanId == id then spans[0].parentSpanId
    else ParentOf(spans[1..], id)
  }

  /** The parent table rebuilt from the reported spans alone. */
  function ParentTable(spans: seq<SpanObject>): (ps: seq<int>)
    ensures |ps| == |spans| && forall i :: 0 <= i < |ps| ==> ps[i] == ParentOf(spans, i)
  {
    seq(|spans|, i => ParentOf(spans, i))
  }

  function SpanIds(spans: seq<SpanObject>): (r: seq<int>)
    ensures |r| == |spans| && forall k :: 0 <= k < |r| ==> r[k] == spans[k].spanId
  {
    seq(|spans|, k requires 0 <= k < |spans| => spans[k].spanId)
  }

  lemma {:induction false} ParentOfAt(spans: seq<SpanObject>, k: nat)
    requires k < |spans|
    requires forall j :: 0 <= j < |spans| && spans[j].spanId == spans[k].spanId
               ==> spans[j].parentSpanId == spans[k].parentSpanId
    ensures ParentOf(spans, spans[k].spanId) == spans[k].parentSpanId
  {
    if spans[0].spanId != spans[k].spanId {
      ParentOfAt(spans[1..], k - 1);
    }
  }

  /** For two closed spans, one is a proper ancestor of the other exactly when its id is smaller and it was closed later. */
  lemma AncestorIffOlderAndLater(c: Context, es: seq<Event>, s: System, i: nat, j: nat)
    requires Reaches(c, es, s)
    requires i < |s.ctx.stack.finalized| && j < |s.ctx.stack.finalized|
    ensures Wf(s.parents)
    ensures var fin := s.ctx.stack.finalized;
            Ancestor(s.parents, fin[i].uid, fin[j].uid) <==> fin[i].uid < fin[j].uid && i > j
  {
    ReachableInv(c, es, s);
    var fin := s.ctx.stack.finalized;
    var order := ClosingOrder(s.ctx.stack);
    assert order[i] == fin[i].uid && order[j] == fin[j].uid;
    if i == j && Ancestor(s.parents, fin[i].uid, fin[j].uid) {
      AncestorRange(s.parents, fin[i].uid, fin[j].uid);
    }
  }

  /** Where the object of span u is held: by its Span, by its AsyncSpan, or in the list of closed spans. */
  function ObjectIn(s: System, u: nat): Option<SpanObject> {
    if u in s.spans then Some(s.spans[u])
    else if u in s.asyncs then Some(s.asyncs[u])
    else
      var k := FirstEntry(s.ctx.stack.finalized, u);
      if k < |s.ctx.stack.finalized| then s.ctx.stack.finalized[k].obj else None
  }

  /** Where an issued id is found in the stack. */
  lemma IssuedIsPlaced(st: Stack, n: nat, u: nat)
    requires Lists(ClosingOrder(st), n)
    ensures u < n <==> IsOpen(st.active, u) || FirstEntry(st.finalized, u) < |st.finalized|
  {
    var fin, active, order := st.finalized, st.active, ClosingOrder(st);
    assert forall k :: 0 <= k < |fin| ==> order[k] == fin[k].uid && order[k] in order;
    forall k | 0 <= k < |active| ensures active[k].uid in order {
      assert order[|fin| + |active| - 1 - k] == active[k].uid;
    }
    if u < n {
      assert u in order;
      var p :| 0 <= p < |order| && order[p] == u;
      if p < |fin| {
        assert fin[p].uid == u;
      } else {
        assert active[|active| - 1 - (p - |fin|)].uid == u;
      }
    }
  }

  lemma PlacedHasObject(s: System, u: nat)
    requires HandlesMatch(s) && ObjectsMatch(s) && DistinctIds(s.ctx.stack, |s.parents|)
    ensures ObjectIn(s, u).Some? <==>
              IsOpen(s.ctx.stack.active, u) || FirstEntry(s.ctx.stack.finalized, u) < |s.ctx.stack.finalized|
    ensures ObjectIn(s, u).Some? ==> ObjectOf(ObjectIn(s, u).value, u, s.parents)
    ensures IsOpen(s.ctx.stack.active, u) ==> FirstEntry(s.ctx.stack.finalized, u) == |s.ctx.stack.finalized|
    ensures u in s.asyncs ==> u !in s.spans
  {
    var fin := s.ctx.stack.finalized;
    var k := FirstEntry(fin, u);
    if k < |fin| && fin[k].obj.None? {
      assert Unfilled(fin, u);
    }
  }

  /**
   Each issued id belongs to exactly one span, which is either open or closed and whose object is held
   in one place and records the parent given at creation. Uids and span ids advance together.
   */
  lemma EverySpanOnce(c: Context, es: seq<Event>, s: System, u: nat)
    requires Reaches(c, es, s)
    ensures s.ctx.nextSpanId == s.ctx.nextUid == |s.parents|
    ensures u < |s.parents| <==> IsOpen(s.ctx.stack.active, u) || FirstEntry(s.ctx.stack.finalized, u) < |s.ctx.stack.finalized|
    ensures u < |s.parents| <==> ObjectIn(s, u).Some?
    ensures u < |s.parents| ==> ObjectOf(ObjectIn(s, u).value, u, s.parents)
    ensures IsOpen(s.ctx.stack.active, u) ==> FirstEntry(s.ctx.stack.finalized, u) == |s.ctx.stack.finalized|
    ensures u in s.spans <==> IsOpen(s.ctx.stack.active, u)
    ensures u in s.asyncs ==> u !in s.spans
  {
    ReachableInv(c, es, s);
    ShapeDistinct(s.ctx, s.parents);
    IssuedIsPlaced(s.ctx.stack, |s.parents|, u);
    PlacedHasObject(s, u);
  }

  /** A segment can be reported, with spans open or not, exactly when no asynchronous span is left. */
  lemma ReportableIff(c: Context, es: seq<Event>, s: System)
    requires Reaches(c, es, s)
    ensures Segment(s.ctx).Some? <==> s.asyncs == map[]
    ensures Segment(s.ctx).Some? <==> s.pending == 0
  {
    ReachableInv(c, es, s);
    ReportableIffInv(s);
  }

  lemma ReportableIffInv(s: System)
    requires Inv(s)
    ensures Segment(s.ctx).Some? <==> s.asyncs == map[]
    ensures Segment(s.ctx).Some? <==> s.pending == 0
  {
    var fin := s.ctx.stack.finalized;
    if AllFilled(fin) {
      assert forall u: nat :: u !in s.asyncs;
      assert s.asyncs == map[];
    } else {
      var k :| 0 <= k < |fin| && fin[k].obj.None?;
      assert Unfilled(fin, fin[k].uid);
      assert fin[k].uid in s.asyncs;
    }
  }

  /** A full list of closed spans, in any order, gives back the ids and the parent table. */
  lemma TableOf(fin: seq<FinalizeSpan>, ps: seq<int>)
    requires AllFilled(fin) && EntriesMatch(fin, ps) && Lists(ClosedIds(fin), |ps|)
    ensures SpanIds(Objects(fin)) == ClosedIds(fin) && ParentTable(Objects(fin)) == ps
  {
    var ids, spans := ClosedIds(fin), Objects(fin);
    ListsLength(ids, |ps|);
    forall i | 0 <= i < |ps| ensures ParentOf(spans, i) == ps[i] {
      assert i in ids;
      var k :| 0 <= k < |ids| && ids[k] == i;
      ParentOfAt(spans, k);
    }
  }

  lemma ReportedTable(s: System)
    requires Inv(s) && s.ctx.stack.active == [] && Segment(s.ctx).Some?
    ensures var spans := Segment(s.ctx).value.spans;
            SpanIds(spans) == Postorder(s.parents) && ParentTable(spans) == s.parents && Lists(SpanIds(spans), |spans|)
  {
    var fin := s.ctx.stack.finalized;
    assert ClosingOrder(s.ctx.stack) == ClosedIds(fin);
    ListsLength(ClosedIds(fin), |s.parents|);
    TableOf(fin, s.parents);
  }

  lemma {:induction false} ListsLength(s: seq<int>, n: nat)
    requires Lists(s, n)
    ensures |s| == n
  {
    if n == 0 {
      assert forall k :: 0 <= k < |s| ==> s[k] in s;
    } else {
      assert n - 1 in s;
      var k :| 0 <= k < |s| && s[k] == n - 1;
      var t := s[..k] + s[k + 1..];
      forall x ensures x in t <==> 0 <= x < n - 1 {
        if x in t {
          var j :| 0 <= j < |t| && t[j] == x;
          assert x == s[if j < k then j else j + 1] && x in s;
        }
        if 0 <= x < n - 1 {
          assert x in s;
          var j :| 0 <= j < |s| && s[j] == x;
          assert t[if j < k then j else j - 1] == x;
        }
      }
      ListsLength(t, n - 1);
    }
  }

  /**
   A segment reported with no span open lists its spans in exactly the postorder of the forest that its
   own parent ids describe, siblings in increasing id, and contains each id 0..n-1 exactly once.
   */
  lemma ReportedInPostorder(c: Context, es: seq<Event>, s: System)
    requires Reaches(c, es, s) && s.ctx.stack.active == [] && Segment(s.ctx).Some?
    ensures var spans := Segment(s.ctx).value.spans;
            && Wf(ParentTable(spans))
            && SpanIds(spans) == Postorder(ParentTable(spans))
            && Lists(SpanIds(spans), s.ctx.nextSpanId)
  {
    ReachableInv(c, es, s);
    ReportedTable(s);
    ListsLength(ClosingOrder(s.ctx.stack), |s.parents|);
  }

  /** In a reported segment the spans below a span, and no others, stand right in front of it. */
  lemma ReportedSubtrees(c: Context, es: seq<Event>, s: System, r: nat) returns (i: nat, j: nat)
    requires Reaches(c, es, s) && s.ctx.stack.active == [] && Segment(s.ctx).Some?
    requires r < s.ctx.nextSpanId
    ensures var spans := Segment(s.ctx).value.spans;
            && Wf(ParentTable(spans))
            && i <= j < |spans| && spans[j].spanId == r
            && (forall k :: 0 <= k < |spans| ==>
                  (i <= k < j <==> Ancestor(ParentTable(spans), r, spans[k].spanId)))
  {
    ReportedInPostorder(c, es, s);
    var spans := Segment(s.ctx).value.spans;
    ListsLength(SpanIds(spans), s.ctx.nextSpanId);
    i, j := DescendantsInFront(ParentTable(spans), r);
    assert forall k :: 0 <= k < |spans| ==> SpanIds(spans)[k] == spans[k].spanId;
  }

  /** The event uses only handles that are held. */
  predicate Held(s: System, e: Event) {
    match e
    case EditSpan(u, _) => u in s.spans
    case DropSpan(u) => u in s.spans
    case Prepare(u) => u in s.spans
    case EditAsync(u, _) => u in s.asyncs
    case DropAsync(u) => u in s.asyncs
    case _ => true
  }

  /** The exact conditions under which an operation panics; dropping an asynchronous span never does. */
  lemma PanicsIff(c: Context, es: seq<Event>, s: System, e: Event)
    requires Reaches(c, es, s) && Held(s, e)
    ensures Step(s, e).None? <==>
            match e
            case CreateLocal(_) => s.parents == []
            case CreateExit(_, _) => s.parents == []
            case DropSpan(u) => !IsTop(s.ctx.stack.active, u)
            case Prepare(u) => !IsTop(s.ctx.stack.active, u)
            case _ => false
  {
    ReachableInv(c, es, s);
    ShapeDistinct(s.ctx, s.parents);
    if e.DropAsync? {
      FillMoves(s.ctx.stack, e.uid, s.asyncs[e.uid], |s.parents|);
    }
  }

  lemma FillEnabled(s: System, u: nat)
    requires Reachable(s) && u in s.asyncs
    ensures Step(s, DropAsync(u)).Some?
  {
    var c :| ReachableFrom(c, s);
    var es :| Reaches(c, es, s);
    PanicsIff(c, es, s, DropAsync(u));
  }
}
