/**
 Spans of a trace segment and the stack that holds them: the open spans, innermost last, and the
 closed ones in the order of closing. A span closed by prepare_for_async leaves an entry without an
 object, which is filled when the asynchronous span is dropped.

 Start and end times are not modelled.
 */
module SpanStack {
  import opened Wrappers
  import opened Text

  datatype SpanType = Entry | Exit | Local
  datatype SpanLayer = Unknown | Http
  datatype RefType = CrossProcess | CrossThread

  datatype SegmentReference = SegmentReference(
    refType: RefType,
    traceId: Text,
    parentTraceSegmentId: Text,
    parentSpanId: int,
    parentService: Text,
    parentServiceInstance: Text,
    parentEndpoint: Text,
    networkAddressUsedAtPeer: Text)

  datatype SpanObject = SpanObject(
    spanId: int,
    parentSpanId: int,
    operationName: Text,
    peer: Text,
    spanType: SpanType,
    spanLayer: SpanLayer,
    componentId: int,
    skipAnalysis: bool,
    refs: seq<SegmentReference>,
    tags: seq<(Text, Text)>,
    logs: seq<seq<(Text, Text)>>)

  datatype ActiveSpan = ActiveSpan(uid: nat, spanId: int, ref: Option<SegmentReference>)

  datatype FinalizeSpan = FinalizeSpan(uid: nat, obj: Option<SpanObject>, ref: Option<SegmentReference>)

  datatype Stack = Stack(active: seq<ActiveSpan>, finalized: seq<FinalizeSpan>)

  /** The object as it is reported: the reference kept beside the span joins its references. */
  function Finish(obj: SpanObject, ref: Option<SegmentReference>): SpanObject {
    match ref
    case None => obj
    case Some(r) => obj.(refs := obj.refs + [r])
  }

  /** o is f with one more reference, if there is one, behind those it has. */
  ghost predicate Completes(f: SpanObject, ref: Option<SegmentReference>, o: SpanObject) {
    && o.refs == f.refs + (match ref case None => [] case Some(r) => [r])
    && o == f.(refs := o.refs)
  }

  lemma Finished(o: SpanObject, ref: Option<SegmentReference>)
    ensures Completes(o, ref, Finish(o, ref))
  {
    assert ref.None? ==> o.refs + [] == o.refs;
  }

  predicate IsTop(active: seq<ActiveSpan>, uid: nat) {
    active != [] && active[|active| - 1].uid == uid
  }

  /** The entry that closing the innermost span appends. */
  function ClosedEntry(a: ActiveSpan, uid: nat, obj: Option<SpanObject>): FinalizeSpan {
    match obj
    case Some(o) => FinalizeSpan(uid, Some(Finish(o, a.ref)), None)
    case None => FinalizeSpan(uid, None, a.ref)
  }

  /** Closing span uid; None when it is not the innermost open span, where the library panics. */
  function Close(st: Stack, uid: nat, obj: Option<SpanObject>): Option<Stack> {
    if IsTop(st.active, uid) then
      var k := |st.active| - 1;
      Some(Stack(st.active[..k], st.finalized + [ClosedEntry(st.active[k], uid, obj)]))
    else None
  }

  /** The position of the first entry of uid, or the length of the list. */
  function FirstEntry(fin: seq<FinalizeSpan>, uid: nat): (k: nat)
    ensures k <= |fin| && (k < |fin| ==> fin[k].uid == uid)
    ensures forall j :: 0 <= j < k ==> fin[j].uid != uid
  {
    if fin == [] || fin[0].uid == uid then 0 else 1 + FirstEntry(fin[1..], uid)
  }

  /** Filling the entry of an asynchronous span; None when there is none, the unreachable branch. */
  function Fill(fin: seq<FinalizeSpan>, uid: nat, obj: SpanObject): Option<seq<FinalizeSpan>> {
    var k := FirstEntry(fin, uid);
    if k < |fin| then Some(fin[k := FinalizeSpan(uid, Some(Finish(obj, fin[k].ref)), None)]) else None
  }

  lemma {:induction false} FirstEntryAppend(fin: seq<FinalizeSpan>, f: FinalizeSpan, u: nat)
    ensures FirstEntry(fin + [f], u) ==
            if FirstEntry(fin, u) < |fin| then FirstEntry(fin, u)
            else if f.uid == u then |fin| else |fin| + 1
  {
    if fin == [] {
      assert fin + [f] == [f];
    } else {
      FirstEntryAppend(fin[1..], f, u);
      assert (fin + [f])[1..] == fin[1..] + [f];
    }
  }

  lemma {:induction false} FirstEntryUpdate(fin: seq<FinalizeSpan>, k: nat, f: FinalizeSpan, u: nat)
    requires k < |fin| && f.uid == fin[k].uid
    ensures FirstEntry(fin[k := f], u) == FirstEntry(fin, u)
  {
    var a, b := FirstEntry(fin, u), FirstEntry(fin[k := f], u);
    assert a < |fin| ==> fin[k := f][a].uid == u;
    assert b < |fin| ==> fin[b].uid == u;
  }

  /** The entry of uid, if there is one. */
  function EntryOf(fin: seq<FinalizeSpan>, uid: nat): Option<FinalizeSpan> {
    var k := FirstEntry(fin, uid);
    if k < |fin| then Some(fin[k]) else None
  }

  lemma EntryAppend(fin: seq<FinalizeSpan>, f: FinalizeSpan, u: nat)
    ensures EntryOf(fin + [f], u) ==
            if EntryOf(fin, u).Some? then EntryOf(fin, u) else if f.uid == u then Some(f) else None
  {
    FirstEntryAppend(fin, f, u);
  }

  lemma EntryFill(fin: seq<FinalizeSpan>, uid: nat, obj: SpanObject, u: nat)
    requires EntryOf(fin, uid).Some?
    ensures Fill(fin, uid, obj).Some?
    ensures EntryOf(Fill(fin, uid, obj).value, u) ==
            if u == uid then Some(FinalizeSpan(uid, Some(Finish(obj, EntryOf(fin, uid).value.ref)), None))
            else EntryOf(fin, u)
  {
    var k := FirstEntry(fin, uid);
    FirstEntryUpdate(fin, k, FinalizeSpan(uid, Some(Finish(obj, fin[k].ref)), None), u);
  }

  /** f is the entry of a span closed with obj, or with none yet, while ref was set on it. */
  ghost predicate ClosesWith(f: FinalizeSpan, uid: nat, obj: Option<SpanObject>, ref: Option<SegmentReference>) {
    && f.uid == uid && (f.obj.Some? <==> obj.Some?)
    && (if obj.Some? then Completes(obj.value, ref, f.obj.value) && f.ref.None? else f.ref == ref)
  }

  /** The stack shared by a tracing context and its spans. */
  class SpanStack {
    var finalized: seq<FinalizeSpan>
    var active: seq<ActiveSpan>

    constructor ()
      ensures View() == Stack([], [])
    {
      finalized, active := [], [];
    }

    function View(): Stack
      reads this
    {
      Stack(active, finalized)
    }

    method PopActive(uid: nat) returns (r: Option<ActiveSpan>)
      modifies this`active
      ensures r.Some? <==> IsTop(old(active), uid)
      ensures r.Some? ==> old(active) == active + [r.value] && r.value.uid == uid
      ensures r.None? ==> active == old(active)
    {
      if active != [] && active[|active| - 1].uid == uid {
        r := Some(active[|active| - 1]);
        active := active[..|active| - 1];
      } else {
        r := None;
      }
    }

    /** Returns false where the library panics, with the stack unchanged. */
    method CloseSpan(uid: nat, obj: Option<SpanObject>) returns (ok: bool)
      modifies this
      ensures ok <==> IsTop(old(active), uid)
      ensures ok <==> Close(old(View()), uid, obj).Some?
      ensures ok ==>
                && |old(active)| == |active| + 1 && active == old(active)[..|active|]
                && |finalized| == |old(finalized)| + 1 && finalized[..|old(finalized)|] == old(finalized)
                && ClosesWith(finalized[|old(finalized)|], uid, obj, old(active)[|active|].ref)
      ensures View() == if ok then Close(old(View()), uid, obj).value else old(View())
    {
      var popped := PopActive(uid);
      if popped.None? {
        return false;
      }
      var entry;
      match obj {
        case Some(o) =>
          var o' := o;
          if popped.value.ref.Some? {
            o' := o'.(refs := o'.refs + [popped.value.ref.value]);
          }
          entry := FinalizeSpan(uid, Some(o'), None);
        case None =>
          entry := FinalizeSpan(uid, None, popped.value.ref);
      }
      finalized := finalized + [entry];
      assert old(active)[..|old(active)| - 1] == active;
      return true;
    }

    /** Returns false where the library reaches the unreachable branch. */
    method FillAsyncSpan(uid: nat, obj: SpanObject) returns (ok: bool)
      modifies this`finalized
      ensures ok <==> Fill(old(finalized), uid, obj).Some?
      ensures ok ==>
                exists k :: 0 <= k < |old(finalized)| == |finalized| && old(finalized)[k].uid == uid
                            && ClosesWith(finalized[k], uid, Some(obj), old(finalized)[k].ref)
                            && (forall j :: 0 <= j < k ==> old(finalized)[j].uid != uid)
                            && (forall j :: 0 <= j < |finalized| && j != k ==> finalized[j] == old(finalized)[j])
      ensures finalized == if ok then Fill(old(finalized), uid, obj).value else old(finalized)
    {
      var i := 0;
      while i < |finalized|
        invariant i <= |finalized| && finalized == old(finalized)
        invariant forall j :: 0 <= j < i ==> finalized[j].uid != uid
      {
        if finalized[i].uid == uid {
          var o := obj;
          if finalized[i].ref.Some? {
            o := o.(refs := o.refs + [finalized[i].ref.value]);
          }
          finalized := finalized[i := FinalizeSpan(uid, Some(o), None)];
          return true;
        }
        i := i + 1;
      }
      return false;
    }
  }
}
