/** The sw8 header: eight pieces joined by dashes. */
module Sw8 {
  import opened Wrappers
  import opened Text
  import opened Decimal
  import opened SpanStack
  import opened TraceContext
  import opened SegmentRuns
  import Base64

  datatype DecodeError = PieceCount | SpanId | SampleStatus | EncodedValue

  /** The pieces between dashes; there is always at least one. */
  function Split(s: string): (r: seq<string>)
    ensures |r| > 0
  {
    if s == "" then [""]
    else
      var rest := Split(s[1..]);
      if s[0] == '-' then [""] + rest else [[s[0]] + rest[0]] + rest[1..]
  }

  function Join(pieces: seq<string>): string
    requires |pieces| > 0
  {
    if |pieces| == 1 then pieces[0] else pieces[0] + "-" + Join(pieces[1..])
  }

  predicate NoDash(pieces: seq<string>) {
    forall k :: 0 <= k < |pieces| ==> '-' !in pieces[k]
  }

  lemma {:induction false} SplitPrefix(a: string, s: string)
    requires '-' !in a
    ensures Split(a + s) == [a + Split(s)[0]] + Split(s)[1..]
  {
    if a == "" {
      assert a + s == s && a + Split(s)[0] == Split(s)[0];
    } else {
      assert (a + s)[0] == a[0] && (a + s)[1..] == a[1..] + s;
      SplitPrefix(a[1..], s);
      assert [a[0]] + (a[1..] + Split(s)[0]) == a + Split(s)[0];
    }
  }

  lemma {:induction false} SplitJoin(pieces: seq<string>)
    requires |pieces| > 0 && NoDash(pieces)
    ensures Split(Join(pieces)) == pieces
    decreases |pieces|
  {
    var p := pieces[0];
    if |pieces| == 1 {
      SplitPrefix(p, "");
      assert p + "" == p;
    } else {
      var rest := Join(pieces[1..]);
      SplitJoin(pieces[1..]);
      assert ("-" + rest)[1..] == rest;
      SplitPrefix(p, "-" + rest);
      assert p + "-" + rest == p + ("-" + rest);
      assert p + "" == p;
      assert pieces == [p] + pieces[1..];
    }
  }

  lemma {:induction false} JoinSplit(s: string)
    ensures Join(Split(s)) == s && forall k :: 0 <= k < |Split(s)| ==> '-' !in Split(s)[k]
    decreases |s|
  {
    if s != "" {
      JoinSplit(s[1..]);
      var rest := Split(s[1..]);
      if s[0] == '-' {
        assert Split(s)[1..] == rest;
      } else {
        assert Split(s)[1..] == rest[1..];
        if |rest| > 1 {
          assert [s[0]] + rest[0] + "-" + Join(rest[1..]) == [s[0]] + (rest[0] + "-" + Join(rest[1..]));
        }
      }
    }
  }

  // ---- Encoding and decoding ----

  function EncodeText(t: Text): string {
    Base64.Encode(t.bytes)
  }

  /** What the library writes for a context, with 0 for the span id when no span is open. */
  function EncodePropagation(c: Context, endpoint: Text, address: Text): string {
    "1-" + EncodeText(c.traceId) + "-" + EncodeText(c.traceSegmentId) + "-" + PrintI32(ActiveSpanIdOr(c, 0)) + "-"
    + EncodeText(c.service) + "-" + EncodeText(c.serviceInstance) + "-" + EncodeText(endpoint) + "-"
    + EncodeText(address)
  }

  function ParseSampleStatus(s: string): Result<bool, DecodeError> {
    if s == "0" then Ok(false) else if s == "1" then Ok(true) else Err(SampleStatus)
  }

  function DecodeText(s: string): Result<Text, DecodeError> {
    match Base64.Decode(s)
    case None => Err(EncodedValue)
    case Some(b) => if ValidUtf8(b) then Ok(Text(b)) else Err(EncodedValue)
  }

  function ParseSpanId(s: string): Result<int, DecodeError> {
    match ParseI32(s) case Some(v) => Ok(v) case None => Err(SpanId)
  }

  function DecodePieces(pieces: seq<string>): Result<PropagationContext, DecodeError>
    requires |pieces| == 8
  {
    var doSample :- ParseSampleStatus(pieces[0]);
    var traceId :- DecodeText(pieces[1]);
    var traceSegmentId :- DecodeText(pieces[2]);
    var spanId :- ParseSpanId(pieces[3]);
    var service :- DecodeText(pieces[4]);
    var serviceInstance :- DecodeText(pieces[5]);
    var endpoint :- DecodeText(pieces[6]);
    var address :- DecodeText(pieces[7]);
    Ok(PropagationContext(doSample, traceId, traceSegmentId, spanId, service, serviceInstance, endpoint, address))
  }

  function DecodePropagation(header: string): Result<PropagationContext, DecodeError> {
    var pieces := Split(header);
    if |pieces| != 8 then Err(PieceCount) else DecodePieces(pieces)
  }

  // ---- What they do together ----

  /** The pieces that carry p, with the given text for its span id. */
  function PiecesOf(p: PropagationContext, spanId: string): (r: seq<string>)
    ensures |r| == 8
  {
    [if p.doSample then "1" else "0", EncodeText(p.parentTraceId), EncodeText(p.parentTraceSegmentId), spanId,
     EncodeText(p.parentService), EncodeText(p.parentServiceInstance), EncodeText(p.destinationEndpoint),
     EncodeText(p.destinationAddress)]
  }

  /** The header that carries p. */
  function Render(p: PropagationContext): string {
    Join(PiecesOf(p, PrintI32(p.parentSpanId)))
  }

  lemma DecodeEncodeText(t: Text)
    ensures DecodeText(EncodeText(t)) == Ok(t) && '-' !in EncodeText(t)
  {
    Base64.DecodeEncode(t.bytes);
    Base64.EncodeHasNoDash(t.bytes);
  }

  lemma TextPieces(p: PropagationContext, spanId: string)
    ensures DecodeText(PiecesOf(p, spanId)[1]) == Ok(p.parentTraceId)
    ensures DecodeText(PiecesOf(p, spanId)[2]) == Ok(p.parentTraceSegmentId)
    ensures DecodeText(PiecesOf(p, spanId)[4]) == Ok(p.parentService)
    ensures DecodeText(PiecesOf(p, spanId)[5]) == Ok(p.parentServiceInstance)
    ensures DecodeText(PiecesOf(p, spanId)[6]) == Ok(p.destinationEndpoint)
    ensures DecodeText(PiecesOf(p, spanId)[7]) == Ok(p.destinationAddress)
    ensures forall k :: 0 <= k < 8 && k != 3 ==> '-' !in PiecesOf(p, spanId)[k]
  {
    DecodeEncodeText(p.parentTraceId);
    DecodeEncodeText(p.parentTraceSegmentId);
    DecodeEncodeText(p.parentService);
    DecodeEncodeText(p.parentServiceInstance);
    DecodeEncodeText(p.destinationEndpoint);
    DecodeEncodeText(p.destinationAddress);
  }

  lemma DecodePiecesOf(p: PropagationContext, spanId: string)
    requires ParseI32(spanId) == Some(p.parentSpanId)
    ensures DecodePieces(PiecesOf(p, spanId)) == Ok(p)
  {
    TextPieces(p, spanId);
  }

  /** s encodes t, and nothing else does. */
  predicate Carries(s: string, t: Text) {
    s == EncodeText(t)
  }

  predicate CarryFields(pieces: seq<string>, p: PropagationContext)
    requires |pieces| == 8
  {
    && pieces[0] == (if p.doSample then "1" else "0")
    && Carries(pieces[1], p.parentTraceId) && Carries(pieces[2], p.parentTraceSegmentId)
    && Carries(pieces[4], p.parentService) && Carries(pieces[5], p.parentServiceInstance)
    && Carries(pieces[6], p.destinationEndpoint) && Carries(pieces[7], p.destinationAddress)
  }

  lemma CarriedPieces(pieces: seq<string>, p: PropagationContext)
    requires |pieces| == 8 && CarryFields(pieces, p)
    ensures pieces == PiecesOf(p, pieces[3])
  {
  }

  lemma DecodedCarries(s: string)
    requires DecodeText(s).Ok?
    ensures Carries(s, DecodeText(s).value)
  {
    Base64.EncodeDecode(s);
  }

  lemma DecodedFields(pieces: seq<string>)
    requires |pieces| == 8 && DecodePieces(pieces).Ok?
    ensures CarryFields(pieces, DecodePieces(pieces).value)
    ensures ParseI32(pieces[3]) == Some(DecodePieces(pieces).value.parentSpanId)
  {
    DecodedCarries(pieces[1]);
    DecodedCarries(pieces[2]);
    DecodedCarries(pieces[4]);
    DecodedCarries(pieces[5]);
    DecodedCarries(pieces[6]);
    DecodedCarries(pieces[7]);
  }

  lemma PiecesOfDecode(pieces: seq<string>)
    requires |pieces| == 8 && DecodePieces(pieces).Ok?
    ensures var p := DecodePieces(pieces).value;
            pieces == PiecesOf(p, pieces[3]) && ParseI32(pieces[3]) == Some(p.parentSpanId)
  {
    DecodedFields(pieces);
    CarriedPieces(pieces, DecodePieces(pieces).value);
  }

  /**
   The headers the decoder accepts, and what it makes of them: exactly the fields encoded in order,
   with any text for the span id that has no minus sign and parses to it.
   */
  lemma DecodeAccepts(header: string, p: PropagationContext)
    ensures DecodePropagation(header) == Ok(p) <==>
            exists t :: '-' !in t && ParseI32(t) == Some(p.parentSpanId) && header == Join(PiecesOf(p, t))
  {
    if DecodePropagation(header) == Ok(p) {
      JoinSplit(header);
      var pieces := Split(header);
      PiecesOfDecode(pieces);
      assert '-' !in pieces[3];
    }
    forall t | '-' !in t && ParseI32(t) == Some(p.parentSpanId) && header == Join(PiecesOf(p, t))
      ensures DecodePropagation(header) == Ok(p)
    {
      TextPieces(p, t);
      SplitJoin(PiecesOf(p, t));
      DecodePiecesOf(p, t);
    }
  }

  /** No accepted header carries a negative span id. */
  lemma DecodedSpanIdNotNegative(header: string)
    requires DecodePropagation(header).Ok?
    ensures 0 <= DecodePropagation(header).value.parentSpanId <= MAX_I32
  {
    JoinSplit(header);
    PrintParse(Split(header)[3]);
  }

  /** Rendering what was decoded gives the same header exactly when the span id was written canonically. */
  lemma RenderDecodedIff(header: string)
    requires DecodePropagation(header).Ok?
    ensures Render(DecodePropagation(header).value) == header <==> Canonical(Split(header)[3])
  {
    var pieces, p := Split(header), DecodePropagation(header).value;
    JoinSplit(header);
    PiecesOfDecode(pieces);
    PrintParse(pieces[3]);
    var printed := PrintI32(p.parentSpanId);
    PrintNoDash(p.parentSpanId);
    TextPieces(p, printed);
    SplitJoin(PiecesOf(p, printed));
    assert PiecesOf(p, printed)[3] == printed;
  }

  /** On headers with a canonical span id, decoding is injective. */
  lemma DecodeInjective(h1: string, h2: string)
    requires DecodePropagation(h1).Ok? && DecodePropagation(h1) == DecodePropagation(h2)
    requires Canonical(Split(h1)[3]) && Canonical(Split(h2)[3])
    ensures h1 == h2
  {
    RenderDecodedIff(h1);
    RenderDecodedIff(h2);
  }

  lemma PlusParses(n: nat)
    requires n <= MAX_I32
    ensures var t := "+" + PrintI32(n); ParseI32(t) == Some(n) && '-' !in t
  {
    ParsePrint(n);
    PrintNoDash(n);
    PrintNatDigits(n);
    assert ("+" + PrintI32(n))[1..] == PrintI32(n);
  }

  /** Different texts for the span id give different headers. */
  lemma HeadersDiffer(p: PropagationContext, t: string, t': string)
    requires t != t' && '-' !in t && '-' !in t'
    ensures Join(PiecesOf(p, t)) != Join(PiecesOf(p, t'))
  {
    TextPieces(p, t);
    TextPieces(p, t');
    SplitJoin(PiecesOf(p, t));
    SplitJoin(PiecesOf(p, t'));
    assert PiecesOf(p, t)[3] == t && PiecesOf(p, t')[3] == t';
  }

  /** Without that, it is not: a plus sign or a leading zero goes unnoticed. */
  lemma DecodeNotInjective(p: PropagationContext)
    requires 0 <= p.parentSpanId <= MAX_I32
    ensures var plus := Join(PiecesOf(p, "+" + PrintI32(p.parentSpanId)));
            plus != Render(p) && DecodePropagation(plus) == DecodePropagation(Render(p)) == Ok(p)
  {
    var printed := PrintI32(p.parentSpanId);
    PlusParses(p.parentSpanId);
    ParsePrint(p.parentSpanId);
    PrintNoDash(p.parentSpanId);
    DecodeAccepts(Join(PiecesOf(p, "+" + printed)), p);
    DecodeAccepts(Render(p), p);
    assert |"+" + printed| == |printed| + 1;
    HeadersDiffer(p, "+" + printed, printed);
  }

  /** A rendered context is read back exactly when its span id is not negative. */
  lemma RenderReadBackIff(p: PropagationContext)
    requires MIN_I32 <= p.parentSpanId <= MAX_I32
    ensures DecodePropagation(Render(p)) == Ok(p) <==> p.parentSpanId >= 0
  {
    if p.parentSpanId >= 0 {
      ParsePrint(p.parentSpanId);
      PrintNoDash(p.parentSpanId);
      DecodeAccepts(Render(p), p);
    } else if DecodePropagation(Render(p)) == Ok(p) {
      DecodedSpanIdNotNegative(Render(p));
    }
  }

  /** The propagation context that a decoder should find for a context. */
  function Propagated(c: Context, endpoint: Text, address: Text): PropagationContext {
    PropagationContext(true, c.traceId, c.traceSegmentId, ActiveSpanIdOr(c, 0), c.service, c.serviceInstance,
                       endpoint, address)
  }

  lemma {:induction false} JoinSnoc(pieces: seq<string>, last: string)
    requires |pieces| > 0
    ensures Join(pieces + [last]) == Join(pieces) + "-" + last
    decreases |pieces|
  {
    var p := pieces[0];
    if |pieces| == 1 {
      assert (pieces + [last])[1..] == [last];
    } else {
      JoinSnoc(pieces[1..], last);
      assert (pieces + [last])[1..] == pieces[1..] + [last];
      var rest := Join(pieces[1..]);
      assert p + "-" + (rest + "-" + last) == (p + "-" + rest) + "-" + last;
    }
  }

  lemma EncodeIsRender(c: Context, endpoint: Text, address: Text)
    ensures EncodePropagation(c, endpoint, address) == Render(Propagated(c, endpoint, address))
  {
    var ps := PiecesOf(Propagated(c, endpoint, address), PrintI32(ActiveSpanIdOr(c, 0)));
    assert ps[..1] == ["1"] && "1" + "-" == "1-";
    JoinSnoc(ps[..1], ps[1]);
    JoinSnoc(ps[..2], ps[2]);
    JoinSnoc(ps[..3], ps[3]);
    JoinSnoc(ps[..4], ps[4]);
    JoinSnoc(ps[..5], ps[5]);
    JoinSnoc(ps[..6], ps[6]);
    JoinSnoc(ps[..7], ps[7]);
    assert forall k :: 0 < k < 8 ==> ps[..k] + [ps[k]] == ps[..k + 1];
    assert ps[..8] == ps;
  }

  /**
   For every reachable context, and all strings, decoding the encoded header succeeds and returns every
   field, with the id of the innermost open span, or 0 when there is none.
   */
  lemma EncodedIsDecoded(s: System, endpoint: Text, address: Text)
    requires Reachable(s) && s.ctx.nextSpanId <= MAX_I32
    ensures DecodePropagation(EncodePropagation(s.ctx, endpoint, address)) == Ok(Propagated(s.ctx, endpoint, address))
  {
    EncodeIsRender(s.ctx, endpoint, address);
    ActiveIdBounds(s);
    RenderReadBackIff(Propagated(s.ctx, endpoint, address));
  }

  /** Between its dashes, the header of a reachable context holds exactly these eight pieces. */
  lemma EncodedPieces(s: System, endpoint: Text, address: Text)
    requires Reachable(s)
    ensures var c := s.ctx;
            var id := if c.stack.active == [] then 0 else c.stack.active[|c.stack.active| - 1].spanId;
            && Split(EncodePropagation(c, endpoint, address)) ==
               ["1", Base64.Encode(c.traceId.bytes), Base64.Encode(c.traceSegmentId.bytes), PrintI32(id),
                Base64.Encode(c.service.bytes), Base64.Encode(c.serviceInstance.bytes),
                Base64.Encode(endpoint.bytes), Base64.Encode(address.bytes)]
            && id >= 0 && Denotes(PrintI32(id), id)
  {
    var p := Propagated(s.ctx, endpoint, address);
    ActiveIdBounds(s);
    EncodeIsRender(s.ctx, endpoint, address);
    PrintNoDash(p.parentSpanId);
    TextPieces(p, PrintI32(p.parentSpanId));
    SplitJoin(PiecesOf(p, PrintI32(p.parentSpanId)));
    ParsePrintNat(p.parentSpanId);
    ParseDenotes(PrintI32(p.parentSpanId), p.parentSpanId);
  }

  lemma ActiveIdBounds(s: System)
    requires Reachable(s)
    ensures s.ctx.stack.active != [] ==> 0 <= ActiveSpanIdOr(s.ctx, 0) < s.ctx.nextSpanId
  {
    ReachableHasInv(s);
    ShapeDistinct(s.ctx, s.parents);
  }
}
