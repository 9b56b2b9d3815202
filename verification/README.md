# SkyWalking Rust agent: spans, propagation, reporting and meters

This project models the core of the SkyWalking Rust agent in Dafny and proves how it behaves in every run.

**Trace segments.** A tracing context opens spans on a stack and lists them as they close. A span is closed by
dropping it, or by `prepare_for_async`, which leaves an empty entry that is filled when the asynchronous span is
dropped. `SpanStack.dfy` and `TraceContext.dfy` define the operations on values; `Tracing.dfy` has the objects
(`TracingContext`, `Span`, `AsyncSpan`, `Tracer`), whose methods state the new shared state with these functions.
`SegmentRuns.dfy` defines runs: sequences of operations on a context together with the handles its user holds. The
key fact is that the closed spans followed by the open ones, innermost first, are always the postorder of the span
forest (`Forest.dfy`); closing a span does not change that order at all. `SegmentReport.dfy`,
`AsyncRefinesSync.dfy`, `SpanLife.dfy` and `SpanContent.dfy` draw the consequences for what is reported.

`Session.dfy` holds a context together with its spans and shows that every method call on them is a step of such a
run, so that what holds of runs holds of the objects.

**Threads.** `WaitGroup.dfy` is the counter with its condition variable. `AsyncProtocol.dfy` takes the closing of
spans apart into lock-guarded actions, and interleaves any number of threads that close spans with threads that drop
asynchronous spans, with the owner of the context, and with `wait`. Every action is shown to be a whole operation of
`SegmentRuns`, which takes effect when the span is popped, or to leave that state as it is. `AsyncSafety.dfy` and
`AsyncProgress.dfy` say when waiting for a context, and dropping it, is safe; `AsyncReport.dfy` says what is reported.

**Propagation.** `Base64.dfy`, `Decimal.dfy` and `Sw8.dfy` are the `sw8` header with Base64 written out (sections 3.2,
3.5 and 4 of RFC 4648); strings are UTF-8 byte sequences (section 4 of RFC 3629, `Text.dfy`). `Linking.dfy` follows
a trace along any chain of contexts.

**Reporting.** `Reporter.dfy` has the queue, the three channels of 255 slots and the receive loops as objects;
`Pipeline.dfy` interleaves producers, the work loop with shutdown and flush, and the receive loops in any way.

**Meters.** `Histogram.dfy` and `Counter.dfy`.

Some promises hold only under conditions, which are stated exactly:

- Calling `wait` is safe exactly when no span is open, or the outermost open one is already counted in the wait
  group; dropping the context is safe exactly when no asynchronous span is left or still to come
  (`AsyncProgress.WaitIsSafeIff`, `AsyncProgress.DropIsSafeIff`).
- When several threads close spans, the reported spans are in postorder exactly when entries are pushed in the order
  in which the spans were popped, given that no span is held any more (`AsyncReport.ConcurrentReport`).
- Decoding a header and rendering it again gives the same header exactly when its span id was written without plus
  sign and leading zeros (`Sw8.RenderDecodedIff`).
- An item that was accepted is left behind at shutdown exactly when it was produced after the last poll of the flush
  (`Pipeline.ShutdownRace`).
- Without negative increments, no `RATE` report is negative exactly when the swaps are in the order in which the
  count grew (`Counter.NonNegativeIff`).

## Model

| member | source | states |
|---|---|---|
| SpanStack.FirstEntry | src/trace/trace_context.rs:147-160 | the entry that an asynchronous span fills is the first one with its uid, and every entry before it belongs to another span |
| SpanStack.SpanStack.PopActive | src/trace/trace_context.rs:113-124 | pops the innermost open span exactly when it has the given uid, and otherwise changes nothing |
| SpanStack.SpanStack.CloseSpan | src/trace/trace_context.rs:127-144 | closing the innermost span appends its object with the kept reference behind those it has, or an empty entry that keeps the reference; it panics exactly when the span is not the innermost one |
| SpanStack.SpanStack.FillAsyncSpan | src/trace/trace_context.rs:147-160 | the search fills the first entry with the uid with the object and the kept reference behind those it has, or finds none |
| Tracing.Span.PrepareForAsync | src/trace/span.rs:178-200 | adds one to the wait group, leaves an empty entry and moves the object to the asynchronous span; panics exactly when the span is not the innermost one |
| Tracing.Span.Drop | src/trace/span.rs:194-200 | closes the span in the shared stack with whatever object it still holds |
| Tracing.AsyncSpan.Drop | src/trace/span.rs:240-250 | fills the entry first and lowers the wait group afterwards; fails before either when the stack is gone |
| Tracing.TracingContext.CreateEntrySpan | src/trace/trace_context.rs:286-299 | opens an Http entry span without peer, with the next id below the innermost open span or as a root, and keeps the context in the postorder shape |
| Tracing.TracingContext.CreateEntrySpanWithPropagation | src/trace/trace_context.rs:308-326 | additionally adopts the trace id and gives the span the cross-process reference |
| Tracing.TracingContext.CreateCommonSpan | src/trace/trace_context.rs:337-385 | local and exit spans are opened with their peer and type and without layer, and refused exactly when no span was ever created |
| Tracing.TracingContext.ContinueFrom | src/trace/trace_context.rs:398-419 | a valid snapshot sets the trace id and the reference of the innermost open span, replacing an earlier one; with the tracer gone only the trace id is set |
| Tracing.TracingContext.ConvertToSegmentObject | src/trace/trace_context.rs:431-451 | takes all closed spans and returns them in order under the ids and service of the context, or fails exactly when an entry is empty |
| Tracing.Tracer.FinalizeContext | src/trace/tracer.rs:93-98 | a dropped context is reported once, with the segment it had |
| Session.Session.DropSpan | src/trace/span.rs:194-200 | on the objects of a reachable context: dropping a span is the step of the run, and panics exactly when that does |
| Session.Session.PrepareForAsync | src/trace/span.rs:178-191 | the same for preparing a span |
| Session.Session.DropAsync | src/trace/span.rs:240-250 | dropping an asynchronous span is the step of the run and never fails while the context lives |
| Session.Session.Continue | src/trace/trace_context.rs:398-419 | continuing from a snapshot is the step of the run |
| Session.Session.CreateEntryFrom | src/trace/trace_context.rs:308-326 | opening an entry span on a decoded header is the step of the run |
| Session.Session.CreateCommon | src/trace/trace_context.rs:337-385 | opening a local or exit span is the step of the run, and panics exactly when that does |
| TraceContext.OpenKeepsShape | src/trace/trace_context.rs:286-299 | opening a span keeps ids in preorder and the closing order equal to the postorder of the forest |
| TraceContext.CloseKeepsShape | src/trace/trace_context.rs:127-144 | so does closing the innermost span, by either path |
| SegmentRuns.ReachableInv | src/trace/trace_context.rs:113-160 | every run keeps the shape of the context, the match between handles and stack, and the ids and parents in all objects |
| SegmentReport.AncestorIffOlderAndLater | src/trace/trace_context.rs:113-144 | in every reachable state, a closed span is a proper ancestor of another exactly when its id is smaller and it was closed later |
| SegmentReport.EverySpanOnce | src/trace/trace_context.rs:242-251 | uid and span id advance together, open and closed uids partition the issued ones, and each object is held in one place with its recorded parent |
| SegmentReport.ReportableIff | src/trace/trace_context.rs:431-451 | a context can be reported exactly when no asynchronous span is left, that is when the wait-group count is zero |
| SegmentReport.ReportedInPostorder | src/trace/trace_context.rs:431-451 | a segment reported with no span open lists its spans in the postorder of the forest rebuilt from its own parent ids, each id once |
| SegmentReport.ReportedSubtrees | src/trace/trace_context.rs:127-144 | in it, the descendants of a span are exactly the block right in front of the span |
| SegmentReport.PanicsIff | src/trace/trace_context.rs:128-130 | which operations panic in a reachable state, and exactly when; dropping an asynchronous span never does |
| AsyncRefinesSync.AsyncClosingRefinesPlain | src/trace/span.rs:178-200 | a run that closes spans asynchronously and drops them in any order ends in the same state, and reports the same segment, as the run that closes them plainly where they were prepared |
| SpanLife.PlainRunMakesSameEdits | src/trace/span.rs:252-262 | and that run makes the same edits to each span in the same order |
| SpanLife.StepLife | src/trace/span.rs:178-250 | each span lives through open, asynchronous and closed on its own, whatever happens to the others |
| SpanContent.ReportedObject | src/trace/trace_context.rs:127-160 | what is reported for a span, field by field: id, parent, name, peer, type, layer and component by its creation, the tags and logs added to it in order, and as references the header it was opened with and then the last valid snapshot continued from while it was innermost, on either closing path |
| SpanContent.ReportedHeader | src/trace/trace_context.rs:431-451 | a segment carries the trace id adopted last, or the context's own, and the context's segment id, service and instance |
| SpanLife.CapturedEndpoint | src/trace/trace_context.rs:388-395 | a snapshot names the endpoint of the span created last |
| SpanLife.EndpointOfInnermost | src/trace/trace_context.rs:388-395 | which is the innermost open span's as long as that one was created last |
| SpanLife.EndpointOfClosed | src/trace/trace_context.rs:457-465 | and need not be otherwise: a snapshot can give the id of one span and the endpoint of another, closed one, for any two names |
| WaitGroupModel.WaitersAreServed | src/common/wait_group.rs:45-58 | no wake-up is lost: while the count is zero nobody is parked and each waiter returns with its next critical section, and nobody returns while the count is positive |
| WaitGroupModel.WaiterPath | src/common/wait_group.rs:41-58 | what each critical section needs, and that a waiter parks only on a positive count, is woken only by the done that reaches zero or spuriously, and returns only at zero |
| WaitGroupModel.WaitGroup.Finish | src/common/wait_group.rs:45-51 | lowers the count and notifies exactly when it reaches zero |
| WaitGroupModel.WaitGroup.Wait | src/common/wait_group.rs:53-58 | the loop returns at the first zero it reads and waits once for each positive count before |
| AsyncReport.EveryActIsWhole | src/trace/span.rs:178-250 | in every run with any number of closing threads: the shared state is that of whole operations except for the entries still to be pushed and their order, and each lock-guarded action is one whole operation, which for closing takes effect at the pop, or none |
| AsyncSafety.OrderlyNeverRaces | src/trace/span.rs:240-250 | in every interleaving that waits and drops the context only when that is safe: the count is at least the number of empty entries, the stack is alive and the entry present at each asynchronous drop, nothing underflows, after `wait` every entry is filled and no span is open, and what panics is exactly closing a span that is not innermost and opening a local or exit span before any entry span |
| AsyncReport.EveryPanic | src/trace/span.rs:240-250 | in every interleaving, orderly or not, exactly what panics and with which message: dropping an asynchronous span with neither context nor Span left, reporting with one left, closing a span that is not innermost, opening a local or exit span first; the unreachable branch and the underflow are never reached |
| AsyncReport.EveryChance | src/trace/span.rs:178-250 | in every interleaving an action can be tried exactly when what it needs is held; nothing else blocks it |
| AsyncProgress.WaitCanFinish | src/trace/trace_context.rs:422-424 | from every such state in which `wait` was called it can still return, and the segment be reported with every span closed |
| AsyncProgress.WaitIsSafeIff | src/trace/trace_context.rs:422-440 | some continuation of calling `wait` runs into one of the excluded panics exactly when a span is open and the outermost one is not yet counted |
| AsyncProgress.DropIsSafeIff | src/trace/span.rs:240-250 | the same of dropping the context, exactly when an asynchronous span is left, or a span is held that can still become one |
| AsyncReport.ReportedInPushOrder | src/trace/trace_context.rs:431-451 | under any interleaving the segment lists its spans in the order of the pushes, each once, lacks exactly the spans still held, and carries the context's identity and the trace id adopted last |
| AsyncReport.ConcurrentReport | src/trace/trace_context.rs:431-451 | with no Span held, it has exactly the spans that a purely plain run reports; it is the same segment, and in postorder, exactly when pushes follow the order of the pops, as with one closing thread |
| AsyncReport.TwoClosersReorder | src/trace/trace_context.rs:127-144 | two threads that drop the two innermost spans can push them in the other order |
| Base64.DecodeEncode | src/trace/propagation/encoder.rs:28-34 | decoding returns the encoded bytes, for all byte sequences |
| Base64.EncodeDecode | src/trace/propagation/decoder.rs:77-85 | only encodings are accepted, with canonical padding and no stray bits |
| Base64.DigitInAlphabet | src/trace/propagation/encoder.rs:28-34 | the digits are those of the alphabet of RFC 4648, in order |
| Base64.EncodeFull | src/trace/propagation/encoder.rs:28-34 | three bytes, as a 24-bit number, become the four digits of that number in base 64 |
| Base64.EncodeTail | src/trace/propagation/encoder.rs:28-34 | a last byte or two are filled up with zero bits and equals signs |
| Base64.EncodeHasNoDash | src/trace/propagation/encoder.rs:25-36 | an encoding never contains the separator |
| Decimal.ParsePrint | src/trace/propagation/decoder.rs:55-63 | a printed integer is read back exactly when it has 32 bits |
| Decimal.ParseI32Iff | src/trace/propagation/decoder.rs:55-63 | what is parsed is exactly an optional sign and decimal digits that denote a number of 32 bits, with that number |
| Decimal.PrintParse | src/trace/propagation/decoder.rs:55-63 | a text without minus sign parses to a non-negative number, which prints as the same text exactly when that is canonical |
| Sw8.SplitJoin | src/trace/propagation/decoder.rs:24-30 | pieces without dashes come back from splitting their join |
| Sw8.JoinSplit | src/trace/propagation/decoder.rs:24-30 | joining the pieces of a header gives the header, and no piece contains a dash |
| Sw8.DecodeAccepts | src/trace/propagation/decoder.rs:23-85 | the accepted headers are exactly the joins of the encoded fields with some text, free of minus signs, that parses to the span id |
| Sw8.DecodedSpanIdNotNegative | src/trace/propagation/decoder.rs:55-63 | no accepted header carries a negative span id |
| Sw8.RenderDecodedIff | src/trace/propagation/decoder.rs:23-53 | rendering the decoded fields gives the same header exactly when the span id was canonical |
| Sw8.DecodeInjective | src/trace/propagation/decoder.rs:23-53 | decoding is injective on headers with a canonical span id |
| Sw8.DecodeNotInjective | src/trace/propagation/decoder.rs:55-63 | it is not injective without that: a plus sign gives a second header for every context |
| Sw8.RenderReadBackIff | src/trace/propagation/encoder.rs:25-36 | a rendered propagation context is read back exactly when its span id is not negative |
| Sw8.EncodeIsRender | src/trace/propagation/encoder.rs:25-36 | the encoder's format string writes the eight pieces in the order the decoder reads them |
| Sw8.EncodedPieces | src/trace/propagation/encoder.rs:25-36 | between its dashes the header of a reachable context holds the flag, the encoded ids, the numeral of the innermost span id or 0, and the encoded service, instance, endpoint and address, in this order |
| Text.ValidIffEncodes | src/trace/propagation/decoder.rs:77-85 | the texts are exactly the UTF-8 encodings of sequences of scalar values |
| Sw8.EncodedIsDecoded | src/trace/propagation/encoder.rs:25-36 | for every reachable context and all strings, decoding the encoded header returns every field, with the innermost open span or 0 |
| Linking.SnapshotValidIff | src/trace/trace_context.rs:499-501 | a captured snapshot is valid exactly when a span is open and neither id is empty; with none open, capture says -1 where the header says 0 |
| Linking.ChainShares | src/trace/trace_context.rs:308-326 | along any chain of contexts all segments carry the first trace id and their own segment id, and each link names the segment before it, the span innermost when it propagated, and service, endpoint and address as its kind of carrier has them |
| Linking.ReportedReferences | src/trace/trace_context.rs:398-419 | in a linked segment the linked span reports exactly that one reference and no other span reports any |
| Reporter.Channel.TrySend | src/reporter/grpc.rs:280-291 | a send fails exactly when the channel is full or its receiver is gone |
| Reporter.InnerReportSender.Report | src/reporter/grpc.rs:277-311 | each item goes to the channel of its kind, to the error handler when that does not accept it, or to the management client |
| Reporter.ItemReceiver.Consume | src/reporter/mod.rs:169-171 | takes the oldest item, waits while a sender is left, and reports the end otherwise |
| Reporter.ItemReceiver.TryConsume | src/reporter/mod.rs:173-183 | takes the oldest item, or distinguishes an empty queue from a disconnected one |
| Reporter.Flush | src/reporter/grpc.rs:351-359 | routes, in order, the whole queue and everything produced before its last poll, and fails exactly when no sender is left |
| Reporter.ReceiveFrom.Poll | src/reporter/grpc.rs:537-544 | delivers the oldest item, waits while the sender is left, and otherwise ends the stream and sets the flag |
| Reporter.ReceiveFrom.Start | src/reporter/grpc.rs:449-459 | windows given up at any point deliver what the sender gets through meanwhile, in order, without loss or repetition, and the loop ends only with the sender gone and the channel empty |
| Pipeline.Conservation | src/reporter/grpc.rs:277-362 | when all tasks have ended, the windows of each kind hold exactly the items let through, in queue order, and the error handler got exactly the others |
| Pipeline.NothingLostInFlight | src/reporter/grpc.rs:510-545 | at any time, windows and channel together are what was let through, and taken and queued items are what was produced |
| Pipeline.DroppedOnlyWhenFull | src/reporter/grpc.rs:280-291 | a receive loop ends only with its sender gone and its channel empty, so an item is dropped exactly when its channel holds 255 |
| Pipeline.ShutdownRace | src/reporter/grpc.rs:254-362 | after shutdown an item was taken exactly when it was produced before the last poll; any other had its check before the flag was stored and its produce after that poll |
| Pipeline.FlushFailsIff | src/reporter/mod.rs:173-183 | the flush fails exactly when every producer is gone by its last poll |
| Pipeline.DisconnectedLosesNothing | src/reporter/mod.rs:173-183 | then everything produced was taken |
| Pipeline.FlushCanFail | src/reporter/grpc.rs:351-359 | a run that ends so, for every item |
| Pipeline.CanDisconnect | src/reporter/grpc.rs:332-362 | from every state in which the work loop consumes, it can come to that end without shutdown |
| Pipeline.WorkLoopLeaves | src/reporter/grpc.rs:332-347 | the work loop goes over to the flush only on shutdown, or with every producer gone and everything taken |
| Pipeline.EveryChance | src/reporter/grpc.rs:254-362 | what each action of producers, work loop and receive loops needs, and that nothing else keeps it from happening |
| Pipeline.CallEnds | src/reporter/grpc.rs:254-262 | a report call still runs, or ended in one way: in silence exactly when its check came after the flag, in the queue once, or with the error handler once exactly when its produce came after the consumer was dropped |
| Pipeline.EntriesAreCalls | src/reporter/grpc.rs:254-262 | nothing else is queued or handed to the error handler |
| Pipeline.LateCheckIsRefused | src/reporter/grpc.rs:254-262 | a run in which the check comes too late |
| Pipeline.LateProduceFails | src/reporter/grpc.rs:254-262 | a run in which the produce comes too late |
| Pipeline.WindowCanEnd | src/reporter/grpc.rs:449-459 | a window can be given up after any item, and the next one goes on with the next item |
| Pipeline.LateItemIsLeftBehind | src/reporter/grpc.rs:254-262 | the race is real: for every item there is a run that leaves it behind |
| Pipeline.CanFinish | src/reporter/grpc.rs:332-362 | from every reachable state the pipeline can be shut down and drained |
| Histogram.BucketFor | src/metrics/meter.rs:316-330 | a value belongs to the last bucket whose bound is not above it |
| Histogram.BoundsStrict | src/metrics/meter.rs:282-286 | sorting and removing repetitions gives strictly increasing bounds, the same set as the steps |
| Histogram.Meter.FindBucket | src/metrics/meter.rs:316-330 | the binary search finds that bucket |
| Histogram.Meter.AddValue | src/metrics/meter.rs:310-314 | adding a value counts it in that bucket, if there is one |
| Histogram.BucketsCount | src/metrics/meter.rs:310-330 | for any steps and values, each bucket's count is the number of values from its bound on and below the next |
| Histogram.TotalCounts | src/metrics/meter.rs:354-362 | the counts add up to the number of values not below the smallest bound |
| Histogram.OrderIrrelevant | src/metrics/meter.rs:275-288 | steps with the same set of bounds build the same histogram, and the order of the values does not matter |
| Counter.ReportsAddUp | src/metrics/meter.rs:167-175 | under any interleaving of increments and reports, the reports add up to the previous count |
| Counter.NonNegativeIff | src/metrics/meter.rs:167-175 | under any interleaving without negative increments, every report is at least zero exactly when no swap puts back a value loaded before the count grew to the one last swapped in |
| Counter.ScheduleDecides | src/metrics/meter.rs:167-175 | with positive increments, that depends on the order of loads, increments and swaps only, not on any value |
| Counter.SequentialReports | src/metrics/metricer.rs:90-108 | with one reporter that is so, and what is unreported is what was added since the last load |
| Counter.OverlappingReports | src/metrics/meter.rs:169-173 | two overlapping reporters can swap out of that order, and then one report is negative |
| Counter.UndisturbedReport | src/metrics/meter.rs:167-175 | a load followed at once by its swap reports what was counted since the value last swapped in |
| Counter.Metricer.ReportAll | src/metrics/metricer.rs:95-102 | one round reports every registered meter exactly once, in some order |

## Left out

- Start and end times, and the time of a log entry, are not modelled; `fetch_time` has no effect here.
- Random ids: trace and segment ids are parameters, and may be empty or equal.
- Contention: `try_read` and `try_write` never find a lock taken; each lock-guarded action is one atomic step.
- Edits of a span are `add_tag` and `add_log`; other changes through `span_object_mut` are not modelled.
- `next_span_id` is unbounded; `Sw8.EncodedIsDecoded` and `Linking.ChainShares` ask that it fits 32 bits.
- The panic for a dropped tracer is modelled in `continued` only; the runs assume that the tracer lives.
- `last_span`, `is_from_current` and the getters only read what the model already describes.
- WaitGroupModel.WaitGroup.Wait: only the loop, over the counts it reads; waiting among other threads is `WaitGroupModel.WaitersAreServed`.
- Memory order: atomics are sequentially consistent, although the source loads and stores the closing flag relaxed.
- The queue of collected items is the unbounded one; the bounded sender that blocks, and user-defined producers and consumers, are not modelled.
- The network: a stream item counts as delivered when the window takes it; calls, interceptors and management requests are not modelled, and a call may end at any time.
- Receive loops assume that a finished window is not polled again, so that one stream holds the receiver at a time.
- The Kafka reporter, the print reporter, protobuf and serde encoding, logging, instance properties, the heartbeat schedule and the global tracer and logger.
- Meters compute with reals, so rounding and NaN do not occur; counts do not wrap.
- Counter.Metricer.ReportAll: counters only, as other meters keep no state between reports; the endless loop around it, its ticks and its shutdown are not modelled.
- Labels of meters, the gauge, and the fields of reported meter data other than value and counts.
