# Procwire client: verified model

A Dafny model of the child side of the procwire binary IPC protocol, and proofs about it. It follows
the data path of the client from both ends:

- `Octets`, `WireFormat`, `Frames`: the 11-byte big-endian header, validation, and the whole-stream
  parser that serves as the reference meaning of a byte stream.
- `FrameBuffers`: the incremental two-state parser, as a class over a mutable buffer.
- `Chunking`: what any sequence of pushes delivers, for valid and invalid streams, as theorems about
  every way of cutting a stream.
- `Writer`: batches, vectored writes against a sink that may take any prefix or fail, and recovery
  from partial writes.
- `WriterSystem`: every interleaving of the tasks sharing a `WriterHandle` with the writer task. Loads,
  `fetch_add`, `fetch_sub`, channel operations and single writes are separate steps. Ends with the
  end-to-end theorem from accepted frames to delivered frames.
- `Sends`: what becomes of a single send from any state, of senders that wait, and of a writer at its end.
- `Backpressure`: the same for `BackpressureController` and its guards.
- `Context`, `Lifecycle`: the frames contexts produce, and every interleaving of dispatch, handler
  tasks, calls on cloned contexts, the automatic error path, cancellation and `emit`.
- `Requests`: the course of one request from any state, and which runs take it through the error path.
- `ClientSystem`: lifecycle and writer composed, meeting where the channel accepts a frame; states what
  the parent's parser sees.
- `ClosedLoop`: the read loop in front of that. From the bytes the parent sends to the bytes it gets back:
  which of its requests each answer is for, and that every request can be answered.
- `Handshake`: authentication of a connection and the hand-off of a half-read stream to the read loop.
- `Registry`, `HeaderPools`: id assignment, lookups and schema; the ring of header buffers.
- `Results`, `Sequences`: shared result types and facts about sequences.

Concurrent parts are state machines: `Enabled` and `Do` give the atomic steps, `Run` the executions,
`Reachable` the states. Every theorem about them holds for every reachable state, so for every
interleaving. `accepted`, `done`, `lost`, `returned`, `disarmed` and `log` are history: the program
does not store them and no step depends on them.

## Properties of the code that do not hold as promised

- **`max_pending` is not a maximum.** The check and the increment are separate atomic steps. The bound
  that holds is `max_pending + senders - 1`, or what channel, batch and senders can hold if that is less:
  `WriterSystem.ExactMaximum` and `Backpressure.ExactMaximum` give the exact maximum, the two
  `MaximumHoldsIff` the exact condition under which it is the configured value.
- **Chunking is visible on invalid streams.** A push that meets an invalid header drops the frames it had
  extracted itself. `Chunking.AllDeliveredIff` says exactly when nothing is dropped;
  `Handshake.InvalidStreamAdoption` says what this means for adoption.
- **A stream chunk can follow the terminal frame** of its request, which the protocol document forbids
  after an error frame: chunk methods never look at the responded flag. `Lifecycle.ChunkAfterTerminal` is
  a run that does it, `Lifecycle.AfterTerminal` says exactly which steps do it, and
  `Lifecycle.AwaitedTerminalIsLast` how a handler avoids it.
- **A handler that fails can leave its request unanswered for good.** `respond` sets the responded flag
  before it encodes, so when encoding or sending fails the automatic error path, meant to keep requests
  from being left pending (src/client.rs:619-622), stays silent.
  `Lifecycle.FailedRespondSilences` is a run that does it; `Lifecycle.AnswerableIff`: a claimed request can
  still be answered iff the claiming call's payload encodes and the writer has not refused it.
- **Registration does not check the id range.** The 65534th registration is announced under the reserved
  AUTH id; `Registry.LawfulIff` and `Registry.LawfulThroughoutIff` give the exact condition.
- **Duplicate ids in flight defeat ABORT.** `Lifecycle.DuplicateIdsMissAbort` is a run in which a running
  request is missed. `Lifecycle.AbortReachesIff` gives the exact condition in every run: an ABORT reaches
  a request not yet cancelled iff, since its admission, no request was inserted under its id and no task
  with its id removed its entry.
- **A request at handler capacity gets no reply at all**: `Lifecycle.DroppedIffFull` says exactly when,
  `Lifecycle.CapacityDrops` is a run that gets there.
- **Backpressure never recovers from a failed write.** The frames of the failed batch stay counted;
  `WriterSystem.DrainsIffLive`: the counter can come back to zero iff no write has failed;
  `WriterSystem.FailureLeaks` is a run in which one does.

Where comments or the protocol document disagree with the code, the model does what the code does:
src/control/init.rs:43 allows method ids up to 65534 although that is the AUTH id; the protocol document
lets an ACK carry data, which `ack` never does; src/backpressure.rs:121 speaks of a compare-and-swap
where there is a plain `fetch_add`.

## Model

| member | source | states |
|---|---|---|
| WireFormat.FieldLayout | src/protocol/wire_format.rs:134-140 | each field sits at its documented offset, most significant byte first |
| WireFormat.DecodeEncode | src/protocol/wire_format.rs:123-167 | decoding reads back the encoded header whatever bytes follow |
| WireFormat.EncodeDecode | src/protocol/wire_format.rs:134-167 | encoding a decoded header reproduces the eleven bytes it came from |
| WireFormat.ValidHeaders | src/protocol/wire_format.rs:179-207 | validation accepts exactly non-zero method ids, lengths within both limits and clear reserved bits |
| WireFormat.FirstBrokenRule | src/protocol/wire_format.rs:179-207 | which of the four rules an invalid header is refused for |
| WireFormat.EncodeInto | src/protocol/wire_format.rs:134-140 | in-place encoding writes the first eleven bytes and nothing else |
| Frames.ParseConserves | src/protocol/frame_buffer.rs:99-172 | delivered frames are acceptable, and their wire images followed by the unread rest are the stream |
| Frames.ParseWire | src/protocol/frame.rs:146-151 | the concatenated images of any acceptable frames parse back to those frames, then to what follows |
| Frames.ParseUnique | src/protocol/frame_buffer.rs:119-172 | the parse is the only cut of a stream into acceptable frames and a rest that starts none |
| Frames.ParseAppend | src/protocol/frame_buffer.rs:99-111 | parsing more bytes is carrying on from the rest |
| Frames.ViolationIsFinal | src/protocol/frame_buffer.rs:126-138 | after an invalid header no further byte yields a frame |
| FrameBuffers.FrameBuffer.TryExtractOne | src/protocol/frame_buffer.rs:119-172 | one extraction takes exactly the frame at the front of the unread bytes, waits, or refuses an invalid header without consuming it |
| FrameBuffers.FrameBuffer.Push | src/protocol/frame_buffer.rs:99-111 | a push answers and leaves unread what the whole-stream parser says; a success leaves fewer than max(11, payload limit) bytes buffered |
| FrameBuffers.FrameBuffer.Extend | src/protocol/frame_buffer.rs:185-187 | extending adds unread bytes in either state |
| FrameBuffers.FrameBuffer.Clear | src/protocol/frame_buffer.rs:200-203 | clearing forgets every unread byte, a pending invalid header included |
| Chunking.PushAll | src/protocol/frame_buffer.rs:99-111 | a session of pushes gives the answers the theorems below speak of |
| Chunking.SessionFrom | src/protocol/frame_buffer.rs:99-172 | for any session: which pushes fail, with which error, and what is delivered in all |
| Chunking.ChunkingIndependence | src/protocol/frame_buffer.rs:99-172 | without an invalid header every cutting delivers the whole-stream parse and loses no byte |
| Chunking.InvalidAfterIff | src/protocol/frame_buffer.rs:119-138 | the streams the next two rows speak of are exactly those whose parse ends at an invalid header |
| Chunking.FailureTiming | src/protocol/frame_buffer.rs:99-138 | a push fails exactly from the arrival of the first invalid header's eleventh byte on; frames of strictly earlier pushes are what was delivered |
| Chunking.AllDeliveredIff | src/protocol/frame_buffer.rs:103-110 | all frames ahead of an invalid header are delivered iff a chunk boundary falls between the last of them and that header's end |
| Chunking.ChunkingMatters | src/protocol/frame_buffer.rs:106-108 | the same bytes deliver nothing in one push and the frame in two |
| Writer.BuildRemainingSlices | src/writer.rs:359-388 | the slices concatenate to the flattened batch without its first bytes, and none is empty |
| Writer.WriteBatch | src/writer.rs:294-356 | success means the sink got exactly the batch and was flushed, failure a prefix of it; it fails only if the sink errs or takes nothing, and with just that error, so partial writes are recovered from |
| Writer.WriterTask.CollectBatch | src/writer.rs:260-278 | a batch is the first queued frames that are ready, in order, 64 at most |
| Writer.WriterTask.Loop | src/writer.rs:251-287 | success writes every queued frame and subtracts each; failure writes whole batches, then a prefix of one batch of 1 to 64 frames, which is never subtracted; it fails exactly when the sink gives out |
| WriterSystem.PendingConserved | src/writer.rs:137-204 | the counter is frames between increment and enqueue, queued, in the writer, or abandoned by it |
| WriterSystem.NoUnderflow | src/writer.rs:149-286 | no decrement takes the counter below zero |
| WriterSystem.PendingBound | src/writer.rs:139-146 | counter plus senders past the check stays within max_pending + senders - 1; a lone sender never exceeds max_pending |
| WriterSystem.ExactMaximum | src/writer.rs:139-146 | with a sender and a limit of at least one, senders + min(max_pending - 1, capacity + 64) is never exceeded and is reached in some run |
| WriterSystem.MaximumHoldsIff | src/writer.rs:106-146 | max_pending is a maximum in every run iff one sender, or zero, or out of reach of channel, batch and senders |
| WriterSystem.HealthyIdle | src/writer.rs:259-286 | an idle system with a live writer has a zero counter and everything accepted on the wire |
| WriterSystem.ZeroMeansWritten | src/writer.rs:281-285 | a zero counter proves that every accepted frame is fully written |
| WriterSystem.WireInOrder | src/writer.rs:251-356 | the wire always holds the finished frames, then only bytes of the next accepted ones, in order |
| WriterSystem.DrainsIffLive | src/writer.rs:259-287 | from a reachable state some continuation brings the counter to zero iff no write has failed |
| WriterSystem.FailureLeaks | src/writer.rs:281-286 | a run in which a write fails and no continuation brings the counter back to zero |
| WriterSystem.EndToEnd | src/writer.rs:251-388 | every interleaving, batching, partial write and chunking delivers a prefix of the accepted frames, all of them when the counter is zero |
| WriterSystem.CatchesUp | src/writer.rs:251-287 | from any state with a live writer, its own steps alone get everything accepted onto the wire |
| Sends.GoesThrough | src/writer.rs:137-155 | below the limit, with room in the open channel, send and try_send get their frame counted and queued |
| Sends.AtTheLimit | src/writer.rs:139-173 | at the limit try_send gives up at once and send waits until it times out; neither leaves a trace |
| Sends.CanTimeOut | src/writer.rs:167-169 | a waiting sender can time out even if the counter has dropped since it looked |
| Sends.WaiterGoesThrough | src/writer.rs:157-169 | a waiting sender that finds the counter below the limit gets its frame counted and queued |
| Sends.GivesBack | src/writer.rs:148-204 | refused by a closed channel, or a full one for try_send, a call gives its slot back and leaves no trace |
| Sends.BlocksWhenFull | src/writer.rs:148-154 | with the channel full but open, send holds its slot: refused only if the receiver goes, accepted only with room |
| Sends.WaitingGetsThrough | src/writer.rs:157-173 | from every reachable state with a live writer, a waiting sender's own poll can come to get its frame accepted |
| Sends.PartialWriteRecovers | src/writer.rs:333-355 | wherever a write breaks off, the writer can go on with exactly the rest, flush and subtract the batch |
| Sends.StoppedMeansWritten | src/writer.rs:259-266 | a writer that ended cleanly has put every accepted frame on the wire |
| Sends.CanStop | src/writer.rs:259-266 | with no send under way a live writer can always come to that end |
| Sends.FailureCloses | src/writer.rs:281-286 | after a failed write and the drop of the receiver nothing is ever accepted or written again |
| Backpressure.SlotsConserved | src/backpressure.rs:115-232 | the counter is held slots, live armed guards and owed slots; a guard returns its slot at most once, exactly once unless disarmed |
| Backpressure.GivesBackIff | src/backpressure.rs:159-232 | in every run a guard dropped or released lowers the counter by one iff it was never disarmed; release_many(n) lowers it by n |
| Backpressure.DisarmedKeepsSlot | src/backpressure.rs:218-232 | disarming and then dropping or releasing leaves the counter alone; the slot is owed |
| Backpressure.GetsSlot | src/backpressure.rs:115-157 | below the limit try_reserve, reserve and the next poll of a waiting task take a slot |
| Backpressure.AtTheLimit | src/backpressure.rs:115-157 | at the limit try_reserve gives up at once and reserve waits until it times out; neither leaves a trace |
| Backpressure.WaitingGetsSlot | src/backpressure.rs:139-157 | from every reachable state the others can give back all slots and then a waiting task's own poll takes one |
| Backpressure.NoUnderflow | src/backpressure.rs:159-169 | no release, guarded or not, takes the counter below zero, provided callers release only slots they reserved and still owe |
| Backpressure.ExactMaximum | src/backpressure.rs:115-157 | max_pending + tasks - 1 is never exceeded and is reached |
| Backpressure.MaximumHoldsIff | src/backpressure.rs:115-157 | max_pending is a maximum iff one task or zero |
| Context.FrameEchoes | src/handler/context.rs:360-394 | the peer decodes the request's own ids, the operation's flags and the payload sent |
| Context.PrescribedFlags | src/handler/context.rs:256-357 | each operation carries the flag octet the protocol document assigns to it |
| Context.TerminalByFlags | src/handler/context.rs:261-357 | decoded flags identify terminal frames: exactly the chunk operations are not |
| Context.OutputClosure | src/handler/context.rs:360-394 | a context's frame is acceptable to the receiver iff its method id is non-zero and its payload within the limit; ack and end are empty |
| Context.EventClosure | src/client.rs:640-670 | the same for emitted events |
| Lifecycle.OnlyRequestsAdmitted | src/client.rs:527-569 | control frames, responses and method id 0 never get a context |
| Requests.AdmittedIff | src/client.rs:527-569 | a frame that is no ABORT is admitted iff it is neither AUTH nor a response and a permit is left; else nothing changes |
| Requests.ReachesHandler | src/client.rs:571-616 | an admitted request for a registered method reaches its handler with its ids and type in the context |
| Requests.CallSends | src/handler/context.rs:261-394 | from any state each operation sends its frame with the given payload, or nothing if the writer refuses; terminal ones only unclaimed |
| Requests.SecondTerminalRejected | src/handler/context.rs:180-185 | any second terminal call is turned away before it encodes anything |
| Requests.EncodingFails | src/handler/context.rs:261-265 | when the encoder fails no frame goes out and a terminal call keeps the flag it set |
| Lifecycle.TerminalEntry | src/handler/context.rs:180-185 | an accepted frame is terminal iff the call that set the responded flag sent it; every call's frame echoes its request's ids |
| Lifecycle.AtMostOneTerminal | src/handler/context.rs:180-357 | over every interleaving of clones and the automatic path, at most one terminal frame per request |
| Lifecycle.ClaimDecides | src/handler/context.rs:261-265 | the request has its terminal frame iff the claiming call's encoding and send succeeded |
| Lifecycle.AfterTerminal | src/handler/context.rs:289-304 | the frames that can follow a terminal frame are exactly the sends of chunk calls |
| Lifecycle.ChunkAfterTerminal | src/handler/context.rs:289-304 | a run in which a chunk follows the frame that ended its stream |
| Lifecycle.FailureAnswered | src/client.rs:615-629 | a task finished with Err has its slot claimed; the automatic frame echoes both ids on the right channel |
| Requests.OkEnds | src/client.rs:615-634 | a handler that returns Ok ends its task at once: no call, no frame, permit and entry given back |
| Requests.ErrIsTold | src/client.rs:617-634 | a failed task nobody responded for sends exactly one error frame on its context and ends |
| Requests.ErrAfterResponseEnds | src/client.rs:617-634 | a failed task somebody responded for ends without a call |
| Requests.ErrorPathIff | src/client.rs:615-629 | in every run a task for a registered method is on the error path iff its handler returned Err |
| Requests.OnlyItsOwnFrames | src/client.rs:615-629 | while its handler has not returned Err, each frame of the request is that of a call made on its context |
| Lifecycle.AnswerableIff | src/client.rs:615-625 | a claimed request can still get a terminal frame iff the claiming call's payload encodes and the writer has not refused it; else it never will |
| Lifecycle.FailedRespondSilences | src/handler/context.rs:261-265 | a run in which respond fails to encode, the handler fails, the task ends and no continuation answers |
| Lifecycle.UnknownMethodOnlyErrors | src/client.rs:590-629 | a request for an unknown method id gets nothing but plain 0x07 errors |
| Lifecycle.UnknownMethodFails | src/handler/registry.rs:223-234 | the lookup finds no handler for such a request, so its task can end only through the error path, claimed |
| Lifecycle.ActiveMapSafe | src/client.rs:559-634 | even with duplicate ids each entry belongs to a permit holder, so the map stays within the handler limit |
| Lifecycle.DroppedIffFull | src/client.rs:559-569 | an arriving request changes nothing, so gets no reply, iff the tasks in flight hold every permit |
| Lifecycle.CapacityDrops | src/client.rs:559-569 | a run in which a request for a known method vanishes while the only permit is held |
| Lifecycle.AwaitedInOrder | src/handler/context.rs:261-357 | a call made after another has returned has its frame accepted after the other's |
| Lifecycle.AwaitedTerminalIsLast | src/handler/context.rs:261-357 | if a request's calls have returned and it starts no chunk call any more, nothing of it follows a later terminal frame |
| Lifecycle.AdmissionOwns | src/client.rs:574-583 | admission makes the new request the one its id's entry names |
| Lifecycle.AbortReachesIff | src/client.rs:528-634 | in every run an ABORT reaches the uncancelled request that owned its entry iff no later insert or remove concerned that id |
| Lifecycle.ActiveMapExact | src/client.rs:574-634 | an id never doubled in flight is a key exactly while a task carrying it is between insert and remove, and names that task |
| Lifecycle.ActiveKeysExact | src/client.rs:574-634 | when no id is doubled the keys are exactly the ids of tasks between insert and remove |
| Lifecycle.AbortReachesTarget | src/client.rs:528-543 | if its own id is never doubled in flight, an ABORT cancels the admitted request unless its entry is removed, and touches no other |
| Lifecycle.WhoCancels | src/client.rs:528-606 | a token is cancelled only by an ABORT naming its request or by a handler given that context, which hands out its token, and stays cancelled |
| Requests.CancelsItself | src/handler/context.rs:243-245 | a handler can cancel its request at any time and the token stays cancelled |
| Lifecycle.DuplicateIdsMissAbort | src/client.rs:574-583 | a run with duplicate ids in which an ABORT misses a running request |
| ClientSystem.ParentView | src/client.rs:371-412 | for every run and chunking the parent's parser gets an in-order prefix of the frames sent, with at most as many terminal frames for an id as requests admitted under it |
| ClientSystem.GetsAccepted | src/handler/context.rs:378-394 | from any state with room a call's or event's frame gets from the call to the writer's queue |
| ClientSystem.EventAccepted | src/client.rs:640-660 | an event of a known id is accepted whatever the requests do |
| ClientSystem.AwaitedCallsArriveInOrder | src/writer.rs:137-154 | frames of calls awaited one after the other reach the parent in that order under every interleaving and chunking |
| ClientSystem.LogDeliverable | src/handler/context.rs:360-394 | every frame sent with a fitting payload is acceptable to the parent |
| ClientSystem.ErrorChannelFollowsRegistry | src/handler/registry.rs:194-199 | automatic errors are stream errors exactly for names last registered as streams |
| Handshake.ConstantTimeEq | src/client.rs:259-268 | the XOR/OR loop decides equality of byte strings |
| Handshake.RunAuthHandshake | src/client.rs:469-515 | adoption, and the parser state and frames it hands over, are those of the chunks read |
| Handshake.AdoptsIffCut | src/client.rs:479-514 | a connection is adopted iff some leading chunks parse cleanly to frames whose first one authenticates |
| Handshake.AdoptsFirstCut | src/client.rs:479-514 | and it is the first cut that completes any frame |
| Handshake.ReadsAsSent | src/client.rs:441-446 | the chunks the reader gets are those the connection delivers before it ends or breaks |
| Handshake.WellFormedAdoption | src/client.rs:479-514 | a well-formed stream is adopted under every chunking iff its first frame authenticates |
| Handshake.InvalidStreamAdoption | src/client.rs:489-496 | with an invalid header later on, adoption needs a chunk boundary between the first frame's end and that header's end |
| Handshake.ReadLoop | src/client.rs:422-457 | dispatches the initial frames and then everything the pushes deliver; ends with the right result |
| Handshake.HandOff | src/client.rs:433-515 | handshake plus read loop dispatch what one uninterrupted session delivers, less the AUTH frame |
| Handshake.ServeConnection | src/client.rs:343-402 | nothing is dispatched before adoption, and then exactly the frames behind the AUTH frame |
| Handshake.AcceptLoop | src/client.rs:339-369 | the adopted connection is the first that authenticates, or the first of all, unread, without a token; the parser has the configured limit and later connections are untouched |
| ClosedLoop.AdoptionStarts | src/client.rs:339-402 | the closed loop covers every adoption: a fresh parser without a token, what the handshake hands over with one |
| ClosedLoop.TakenFromStream | src/client.rs:433-457 | at any moment the frames dispatched are the first ones of the parse of the parent's bytes, the AUTH frame skipped |
| ClosedLoop.DispatchReady | src/client.rs:433-457 | whatever waits for dispatch has a lawful header, so dispatch takes it |
| ClosedLoop.NothingLost | src/client.rs:433-457 | without an invalid header every complete frame read is dispatched or waits for it |
| ClosedLoop.OpenIff | src/client.rs:441-457 | in every run the read loop goes on until the connection ends or an invalid header has been read |
| ClosedLoop.CatchesUp | src/client.rs:433-457 | from every state all waiting frames can be dispatched in order before anything more is read |
| ClosedLoop.CanReadOn | src/client.rs:441-457 | an open loop can then read any chunk, and every frame it completes waits for dispatch |
| ClosedLoop.CanAnswer | src/client.rs:422-634 | from every state the next request that will be served can be answered by any operation, whose frame joins the queue |
| ClosedLoop.AnswerReachesParent | src/client.rs:422-634 | and the parent reads that answer last, with its request's ids and the payload given, behind everything sent before |
| ClosedLoop.EachAnswersARequest | src/client.rs:422-634 | for every stream, cutting of both directions and interleaving, each terminal frame the parent reads answers a request of its own among those it sent, with its method and id |
| ClosedLoop.NoMoreAnswersThanRequests | src/client.rs:422-634 | no id gets more terminal frames than a conforming parent sent requests under it |
| Registry.HandlerRegistry.Register | src/handler/registry.rs:132-151 | a registration extends the history the lemmas below speak of |
| Registry.HandlerRegistry.RegisterEvent | src/handler/registry.rs:154-158 | the same for events |
| Registry.HandlerRegistry.GetById | src/handler/registry.rs:166-199 | lookup by id goes through the name the id was assigned to |
| Registry.HandlerRegistry.BuildSchema | src/handler/registry.rs:202-214 | the schema announces every registered name once with the id and type on record |
| Registry.TablesAgree | src/handler/registry.rs:132-151 | ids in use are exactly 1 to next-1, and each name records its last registration |
| Registry.SchemaIds | src/handler/registry.rs:132-214 | each name's id is the largest mapping to it; announced ids are distinct and not reserved |
| Registry.LookupReachesLast | src/handler/registry.rs:166-171 | any id ever assigned reaches the last handler and type registered under its name |
| Registry.TypesReachLast | src/handler/registry.rs:194-199 | the type by id exists for exactly the assigned ids and is the last registered one |
| Registry.LawfulIff | src/handler/registry.rs:132-214 | the final announcement is lawful iff there were at most 65533 registrations, up to the counter's wrap |
| Registry.LawfulThroughoutIff | src/handler/registry.rs:138-139 | for any length, ids are lawful throughout a history iff it has at most 65533 registrations |
| Registry.WrapsToLawful | src/handler/registry.rs:138-139 | beyond the wrap an announcement can be lawful again: one name registered 65537 times |
| Registry.EventIds | src/handler/registry.rs:154-186 | event ids are 1 to next-1, each name keeping its last |
| HeaderPools.HeaderPool.Encode | src/protocol/header_pool.rs:57-71 | the 16 most recent headers stay intact in their own slots, and the index is the count modulo 16 |

## Left out

- Sockets, named pipes, stdio, the control plane, JSON text and the MessagePack codec: reading is a script of events, writing a sink that takes any prefix or fails, encoding an outcome that may be a failure.
- Cancellation of a `send` between its increment and its enqueue: every send runs to completion. Handlers do not panic.
- The channel is a bounded FIFO whose send is one atomic step, the semaphore a counter, each lock section one step, and elapsed time a timeout that may happen at any poll.
- Concurrent objects (`WriterHandle`, `BackpressureController`, guards, active map, request contexts) are values in a state machine rather than classes, because other threads' steps fall between their atomic accesses; aliasing of the shared counter is not represented.
- `fetch_add` and `fetch_sub` are on unbounded integers; the proofs that the counter stays between zero and its bound make the wrap of a machine word irrelevant below that size.
- A context without a writer (`RequestContext::new`), which answers Ok without sending.
- The timing of the constant-time comparison, deprecated `try_extract`, `BackpressureController::reset`, `HeaderPool::reset`, builder setters, tracing.
- A registry counter past 65535 wraps as in a release build; a debug build panics there.
- WriterSystem.DrainsIffLive: assumes a channel capacity of at least one, because a channel of capacity zero cannot be created.
- WriterSystem.MaximumHoldsIff: assumes the same.
- WriterSystem.ExactMaximum: assumes the same; with no sender or a limit of zero the counter never moves (`WriterSystem.MaximumHoldsIff`).
- Registry.LawfulIff: stops at 65535 registrations, because beyond them the counter has wrapped and the equivalence is false (`Registry.WrapsToLawful`); `Registry.LawfulThroughoutIff` has no such limit.
- Backpressure.NoUnderflow: `release`, `release_many` and `BackpressureGuard::new` are public and check nothing, so a caller that returns a slot it does not owe can wrap the counter. The model lets a guard arise only from a reserved slot, and an unguarded release return only slots reserved and not yet returned.
