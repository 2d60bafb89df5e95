/** The frames that request contexts and `emit` produce, and how a peer tells them apart. */
module Context {
  import opened Octets
  import opened WireFormat
  import opened Frames
  import opened Writer

  datatype ResponseType = Single | Stream | Ack | NoResponse

  datatype RequestContext = RequestContext(methodId: u16, requestId: u32, responseType: ResponseType)

  /** The methods of a request context; `_raw` and `_bytes` variants skip the encoder. */
  datatype Op = Respond | RespondRaw | SendAck | Chunk | ChunkRaw | End | Error | ErrorWith

  /** Operations that claim the single terminal slot before doing anything else. */
  predicate Terminal(op: Op) {
    !op.Chunk? && !op.ChunkRaw?
  }

  predicate EmptyPayload(op: Op) {
    op.SendAck? || op.End?
  }

  /** Operations whose payload goes through the encoder, which may fail. */
  predicate Encodes(op: Op) {
    op.Respond? || op.Chunk? || op.Error? || op.ErrorWith?
  }

  function ErrorFlags(ctx: RequestContext): bits {
    if ctx.responseType.Stream? then STREAM_ERROR_RESPONSE else ERROR_RESPONSE
  }

  function FlagsOf(ctx: RequestContext, op: Op): bits {
    match op
    case Respond => RESPONSE
    case RespondRaw => RESPONSE
    case SendAck => ACK_RESPONSE
    case Chunk => STREAM_CHUNK
    case ChunkRaw => STREAM_CHUNK
    case End => STREAM_END_RESPONSE
    case Error => ErrorFlags(ctx)
    case ErrorWith => ErrorFlags(ctx)
  }

  /** `len() as u32`: longer payloads are announced modulo 2^32. */
  function LengthField(payload: seq<byte>): u32 {
    |payload| % 0x1_0000_0000
  }

  /** The frame an operation hands to the writer. */
  function FrameOf(ctx: RequestContext, op: Op, payload: seq<byte>): OutboundFrame {
    if EmptyPayload(op) then
      OutboundFrame(Encode(Header(ctx.methodId, FlagsOf(ctx, op), ctx.requestId, 0)), [])
    else
      OutboundFrame(Encode(Header(ctx.methodId, FlagsOf(ctx, op), ctx.requestId, LengthField(payload))), payload)
  }

  /** The frame `emit` hands to the writer. */
  function EventFrame(eventId: u16, payload: seq<byte>): OutboundFrame {
    OutboundFrame(Encode(Header(eventId, DIRECTION_TO_PARENT, 0, LengthField(payload))), payload)
  }

  /** A response that is not a mere stream chunk: it ends its request in the parent's tables. */
  predicate TerminalFlags(f: bits) {
    && HasFlag(f, IS_RESPONSE)
    && !(HasFlag(f, IS_STREAM) && !HasFlag(f, STREAM_END) && !HasFlag(f, IS_ERROR))
  }

  /** What the parent concludes from the bytes of a frame. */
  predicate TerminalFrame(f: Frame) {
    TerminalFlags(f.header.flags)
  }

  /** The header a peer decodes echoes the request's ids. */
  lemma FrameEchoes(ctx: RequestContext, op: Op, payload: seq<byte>)
    ensures var f := Inbound(FrameOf(ctx, op, payload));
      && f.header.methodId == ctx.methodId
      && f.header.requestId == ctx.requestId
      && f.header.flags == FlagsOf(ctx, op)
      && f.payload == (if op.SendAck? || op.End? then [] else payload)
      && f.header.payloadLength == |f.payload| % 0x1_0000_0000
  {
    hide Encode, Decode, FlagsOf;
    var n := if EmptyPayload(op) then 0 else LengthField(payload);
    var h := Header(ctx.methodId, FlagsOf(ctx, op), ctx.requestId, n);
    assert Encode(h) + [] == Encode(h);
    DecodeEncode(h, []);
  }

  lemma EventEchoes(eventId: u16, payload: seq<byte>)
    ensures var f := Inbound(EventFrame(eventId, payload));
      && f.header == Header(eventId, 0x01, 0, |payload| % 0x1_0000_0000)
      && f.payload == payload
  {
    hide Encode, Decode;
    var h := Header(eventId, DIRECTION_TO_PARENT, 0, LengthField(payload));
    assert Encode(h) + [] == Encode(h);
    DecodeEncode(h, []);
  }

  /** The decoded flags alone tell terminal operations from chunks, and events from both. */
  lemma TerminalByFlags(ctx: RequestContext, op: Op, payload: seq<byte>)
    ensures TerminalFrame(Inbound(FrameOf(ctx, op, payload))) <==> Terminal(op)
    ensures Terminal(op) <==> Inbound(FrameOf(ctx, op, payload)).header.flags != 0x0B
  {
    hide Encode, Decode, Inbound, FrameOf;
    FrameEchoes(ctx, op, payload);
  }

  lemma EventNotTerminal(eventId: u16, payload: seq<byte>)
    ensures !TerminalFrame(Inbound(EventFrame(eventId, payload)))
  {
    hide Encode, Decode, Inbound, EventFrame;
    EventEchoes(eventId, payload);
  }

  /** The flag octets the protocol prescribes for each kind of answer. */
  lemma PrescribedFlags(ctx: RequestContext, op: Op)
    ensures FlagsOf(ctx, op) ==
      match op
      case Respond => 0x03
      case RespondRaw => 0x03
      case SendAck => 0x23
      case Chunk => 0x0B
      case ChunkRaw => 0x0B
      case End => 0x1B
      case _ => if ctx.responseType.Stream? then 0x0F else 0x07
  {
  }

  lemma LawfulFlags(ctx: RequestContext, op: Op)
    ensures FlagsOf(ctx, op) & RESERVED_MASK == 0
  {
  }

  /** A context's frame is acceptable to the receiver exactly when its ids and its size are in range. */
  lemma OutputClosure(ctx: RequestContext, op: Op, payload: seq<byte>, max: u32)
    ensures Acceptable(Inbound(FrameOf(ctx, op, payload)), max)
      <==> ctx.methodId >= 1 && (op.SendAck? || op.End? || |payload| <= PayloadLimit(max))
    ensures op.SendAck? || op.End? ==> Inbound(FrameOf(ctx, op, payload)).payload == []
  {
    hide Encode, Decode, Inbound, FrameOf, FlagsOf;
    FrameEchoes(ctx, op, payload);
    LawfulFlags(ctx, op);
  }

  /** The same for events. */
  lemma EventClosure(eventId: u16, payload: seq<byte>, max: u32)
    ensures Acceptable(Inbound(EventFrame(eventId, payload)), max)
      <==> eventId >= 1 && |payload| <= PayloadLimit(max)
  {
    hide Encode, Decode, Inbound, EventFrame;
    EventEchoes(eventId, payload);
    assert DIRECTION_TO_PARENT & RESERVED_MASK == 0;
  }
}
