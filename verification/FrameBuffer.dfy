/** The incremental, two-state frame parser of the read side. */
module FrameBuffers {
  import opened Results
  import opened Octets
  import opened Sequences
  import opened WireFormat
  import opened Frames

  datatype State = WaitingForHeader | WaitingForPayload(header: Header, remaining: u32)

  function Max(a: int, b: int): int {
    if a < b then b else a
  }

  class FrameBuffer {
    var buffer: seq<byte>
    var state: State
    const maxPayloadSize: u32

    /** A header that is waited on was validated, announces a payload, and is waited on in full. */
    ghost predicate Valid()
      reads this
    {
      state.WaitingForPayload? ==>
        && Violation(state.header, maxPayloadSize).None?
        && 0 < state.remaining == state.header.payloadLength
    }

    /** The bytes received and not yet delivered: a header already consumed counts as unread. */
    ghost function Unread(): seq<byte>
      reads this
    {
      match state
      case WaitingForHeader => buffer
      case WaitingForPayload(h, _) => Encode(h) + buffer
    }

    /** No step can be taken without more input. */
    ghost predicate Starved()
      reads this
    {
      |buffer| < if state.WaitingForHeader? then HEADER_SIZE else state.remaining
    }

    constructor (maxPayloadSize: u32)
      ensures Valid() && Unread() == [] && state == WaitingForHeader
      ensures this.maxPayloadSize == maxPayloadSize
    {
      this.buffer := [];
      this.state := WaitingForHeader;
      this.maxPayloadSize := maxPayloadSize;
    }

    method TryExtractOne() returns (r: Result<Option<Frame>, ProtocolError>)
      requires Valid()
      modifies this`buffer, this`state
      ensures Valid()
      ensures match FrontOf(old(Unread()), maxPayloadSize)
        case Incomplete => r == Success(None) && Unread() == old(Unread()) && Starved()
        case Invalid(e) => r == Failure(e) && Unread() == old(Unread())
        case Complete(f) => r == Success(Some(f)) && Unread() == old(Unread())[|BuildFrame(f)|..]
      decreases if state.WaitingForHeader? then 1 else 0
    {
      hide Encode, Decode, Violation;
      match state
      case WaitingForHeader =>
        if |buffer| < HEADER_SIZE {
          return Success(None);
        }
        var header := Decode(buffer[..HEADER_SIZE]).value;
        ghost var tail := buffer[HEADER_SIZE..];
        assert buffer[..HEADER_SIZE] + tail == buffer;
        EncodeDecode(buffer);
        DecodeEncode(Decode(buffer).value, []);
        assert Encode(Decode(buffer).value) + [] == buffer[..HEADER_SIZE];
        var violation := Violation(header, maxPayloadSize);
        if violation.Some? {
          return Failure(violation.value);
        }
        buffer := buffer[HEADER_SIZE..];
        if header.payloadLength == 0 {
          return Success(Some(Frame(header, [])));
        }
        state := WaitingForPayload(header, header.payloadLength);
        assert Unread() == old(Unread());
        r := TryExtractOne();
      case WaitingForPayload(header, remaining) =>
        DecodeEncode(header, buffer);
        if |buffer| < remaining {
          return Success(None);
        }
        var payload := buffer[..remaining];
        buffer := buffer[remaining..];
        state := WaitingForHeader;
        assert old(Unread()) == BuildFrame(Frame(header, payload)) + buffer;
        AcceptableFront(Frame(header, payload), buffer, maxPayloadSize);
        return Success(Some(Frame(header, payload)));
    }

    /**
     * Delivers every frame that `data` completes, unless an invalid header is met: then the frames
     * extracted by this very call are dropped and the invalid header stays at the front.
     */
    method Push(data: seq<byte>) returns (r: Result<seq<Frame>, ProtocolError>)
      requires Valid()
      modifies this`buffer, this`state
      ensures Valid()
      ensures var p := ParseStream(old(Unread()) + data, maxPayloadSize);
        && r == (if p.violation.None? then Success(p.frames) else Failure(p.violation.value))
        && Unread() == p.rest
      ensures r.Success? ==> Starved()
      ensures r.Success? ==> |buffer| < Max(HEADER_SIZE, PayloadLimit(maxPayloadSize))
    {
      hide Encode, Decode, FrontOf, ParseStream, Unread;
      Extend(data);
      ghost var whole := ParseStream(Unread(), maxPayloadSize);
      var frames := [];
      while true
        invariant Valid()
        invariant var p := ParseStream(Unread(), maxPayloadSize);
          whole == Parse(frames + p.frames, p.rest, p.violation)
        decreases |Unread()|
      {
        ParseFront(Unread(), maxPayloadSize);
        var one := TryExtractOne();
        match one
        case Failure(e) =>
          assert frames + [] == frames;
          return Failure(e);
        case Success(None) =>
          assert frames + [] == frames;
          return Success(frames);
        case Success(Some(f)) =>
          ConcatAssoc(frames, [f], ParseStream(Unread(), maxPayloadSize).frames);
          frames := frames + [f];
      }
    }

    /** Appends bytes without extracting frames. */
    method Extend(data: seq<byte>)
      requires Valid()
      modifies this`buffer
      ensures Valid() && Unread() == old(Unread()) + data
    {
      buffer := buffer + data;
      assert Unread() == old(Unread()) + data;
    }

    /** Forgets everything received, a pending invalid header included. */
    method Clear()
      modifies this`buffer, this`state
      ensures Valid() && Unread() == [] && state == WaitingForHeader
    {
      buffer := [];
      state := WaitingForHeader;
    }
  }
}
