/** Frames, their wire image, and the whole-stream parser every chunked reader must agree with. */
module Frames {
  import opened Results
  import opened Octets
  import opened Sequences
  import opened WireFormat

  datatype Frame = Frame(header: Header, payload: seq<byte>)

  /** The contiguous wire image of one frame. */
  function BuildFrame(f: Frame): (s: seq<byte>)
    ensures |s| == HEADER_SIZE + |f.payload|
  {
    Encode(f.header) + f.payload
  }

  /** The wire image of a sequence of frames sent back to back. */
  function Wire(fs: seq<Frame>): seq<byte> {
    if fs == [] then [] else BuildFrame(fs[0]) + Wire(fs[1..])
  }

  /** A frame that a receiver with limit `max` can accept: lawful header, truthful length. */
  predicate Acceptable(f: Frame, max: u32) {
    Violation(f.header, max).None? && f.header.payloadLength == |f.payload|
  }

  ghost predicate AllAcceptable(fs: seq<Frame>, max: u32) {
    forall f <- fs :: Acceptable(f, max)
  }

  /** What the front of a byte stream holds. */
  datatype Front = Incomplete | Invalid(error: ProtocolError) | Complete(frame: Frame)

  function FrontOf(s: seq<byte>, max: u32): (r: Front)
    ensures r.Complete? ==> |BuildFrame(r.frame)| <= |s|
  {
    if |s| < HEADER_SIZE then Incomplete
    else
      var h := Decode(s).value;
      match Violation(h, max)
      case Some(e) => Invalid(e)
      case None =>
        if |s| < HEADER_SIZE + h.payloadLength then Incomplete
        else Complete(Frame(h, s[HEADER_SIZE..HEADER_SIZE + h.payloadLength]))
  }

  /** The outcome of parsing a whole stream: the frames, the bytes left, and why parsing stopped. */
  datatype Parse = Parse(frames: seq<Frame>, rest: seq<byte>, violation: Option<ProtocolError>)

  function ParseStream(s: seq<byte>, max: u32): Parse
    decreases |s|
  {
    match FrontOf(s, max)
    case Incomplete => Parse([], s, None)
    case Invalid(e) => Parse([], s, Some(e))
    case Complete(f) =>
      var p := ParseStream(s[|BuildFrame(f)|..], max);
      Parse([f] + p.frames, p.rest, p.violation)
  }

  lemma WireOne(f: Frame)
    ensures Wire([f]) == BuildFrame(f)
  {
    assert Wire([f]) == BuildFrame(f) + [];
  }

  lemma WireCons(f: Frame, fs: seq<Frame>)
    ensures Wire([f] + fs) == BuildFrame(f) + Wire(fs)
  {
    hide BuildFrame;
    TailOfConcat([f], fs);
    assert [f][1..] + fs == fs;
  }

  /** A complete front is an acceptable frame, and the stream starts with its wire image. */
  lemma CompleteFront(s: seq<byte>, max: u32)
    requires FrontOf(s, max).Complete?
    ensures var f := FrontOf(s, max).frame;
      Acceptable(f, max) && s == BuildFrame(f) + s[|BuildFrame(f)|..]
  {
    hide Encode, Decode;
    var f := FrontOf(s, max).frame;
    EncodeDecode(s);
    assert s == s[..HEADER_SIZE] + f.payload + s[|BuildFrame(f)|..];
  }

  /** Conversely, an acceptable frame at the front of a stream is found there. */
  lemma AcceptableFront(f: Frame, tail: seq<byte>, max: u32)
    requires Acceptable(f, max)
    ensures FrontOf(BuildFrame(f) + tail, max) == Complete(f)
  {
    hide Encode, Decode;
    var s := BuildFrame(f) + tail;
    assert s == Encode(f.header) + (f.payload + tail);
    DecodeEncode(f.header, f.payload + tail);
    assert s[HEADER_SIZE..HEADER_SIZE + |f.payload|] == f.payload;
  }

  /** More bytes never change a front that is already decided. */
  lemma FrontStable(s: seq<byte>, t: seq<byte>, max: u32)
    requires !FrontOf(s, max).Incomplete?
    ensures FrontOf(s + t, max) == FrontOf(s, max)
  {
    hide Encode, Decode;
    if |s| >= HEADER_SIZE {
      EncodeDecode(s);
      assert s + t == s[..HEADER_SIZE] + (s[HEADER_SIZE..] + t);
      DecodeEncode(Decode(s).value, s[HEADER_SIZE..] + t);
      var n := HEADER_SIZE + Decode(s).value.payloadLength;
      if n <= |s| {
        assert (s + t)[HEADER_SIZE..n] == s[HEADER_SIZE..n];
      }
    }
  }

  /** Nothing is lost or invented: the frames' wire images and the rest are the stream itself. */
  lemma {:induction false} ParseConserves(s: seq<byte>, max: u32)
    ensures var p := ParseStream(s, max);
      && AllAcceptable(p.frames, max)
      && Wire(p.frames) + p.rest == s
    decreases |s|
  {
    hide Encode, Decode, Violation, FrontOf, Acceptable, BuildFrame;
    var r := FrontOf(s, max);
    if r.Complete? {
      var f, n := r.frame, |BuildFrame(r.frame)|;
      CompleteFront(s, max);
      ParseConserves(s[n..], max);
      var q := ParseStream(s[n..], max);
      WireCons(f, q.frames);
      ConcatAssoc(BuildFrame(f), Wire(q.frames), q.rest);
    }
  }

  /** One step of the parser. */
  lemma ParseFront(s: seq<byte>, max: u32)
    ensures FrontOf(s, max).Incomplete? ==> ParseStream(s, max) == Parse([], s, None)
    ensures FrontOf(s, max).Invalid? ==> ParseStream(s, max) == Parse([], s, Some(FrontOf(s, max).error))
    ensures FrontOf(s, max).Complete? ==>
      var f := FrontOf(s, max).frame;
      var p := ParseStream(s[|BuildFrame(f)|..], max);
      ParseStream(s, max) == Parse([f] + p.frames, p.rest, p.violation)
  {
    hide FrontOf;
  }

  /** Parsing stops only where it must: the rest starts no complete frame. */
  lemma {:induction false} ParseRest(s: seq<byte>, max: u32)
    ensures var p := ParseStream(s, max);
      FrontOf(p.rest, max) == (if p.violation.None? then Incomplete else Invalid(p.violation.value))
    decreases |s|
  {
    hide Encode, Decode;
    var r := FrontOf(s, max);
    if r.Complete? {
      ParseRest(s[|BuildFrame(r.frame)|..], max);
    }
  }

  /** Parsing recovers any sequence of acceptable frames that was sent, then parses what follows. */
  lemma {:induction false} ParseWire(fs: seq<Frame>, tail: seq<byte>, max: u32)
    requires AllAcceptable(fs, max)
    ensures var q := ParseStream(tail, max);
      ParseStream(Wire(fs) + tail, max) == Parse(fs + q.frames, q.rest, q.violation)
  {
    hide Encode, Decode, Violation, FrontOf, Acceptable, BuildFrame;
    if fs == [] {
      assert Wire(fs) + tail == tail;
    } else {
      ParseWire(fs[1..], tail, max);
      var b, rest := BuildFrame(fs[0]), Wire(fs[1..]) + tail;
      ConcatAssoc(b, Wire(fs[1..]), tail);
      AcceptableFront(fs[0], rest, max);
      assert (b + rest)[|b|..] == rest;
      ConcatAssoc([fs[0]], fs[1..], ParseStream(tail, max).frames);
      assert [fs[0]] + fs[1..] == fs;
    }
  }

  lemma ParseNothing(max: u32)
    ensures ParseStream([], max) == Parse([], [], None)
  {
  }

  /** Parsing a longer stream is parsing the shorter one and carrying on from its rest. */
  lemma ParseAppend(s: seq<byte>, t: seq<byte>, max: u32)
    ensures var p := ParseStream(s, max);
      var q := ParseStream(p.rest + t, max);
      ParseStream(s + t, max) == Parse(p.frames + q.frames, q.rest, q.violation)
  {
    hide Encode, Decode, FrontOf, ParseStream, Acceptable;
    var p := ParseStream(s, max);
    ParseConserves(s, max);
    ParseWire(p.frames, p.rest + t, max);
    assert Wire(p.frames) + (p.rest + t) == s + t;
  }

  /** A violation is final: later bytes yield no frame and only grow the rest. */
  lemma ViolationIsFinal(s: seq<byte>, t: seq<byte>, max: u32)
    requires ParseStream(s, max).violation.Some?
    ensures var p := ParseStream(s, max);
      ParseStream(s + t, max) == Parse(p.frames, p.rest + t, p.violation)
  {
    ParseAppend(s, t, max);
    ParseRest(s, max);
    FrontStable(ParseStream(s, max).rest, t, max);
  }

  /**
   * The parse is the only way to cut a stream into acceptable frames and a remainder that starts no
   * complete frame.
   */
  lemma ParseUnique(s: seq<byte>, fs: seq<Frame>, rest: seq<byte>, max: u32)
    requires AllAcceptable(fs, max) && s == Wire(fs) + rest && !FrontOf(rest, max).Complete?
    ensures ParseStream(s, max).frames == fs && ParseStream(s, max).rest == rest
  {
    ParseWire(fs, rest, max);
  }
}
