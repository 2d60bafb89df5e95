/** Adopting a connection, and handing its half-read stream to the read loop. */
module Handshake {
  import opened Results
  import opened Octets
  import opened Sequences
  import opened WireFormat
  import opened Frames
  import opened FrameBuffers
  import opened Chunking

  /** What the socket does next; an empty read is end of file. */
  datatype ReadEvent = Data(bytes: seq<byte>) | Broken

  datatype LoopError = Io | Protocol(error: ProtocolError)

  /** The read half of a connection, which will behave as `script` says and then stay at end of file. */
  class PipeReader {
    var script: seq<ReadEvent>

    method Read() returns (r: ReadEvent)
      modifies this
      ensures old(script) == [] ==> r == Data([]) && script == []
      ensures old(script) != [] ==> r == old(script)[0] && script == old(script)[1..]
    {
      if script == [] {
        return Data([]);
      }
      r := script[0];
      script := script[1..];
    }
  }

  /** The chunks a reader gets before end of file or an error. */
  function Chunks(script: seq<ReadEvent>): seq<seq<byte>> {
    if script == [] || script[0].Broken? || script[0].bytes == [] then []
    else [script[0].bytes] + Chunks(script[1..])
  }

  /** Whether the stream ends in an error rather than end of file. */
  predicate EndsBroken(script: seq<ReadEvent>) {
    script != [] && (script[0].Broken? || (script[0].bytes != [] && EndsBroken(script[1..])))
  }

  function DataEvents(chunks: seq<seq<byte>>): seq<ReadEvent> {
    if chunks == [] then [] else [Data(chunks[0])] + DataEvents(chunks[1..])
  }

  /** A connection that delivers some chunks and then ends, well or badly, is read as just that. */
  lemma {:induction false} ReadsAsSent(chunks: seq<seq<byte>>, end: seq<ReadEvent>)
    requires forall i :: 0 <= i < |chunks| ==> chunks[i] != []
    requires end == [] || end[0].Broken? || end[0].bytes == []
    ensures Chunks(DataEvents(chunks) + end) == chunks
    ensures EndsBroken(DataEvents(chunks) + end) <==> end != [] && end[0].Broken?
  {
    if chunks == [] {
      assert DataEvents(chunks) + end == end;
    } else {
      ReadsAsSent(chunks[1..], end);
      TailOfConcat(DataEvents(chunks), end);
      assert DataEvents(chunks)[1..] == DataEvents(chunks[1..]);
    }
  }

  predicate IsAuth(f: Frame, token: seq<byte>) {
    f.header.methodId == AUTH_METHOD_ID && f.payload == token
  }

  lemma XorZero(x: byte, y: byte)
    ensures OctetFlags(x) ^ OctetFlags(y) == 0 <==> x == y
  {
    OctetRoundTrip(x);
    OctetRoundTrip(y);
  }

  lemma OrZero(d: bits, e: bits)
    ensures d | e == 0 <==> d == 0 && e == 0
  {
  }

  /** The branch-free comparison decides equality of byte strings. */
  method ConstantTimeEq(a: seq<byte>, b: seq<byte>) returns (r: bool)
    ensures r <==> a == b
  {
    hide OctetFlags;
    if |a| != |b| {
      return false;
    }
    var diff: bits := 0;
    for i := 0 to |a|
      invariant diff == 0 <==> a[..i] == b[..i]
    {
      XorZero(a[i], b[i]);
      var x := OctetFlags(a[i]) ^ OctetFlags(b[i]);
      OrZero(diff, x);
      diff := diff | x;
      assert a[..i + 1] == a[..i] + [a[i]] && b[..i + 1] == b[..i] + [b[i]];
    }
    assert a[..|a|] == a && b[..|b|] == b;
    r := diff == 0;
  }

  /**
   * How many chunks a handshake reads before it adopts the connection, if it ever does: it looks
   * only at the first frame, when the push completing it succeeds.
   */
  function Adopts(unread: seq<byte>, chunks: seq<seq<byte>>, token: seq<byte>, max: u32): (k: Option<nat>)
    ensures k.Some? ==> 1 <= k.value <= |chunks|
    decreases |chunks|
  {
    if chunks == [] then None
    else
      var p := ParseStream(unread + chunks[0], max);
      if p.violation.Some? then None
      else if p.frames != [] then (if IsAuth(p.frames[0], token) then Some(1) else None)
      else
        match Adopts(p.rest, chunks[1..], token, max)
        case None => None
        case Some(k) => Some(k + 1)
  }

  datatype AuthOutcome = Adopted(frameBuffer: FrameBuffer, pending: seq<Frame>) | Rejected

  /** What an adopting handshake that has read these chunks leaves unread, and the frames it passes on. */
  ghost predicate HandsOver(unread: seq<byte>, pending: seq<Frame>, read: seq<seq<byte>>, token: seq<byte>, max: u32) {
    var p := ParseStream(Join(read), max);
    && unread == p.rest
    && p.violation.None? && p.frames != [] && IsAuth(p.frames[0], token) && pending == p.frames[1..]
  }

  /** The read loop takes this over. */
  ghost predicate TakesOver(fb: FrameBuffer, pending: seq<Frame>, read: seq<seq<byte>>, token: seq<byte>, max: u32)
    reads fb
  {
    fb.Valid() && fb.maxPayloadSize == max && HandsOver(fb.Unread(), pending, read, token, max)
  }

  method RunAuthHandshake(reader: PipeReader, token: seq<byte>, max: u32) returns (o: AuthOutcome)
    modifies reader
    ensures var chunks := Chunks(old(reader.script));
      var k := Adopts([], chunks, token, max);
      && (o.Adopted? <==> k.Some?)
      && (o.Adopted? ==>
            && fresh(o.frameBuffer)
            && TakesOver(o.frameBuffer, o.pending, chunks[..k.value], token, max)
            && Chunks(reader.script) == chunks[k.value..]
            && EndsBroken(reader.script) == EndsBroken(old(reader.script)))
  {
    hide ParseStream, FrameBuffer.Unread, Adopts, Join;
    ghost var chunks := Chunks(reader.script);
    ghost var n := 0;
    assert chunks[..0] == [];
    JoinNothing();
    ParseNothing(max);
    var fb := new FrameBuffer(max);
    while true
      invariant fresh(fb) && fb.Valid() && fb.maxPayloadSize == max
      invariant n <= |chunks| && chunks[n..] == Chunks(reader.script)
      invariant EndsBroken(reader.script) == EndsBroken(old(reader.script))
      invariant ParseStream(Join(chunks[..n]), max) == Parse([], fb.Unread(), None)
      invariant Adopts([], chunks, token, max) == match Adopts(fb.Unread(), chunks[n..], token, max)
        case None => None
        case Some(k) => Some(n + k)
      decreases |chunks| - n
    {
      var event := reader.Read();
      if event == Broken || event.bytes == [] {
        return Rejected;
      }
      ghost var unread := fb.Unread();
      assert chunks[n..][1..] == chunks[n + 1..];
      NextChunk(chunks, n, unread, max);
      AdoptsStep(unread, chunks[n..], token, max);
      var pushed := fb.Push(event.bytes);
      n := n + 1;
      if pushed.Failure? {
        return Rejected;
      }
      if pushed.value == [] {
        continue;
      }
      var first := pushed.value[0];
      var matches := ConstantTimeEq(first.payload, token);
      if first.header.methodId == AUTH_METHOD_ID && matches {
        return Adopted(fb, pushed.value[1..]);
      }
      return Rejected;
    }
  }

  lemma JoinNothing()
    ensures Join([]) == []
  {
  }

  /** One turn of the handshake. */
  lemma AdoptsStep(unread: seq<byte>, chunks: seq<seq<byte>>, token: seq<byte>, max: u32)
    requires chunks != []
    ensures var p := ParseStream(unread + chunks[0], max);
      Adopts(unread, chunks, token, max) ==
        if p.violation.Some? then None
        else if p.frames != [] then (if IsAuth(p.frames[0], token) then Some(1) else None)
        else
          match Adopts(p.rest, chunks[1..], token, max)
          case None => None
          case Some(k) => Some(k + 1)
  {
  }

  lemma NextChunk(chunks: seq<seq<byte>>, n: nat, unread: seq<byte>, max: u32)
    requires n < |chunks| && ParseStream(Join(chunks[..n]), max) == Parse([], unread, None)
    ensures ParseStream(Join(chunks[..n + 1]), max) == ParseStream(unread + chunks[n], max)
  {
    hide ParseStream;
    JoinAppend(chunks[..n], [chunks[n]]);
    assert chunks[..n + 1] == chunks[..n] + [chunks[n]];
    assert chunks[n] + [] == chunks[n];
    assert Join([chunks[n]]) == chunks[n];
    ParseAppend(Join(chunks[..n]), chunks[n], max);
    var q := ParseStream(unread + chunks[n], max);
    assert [] + q.frames == q.frames;
    assert Join(chunks[..n + 1]) == Join(chunks[..n]) + chunks[n];
  }

  /** Where dispatched frames go; the handlers behind it are the business of the lifecycle. */
  class Dispatcher {
    var dispatched: seq<Frame>

    method Dispatch(f: Frame)
      modifies this
      ensures dispatched == old(dispatched) + [f]
    {
      dispatched := dispatched + [f];
    }

    method DispatchAll(fs: seq<Frame>)
      modifies this
      ensures dispatched == old(dispatched) + fs
    {
      for i := 0 to |fs|
        invariant dispatched == old(dispatched) + fs[..i]
      {
        Dispatch(fs[i]);
      }
      assert fs[..|fs|] == fs;
    }
  }

  /** Dispatches the initial frames and then every frame of every successful push, until the stream ends or fails. */
  method ReadLoop(reader: PipeReader, fb: FrameBuffer, initial: seq<Frame>, d: Dispatcher)
      returns (r: Result<(), LoopError>)
    requires fb.Valid()
    modifies reader, fb`buffer, fb`state, d
    ensures var answers := Answers(old(fb.Unread()), Chunks(old(reader.script)), fb.maxPayloadSize);
      && d.dispatched == old(d.dispatched) + initial + Delivered(answers)
      && (r.Failure? && r.error.Protocol? <==> exists a <- answers :: a.Failure?)
      && (r == Failure(Io) <==> (forall a <- answers :: a.Success?) && EndsBroken(old(reader.script)))
  {
    hide ParseStream, Answers, FrameBuffer.Unread, Delivered;
    ghost var max := fb.maxPayloadSize;
    DeliveredNothing();
    ghost var all := Answers(fb.Unread(), Chunks(reader.script), max);
    d.DispatchAll(initial);
    ghost var answered := [];
    while true
      invariant fb.Valid()
      invariant all == answered + Answers(fb.Unread(), Chunks(reader.script), max)
      invariant forall a <- answered :: a.Success?
      invariant EndsBroken(reader.script) == EndsBroken(old(reader.script))
      invariant d.dispatched == old(d.dispatched) + initial + Delivered(answered)
      decreases |reader.script|
    {
      ghost var script := reader.script;
      var event := reader.Read();
      if event == Broken {
        assert answered + [] == answered;
        return Failure(Io);
      }
      if event.bytes == [] {
        assert answered + [] == answered;
        return Success(());
      }
      ReadOne(all, answered, fb.Unread(), event.bytes, Chunks(reader.script), max);
      var pushed := fb.Push(event.bytes);
      if pushed.Failure? {
        return Failure(Protocol(pushed.error));
      }
      d.DispatchAll(pushed.value);
      answered := answered + [pushed];
    }
  }

  lemma DeliveredNothing()
    ensures Delivered([]) == []
  {
  }

  lemma DeliveredOne(a: PushResult)
    ensures Delivered([a]) == if a.Success? then a.value else []
  {
  }

  /** One turn of the read loop, seen from the answers of the whole session. */
  lemma ReadOne(all: seq<PushResult>, answered: seq<PushResult>, unread: seq<byte>, data: seq<byte>,
                tail: seq<seq<byte>>, max: u32)
    requires all == answered + Answers(unread, [data] + tail, max)
    ensures var p := ParseStream(unread + data, max);
      && all == (answered + [Answer(p)]) + Answers(p.rest, tail, max)
      && Answer(p) in all
      && (p.violation.None? ==> Delivered(answered + [Answer(p)]) == Delivered(answered) + p.frames)
      && (p.violation.Some? ==> Delivered(all) == Delivered(answered))
  {
    hide ParseStream, Answers, UnreadAfter, Delivered;
    var p := ParseStream(unread + data, max);
    assert ([data] + tail)[1..] == tail;
    OnePush(unread, [data] + tail, max);
    ConcatAssoc(answered, [Answer(p)], Answers(p.rest, tail, max));
    DeliveredAppend(answered, [Answer(p)]);
    DeliveredOne(Answer(p));
    assert all[|answered|] == Answer(p);
    if p.violation.Some? {
      StaysFailed(unread + data, tail, max);
      DeliveredAppend(answered + [Answer(p)], Answers(p.rest, tail, max));
    }
  }

  /** After a failed push the rest of the session delivers nothing. */
  lemma StaysFailed(s: seq<byte>, tail: seq<seq<byte>>, max: u32)
    requires ParseStream(s, max).violation.Some?
    ensures Delivered(Answers(ParseStream(s, max).rest, tail, max)) == []
  {
    hide ParseStream;
    ParseRest(s, max);
    Poisoned(ParseStream(s, max).rest, tail, max);
  }

  lemma {:induction false} DeliveredAppend(a: seq<PushResult>, b: seq<PushResult>)
    ensures Delivered(a + b) == Delivered(a) + Delivered(b)
  {
    if a == [] {
      assert a + b == b;
    } else {
      DeliveredAppend(a[1..], b);
      TailOfConcat(a, b);
    }
  }

  lemma {:induction false} AnswersSplit(unread: seq<byte>, a: seq<seq<byte>>, b: seq<seq<byte>>, max: u32)
    ensures Answers(unread, a + b, max) == Answers(unread, a, max) + Answers(UnreadAfter(unread, a, max), b, max)
    decreases |a|
  {
    hide ParseStream;
    if a == [] {
      assert a + b == b;
    } else {
      AnswersSplit(ParseStream(unread + a[0], max).rest, a[1..], b, max);
      TailOfConcat(a, b);
    }
  }

  /**
   * The hand-off is seamless: the frames behind the AUTH frame, and then those of the read loop, are
   * the frames an uninterrupted session on the same chunks delivers, less the AUTH frame itself.
   */
  lemma HandOff(chunks: seq<seq<byte>>, k: nat, token: seq<byte>, max: u32)
    requires Adopts([], chunks, token, max) == Some(k)
    ensures var p := ParseStream(Join(chunks[..k]), max);
      var whole := Delivered(Answers([], chunks, max));
      && p.frames != [] && whole != [] && whole[0] == p.frames[0] && IsAuth(whole[0], token)
      && p.frames[1..] + Delivered(Answers(p.rest, chunks[k..], max)) == whole[1..]
  {
    hide ParseStream, Adopts, FrontOf, IsAuth, Delivered, Answers;
    FrontOfNothing(max);
    AdoptsAtCut([], chunks, k, token, max);
    var read, rest := chunks[..k], chunks[k..];
    var p := ParseStream(Join(read), max);
    assert chunks == read + rest;
    AnswersSplit([], read, rest, max);
    assert read[..k] == read && [] + Join(read) == Join(read);
    SessionFrom([], read, k, max);
    DeliveredAppend(Answers([], read, max), Answers(p.rest, rest, max));
  }

  lemma AuthFrame(f: Frame, token: seq<byte>)
    requires IsAuth(f, token)
    ensures f.header.methodId == 0xFFFE && f.payload == token
  {
  }

  /** Authenticates a connection and serves it; nothing is dispatched unless it is adopted. */
  method ServeConnection(reader: PipeReader, token: seq<byte>, max: u32, d: Dispatcher) returns (adopted: bool)
    modifies reader, d
    ensures var chunks := Chunks(old(reader.script));
      var whole := Delivered(Answers([], chunks, max));
      && (adopted <==> Adopts([], chunks, token, max).Some?)
      && (adopted ==>
            && whole != [] && whole[0].header.methodId == 0xFFFE && whole[0].payload == token
            && d.dispatched == old(d.dispatched) + whole[1..])
      && (!adopted ==> d.dispatched == old(d.dispatched))
  {
    hide ParseStream, Adopts, IsAuth, Answers, Delivered, Join, Chunks, EndsBroken, FrameBuffer.Unread;
    ghost var chunks := Chunks(reader.script);
    var o := RunAuthHandshake(reader, token, max);
    if o == Rejected {
      return false;
    }
    HandOff(chunks, Adopts([], chunks, token, max).value, token, max);
    AuthFrame(Delivered(Answers([], chunks, max))[0], token);
    var r := ReadLoop(reader, o.frameBuffer, o.pending, d);
    return true;
  }

  // When is a connection adopted?

  /** Some leading chunks parse without violation to frames the first of which authenticates. */
  ghost predicate CleanAuthCut(unread: seq<byte>, chunks: seq<seq<byte>>, j: nat, token: seq<byte>, max: u32)
    requires j <= |chunks|
  {
    var p := ParseStream(unread + Join(chunks[..j]), max);
    p.violation.None? && p.frames != [] && IsAuth(p.frames[0], token)
  }

  /** Adoption happens at such a cut. */
  lemma {:induction false} AdoptsAtCut(unread: seq<byte>, chunks: seq<seq<byte>>, k: nat, token: seq<byte>, max: u32)
    requires FrontOf(unread, max).Incomplete? && Adopts(unread, chunks, token, max) == Some(k)
    ensures CleanAuthCut(unread, chunks, k, token, max)
    decreases |chunks|
  {
    hide ParseStream, FrontOf, IsAuth;
    var c := chunks[0];
    var p := ParseStream(unread + c, max);
    ParseRest(unread + c, max);
    if p.frames == [] {
      AdoptsAtCut(p.rest, chunks[1..], k - 1, token, max);
      Carry(unread, c, chunks, k, max);
      var q := ParseStream(p.rest + Join(chunks[1..][..k - 1]), max);
      assert [] + q.frames == q.frames;
    } else {
      JoinTake(chunks, 1);
      assert Join(chunks[1..][..0]) == [] && c + [] == c;
    }
  }

  lemma {:induction false} AdoptsIffCut(unread: seq<byte>, chunks: seq<seq<byte>>, token: seq<byte>, max: u32)
    requires FrontOf(unread, max).Incomplete?
    ensures Adopts(unread, chunks, token, max).Some?
      <==> exists j: nat :: j <= |chunks| && CleanAuthCut(unread, chunks, j, token, max)
    decreases |chunks|
  {
    hide ParseStream, FrontOf, IsAuth;
    ParseIncomplete(unread, max);
    assert chunks[..0] == [] && unread + [] == unread;
    assert !CleanAuthCut(unread, chunks, 0, token, max);
    if chunks != [] {
      var c, tail := chunks[0], chunks[1..];
      var p := ParseStream(unread + c, max);
      ParseRest(unread + c, max);
      forall j: nat | 1 <= j <= |chunks|
        ensures p.violation.Some? ==> !CleanAuthCut(unread, chunks, j, token, max)
        ensures p.violation.None? && p.frames != [] ==>
          (CleanAuthCut(unread, chunks, j, token, max) ==> IsAuth(p.frames[0], token))
        ensures p.violation.None? && p.frames == [] ==>
          (CleanAuthCut(unread, chunks, j, token, max) <==> CleanAuthCut(p.rest, tail, j - 1, token, max))
      {
        Carry(unread, c, chunks, j, max);
        if p.violation.Some? {
          JoinTake(chunks, j);
          assert unread + Join(chunks[..j]) == (unread + c) + Join(tail[..j - 1]);
          ViolationIsFinal(unread + c, Join(tail[..j - 1]), max);
        }
        var q := ParseStream(p.rest + Join(tail[..j - 1]), max);
        assert [] + q.frames == q.frames;
      }
      JoinTake(chunks, 1);
      assert Join(tail[..0]) == [] && c + [] == c;
      if p.violation.None? && p.frames == [] {
        AdoptsIffCut(p.rest, tail, token, max);
        if j: nat :| j <= |tail| && CleanAuthCut(p.rest, tail, j, token, max) {
          assert CleanAuthCut(unread, chunks, j + 1, token, max);
        }
      } else if p.violation.None? && IsAuth(p.frames[0], token) {
        assert CleanAuthCut(unread, chunks, 1, token, max);
      }
    }
  }

  /** And it is the first cut that yields a frame at all: nothing is read beyond what decides. */
  lemma AdoptsFirstCut(unread: seq<byte>, chunks: seq<seq<byte>>, k: nat, token: seq<byte>, max: u32)
    requires FrontOf(unread, max).Incomplete? && k <= |chunks|
    ensures Adopts(unread, chunks, token, max) == Some(k)
      <==> CleanAuthCut(unread, chunks, k, token, max) && NoFrameBefore(unread, chunks, k, max)
  {
    hide ParseStream, FrontOf, IsAuth, Adopts;
    var a := Adopts(unread, chunks, token, max);
    if a.Some? {
      AdoptsAtCut(unread, chunks, a.value, token, max);
      AdoptsAtOnce(unread, chunks, a.value, token, max);
    }
    AdoptsIffCut(unread, chunks, token, max);
  }

  ghost predicate NoFrameBefore(unread: seq<byte>, chunks: seq<seq<byte>>, k: nat, max: u32)
    requires k <= |chunks|
  {
    forall j :: 0 <= j < k ==> ParseStream(unread + Join(chunks[..j]), max).frames == []
  }

  lemma {:induction false} AdoptsAtOnce(unread: seq<byte>, chunks: seq<seq<byte>>, k: nat, token: seq<byte>, max: u32)
    requires FrontOf(unread, max).Incomplete? && Adopts(unread, chunks, token, max) == Some(k)
    ensures NoFrameBefore(unread, chunks, k, max)
    decreases |chunks|
  {
    hide ParseStream, FrontOf, IsAuth;
    ParseIncomplete(unread, max);
    assert chunks[..0] == [] && unread + [] == unread;
    var p := ParseStream(unread + chunks[0], max);
    ParseRest(unread + chunks[0], max);
    forall j | 1 <= j < k
      ensures ParseStream(unread + Join(chunks[..j]), max).frames == []
    {
      AdoptsAtOnce(p.rest, chunks[1..], k - 1, token, max);
      Carry(unread, chunks[0], chunks, j, max);
      var q := ParseStream(p.rest + Join(chunks[1..][..j - 1]), max);
      assert q.frames == [];
    }
  }

  /** A well-formed stream is adopted under every chunking exactly when its first frame authenticates. */
  lemma WellFormedAdoption(chunks: seq<seq<byte>>, token: seq<byte>, max: u32)
    requires ParseStream(Join(chunks), max).violation.None?
    ensures var fs := ParseStream(Join(chunks), max).frames;
      && (Adopts([], chunks, token, max).Some? <==>
            fs != [] && fs[0].header.methodId == 0xFFFE && fs[0].payload == token)
      && Delivered(Answers([], chunks, max)) == fs
  {
    hide ParseStream, Adopts, FrontOf;
    FrontOfNothing(max);
    AdoptsIffCut([], chunks, token, max);
    ChunkingIndependence(chunks, max);
    assert chunks[..|chunks|] == chunks && [] + Join(chunks) == Join(chunks);
    if j: nat :| j <= |chunks| && CleanAuthCut([], chunks, j, token, max) {
      assert [] + Join(chunks[..j]) == Join(chunks[..j]);
      JoinPrefix(chunks, j);
      ParseAppend(Join(chunks[..j]), Join(chunks[j..]), max);
    } else {
      assert !CleanAuthCut([], chunks, |chunks|, token, max);
    }
  }

  /**
   * With an invalid header later in the stream, adoption depends on the cutting: it happens exactly
   * when the first frame authenticates and some chunk boundary separates it from that header's end.
   */
  lemma InvalidStreamAdoption(chunks: seq<seq<byte>>, fs: seq<Frame>, e: ProtocolError, token: seq<byte>, max: u32)
    requires InvalidAfter(Join(chunks), fs, e, max)
    ensures Adopts([], chunks, token, max).Some? <==>
      && fs != [] && IsAuth(fs[0], token)
      && exists j: nat :: j <= |chunks|
           && |BuildFrame(fs[0])| <= |Join(chunks[..j])| < |Wire(fs)| + HEADER_SIZE
  {
    hide ParseStream, Adopts, FrontOf, IsAuth, InvalidAfter;
    FrontOfNothing(max);
    AdoptsIffCut([], chunks, token, max);
    forall j: nat | j <= |chunks|
      ensures CleanAuthCut([], chunks, j, token, max) <==>
        fs != [] && IsAuth(fs[0], token) && |BuildFrame(fs[0])| <= |Join(chunks[..j])| < |Wire(fs)| + HEADER_SIZE
    {
      CutOfInvalid(chunks, j, fs, e, max);
      FirstFrameCut(chunks, j, fs, e, max);
    }
  }

  lemma FirstFrameCut(chunks: seq<seq<byte>>, j: nat, fs: seq<Frame>, e: ProtocolError, max: u32)
    requires j <= |chunks| && InvalidAfter(Join(chunks), fs, e, max)
    ensures var p := ParseStream([] + Join(chunks[..j]), max);
      && p.frames <= fs
      && (p.frames != [] <==> fs != [] && |BuildFrame(fs[0])| <= |Join(chunks[..j])|)
  {
    hide ParseStream, FrontOf, Acceptable, Encode, Decode, BuildFrame, Join;
    var s, t := Join(chunks[..j]), Join(chunks[j..]);
    assert [] + s == s;
    JoinPrefix(chunks, j);
    PrefixOfInvalid(s, t, fs, e, max);
    ParseConserves(s, max);
    if fs != [] && |BuildFrame(fs[0])| <= |s| {
      assert BuildFrame(fs[0]) <= Wire(fs) <= s + t;
      FrameAhead(s, fs[0], max);
    }
  }

  lemma FrameAhead(s: seq<byte>, f: Frame, max: u32)
    requires Acceptable(f, max) && BuildFrame(f) <= s
    ensures ParseStream(s, max).frames != []
  {
    hide ParseStream, Acceptable, BuildFrame, FrontOf;
    var tail := s[|BuildFrame(f)|..];
    WireOne(f);
    assert s == Wire([f]) + tail;
    ParseWire([f], tail, max);
  }

  /**
   * The accept loop: the connection adopted is the first one that authenticates; without a token it
   * is the first one accepted, with a fresh parser.
   */
  method AcceptLoop(conns: seq<PipeReader>, token: Option<seq<byte>>, max: u32)
      returns (adopted: Option<nat>, fb: FrameBuffer, pending: seq<Frame>)
    requires forall i, j :: 0 <= i < j < |conns| ==> conns[i] != conns[j]
    modifies conns
    ensures fresh(fb) && fb.Valid() && fb.maxPayloadSize == max
    ensures token.None? ==> adopted == (if conns == [] then None else Some(0)) && pending == [] && fb.Unread() == []
    ensures forall i :: 0 <= i < |conns| && (token.None? || (adopted.Some? && adopted.value < i)) ==>
      conns[i].script == old(conns[i].script)
    ensures token.Some? && adopted.None? ==>
      forall i :: 0 <= i < |conns| ==> Adopts([], Chunks(old(conns[i].script)), token.value, max).None?
    ensures token.Some? && adopted.Some? ==>
      && adopted.value < |conns|
      && (forall i :: 0 <= i < adopted.value ==> Adopts([], Chunks(old(conns[i].script)), token.value, max).None?)
      && var chunks := Chunks(old(conns[adopted.value].script));
        var k := Adopts([], chunks, token.value, max);
        && k.Some?
        && TakesOver(fb, pending, chunks[..k.value], token.value, max)
        && Chunks(conns[adopted.value].script) == chunks[k.value..]
        && EndsBroken(conns[adopted.value].script) == EndsBroken(old(conns[adopted.value].script))
  {
    hide ParseStream, Adopts, IsAuth;
    fb := new FrameBuffer(max);
    pending := [];
    adopted := None;
    for n := 0 to |conns|
      invariant adopted.None? && pending == []
      invariant fresh(fb) && fb.Valid() && fb.maxPayloadSize == max && fb.Unread() == []
      invariant token.None? ==> n == 0
      invariant forall i :: n <= i < |conns| ==> conns[i].script == old(conns[i].script)
      invariant token.Some? ==>
        forall i :: 0 <= i < n ==> Adopts([], Chunks(old(conns[i].script)), token.value, max).None?
    {
      match token
      case None =>
        return Some(n), fb, [];
      case Some(t) =>
        var o := RunAuthHandshake(conns[n], t, max);
        if o.Adopted? {
          return Some(n), o.frameBuffer, o.pending;
        }
    }
  }
}
