/** What a reader sees when a byte stream reaches its frame buffer cut into arbitrary chunks. */
module Chunking {
  import opened Results
  import opened Octets
  import opened Sequences
  import opened WireFormat
  import opened Frames
  import opened FrameBuffers

  type PushResult = Result<seq<Frame>, ProtocolError>

  function Join(chunks: seq<seq<byte>>): seq<byte> {
    if chunks == [] then [] else chunks[0] + Join(chunks[1..])
  }

  /** What one push answers, given the parse of everything unread. */
  function Answer(p: Parse): PushResult {
    if p.violation.None? then Success(p.frames) else Failure(p.violation.value)
  }

  /** The answers to pushing `chunks` one by one into a buffer holding `unread`. */
  function Answers(unread: seq<byte>, chunks: seq<seq<byte>>, max: u32): (rs: seq<PushResult>)
    ensures |rs| == |chunks|
    decreases |chunks|
  {
    if chunks == [] then []
    else
      var p := ParseStream(unread + chunks[0], max);
      [Answer(p)] + Answers(p.rest, chunks[1..], max)
  }

  function UnreadAfter(unread: seq<byte>, chunks: seq<seq<byte>>, max: u32): seq<byte>
    decreases |chunks|
  {
    if chunks == [] then unread
    else UnreadAfter(ParseStream(unread + chunks[0], max).rest, chunks[1..], max)
  }

  /** The frames handed to the caller: a failed push hands over none. */
  function Delivered(rs: seq<PushResult>): seq<Frame> {
    if rs == [] then []
    else (if rs[0].Success? then rs[0].value else []) + Delivered(rs[1..])
  }

  /** The stream holds `fs` and then, as its first invalid header, one that breaks rule `e`. */
  ghost predicate InvalidAfter(s: seq<byte>, fs: seq<Frame>, e: ProtocolError, max: u32) {
    && AllAcceptable(fs, max)
    && Wire(fs) <= s
    && FrontOf(s[|Wire(fs)|..], max) == Invalid(e)
  }

  method PushAll(fb: FrameBuffer, chunks: seq<seq<byte>>) returns (rs: seq<PushResult>)
    requires fb.Valid()
    modifies fb`buffer, fb`state
    ensures fb.Valid()
    ensures rs == Answers(old(fb.Unread()), chunks, fb.maxPayloadSize)
    ensures fb.Unread() == UnreadAfter(old(fb.Unread()), chunks, fb.maxPayloadSize)
  {
    hide ParseStream, FrameBuffer.Unread, Answers, UnreadAfter;
    rs := [];
    assert chunks[0..] == chunks;
    for i := 0 to |chunks|
      invariant fb.Valid()
      invariant rs + Answers(fb.Unread(), chunks[i..], fb.maxPayloadSize)
             == Answers(old(fb.Unread()), chunks, fb.maxPayloadSize)
      invariant UnreadAfter(fb.Unread(), chunks[i..], fb.maxPayloadSize)
             == UnreadAfter(old(fb.Unread()), chunks, fb.maxPayloadSize)
    {
      assert chunks[i..][1..] == chunks[i + 1..];
      OnePush(fb.Unread(), chunks[i..], fb.maxPayloadSize);
      var r := fb.Push(chunks[i]);
      ConcatAssoc(rs, [r], Answers(fb.Unread(), chunks[i + 1..], fb.maxPayloadSize));
      rs := rs + [r];
    }
    OnePush(fb.Unread(), chunks[|chunks|..], fb.maxPayloadSize);
  }

  /** The first push of a session, and none. */
  lemma OnePush(unread: seq<byte>, chunks: seq<seq<byte>>, max: u32)
    ensures chunks == [] ==> Answers(unread, chunks, max) == [] && UnreadAfter(unread, chunks, max) == unread
    ensures chunks != [] ==>
      var p := ParseStream(unread + chunks[0], max);
      && Answers(unread, chunks, max) == [Answer(p)] + Answers(p.rest, chunks[1..], max)
      && UnreadAfter(unread, chunks, max) == UnreadAfter(p.rest, chunks[1..], max)
  {
    hide ParseStream;
  }

  lemma {:induction false} JoinAppend(a: seq<seq<byte>>, b: seq<seq<byte>>)
    ensures Join(a + b) == Join(a) + Join(b)
  {
    if a == [] {
      assert a + b == b;
    } else {
      JoinAppend(a[1..], b);
      TailOfConcat(a, b);
      ConcatAssoc(a[0], Join(a[1..]), Join(b));
    }
  }

  lemma JoinPrefix(chunks: seq<seq<byte>>, k: nat)
    requires k <= |chunks|
    ensures Join(chunks) == Join(chunks[..k]) + Join(chunks[k..])
  {
    hide Join;
    JoinAppend(chunks[..k], chunks[k..]);
    assert chunks == chunks[..k] + chunks[k..];
  }

  lemma JoinTake(chunks: seq<seq<byte>>, k: nat)
    requires 0 < k <= |chunks|
    ensures Join(chunks[..k]) == chunks[0] + Join(chunks[1..][..k - 1])
  {
    assert chunks[..k][1..] == chunks[1..][..k - 1];
  }

  /** Once the front is invalid, every push fails with the same rule and delivers nothing. */
  lemma {:induction false} Poisoned(unread: seq<byte>, chunks: seq<seq<byte>>, max: u32)
    requires FrontOf(unread, max).Invalid?
    ensures forall i :: 0 <= i < |chunks| ==>
      Answers(unread, chunks, max)[i] == Failure(FrontOf(unread, max).error)
    ensures Delivered(Answers(unread, chunks, max)) == []
    decreases |chunks|
  {
    hide Encode, Decode, FrontOf;
    if chunks != [] {
      FrontStable(unread, chunks[0], max);
      Poisoned(unread + chunks[0], chunks[1..], max);
      var rs := Answers(unread, chunks, max);
      assert rs[1..] == Answers(unread + chunks[0], chunks[1..], max);
    }
  }

  /**
   * Everything about a session at once: if the first `k` chunks hold no invalid header and the next
   * one, if any, completes one, then exactly the pushes from `k` on fail, and what was delivered is
   * the whole-stream parse of the first `k` chunks.
   */
  lemma {:induction false} SessionFrom(unread: seq<byte>, chunks: seq<seq<byte>>, k: nat, max: u32)
    requires k <= |chunks|
    requires FrontOf(unread, max).Incomplete?
    requires ParseStream(unread + Join(chunks[..k]), max).violation.None?
    requires k < |chunks| ==> ParseStream(unread + Join(chunks[..k + 1]), max).violation.Some?
    ensures Delivered(Answers(unread, chunks, max)) == ParseStream(unread + Join(chunks[..k]), max).frames
    ensures forall i :: 0 <= i < |chunks| ==> (Answers(unread, chunks, max)[i].Failure? <==> i >= k)
    ensures forall i :: k <= i < |chunks| ==>
      Answers(unread, chunks, max)[i] == Failure(ParseStream(unread + Join(chunks[..k + 1]), max).violation.value)
    ensures k == |chunks| ==> UnreadAfter(unread, chunks, max) == ParseStream(unread + Join(chunks), max).rest
    decreases |chunks|
  {
    hide Encode, Decode, FrontOf, ParseStream;
    if chunks == [] {
      assert unread + [] == unread;
      ParseIncomplete(unread, max);
      assert chunks[..k] == [];
    } else {
      var c, tail := chunks[0], chunks[1..];
      var p := ParseStream(unread + c, max);
      var rs := Answers(unread, chunks, max);
      assert rs[1..] == Answers(p.rest, tail, max);
      ParseRest(unread + c, max);
      if k == 0 {
        assert chunks[..0] == [] && unread + [] == unread;
        ParseIncomplete(unread, max);
        JoinTake(chunks, 1);
        assert Join(tail[..0]) == [] && c + [] == c;
        Poisoned(p.rest, tail, max);
      } else {
        Carry(unread, c, chunks, k, max);
        if k < |chunks| {
          Carry(unread, c, chunks, k + 1, max);
        }
        assert p.violation.None? by {
          if p.violation.Some? {
            JoinTake(chunks, k);
            assert unread + Join(chunks[..k]) == (unread + c) + Join(tail[..k - 1]);
            ViolationIsFinal(unread + c, Join(tail[..k - 1]), max);
          }
        }
        SessionFrom(p.rest, tail, k - 1, max);
        if k == |chunks| {
          assert chunks[..k] == chunks && tail[..k - 1] == tail;
        }
      }
    }
  }

  lemma ParseIncomplete(s: seq<byte>, max: u32)
    requires FrontOf(s, max).Incomplete?
    ensures ParseStream(s, max) == Parse([], s, None)
  {
    hide FrontOf;
  }

  lemma Carry(unread: seq<byte>, c: seq<byte>, chunks: seq<seq<byte>>, k: nat, max: u32)
    requires 0 < k <= |chunks| && c == chunks[0]
    ensures var p := ParseStream(unread + c, max);
      var q := ParseStream(p.rest + Join(chunks[1..][..k - 1]), max);
      ParseStream(unread + Join(chunks[..k]), max) == Parse(p.frames + q.frames, q.rest, q.violation)
  {
    hide ParseStream;
    JoinTake(chunks, k);
    ParseAppend(unread + c, Join(chunks[1..][..k - 1]), max);
    assert unread + Join(chunks[..k]) == unread + c + Join(chunks[1..][..k - 1]);
  }

  // Streams without an invalid header

  /** Chunking is invisible, no push fails, and no byte is lost, as long as no header is invalid. */
  lemma ChunkingIndependence(chunks: seq<seq<byte>>, max: u32)
    requires ParseStream(Join(chunks), max).violation.None?
    ensures var rs := Answers([], chunks, max);
      && (forall r <- rs :: r.Success?)
      && Delivered(rs) == ParseStream(Join(chunks), max).frames
      && Wire(Delivered(rs)) + UnreadAfter([], chunks, max) == Join(chunks)
  {
    hide ParseStream, Answers, FrontOf;
    assert FrontOf([], max).Incomplete? by { FrontOfNothing(max); }
    assert chunks[..|chunks|] == chunks && [] + Join(chunks) == Join(chunks);
    SessionFrom([], chunks, |chunks|, max);
    ParseConserves(Join(chunks), max);
  }

  lemma FrontOfNothing(max: u32)
    ensures FrontOf([], max) == Incomplete
  {
  }

  // Streams with an invalid header

  /** How many leading chunks stay below `n` bytes in all. */
  function ChunksBelow(chunks: seq<seq<byte>>, n: nat): nat {
    if chunks == [] || |chunks[0]| >= n then 0 else 1 + ChunksBelow(chunks[1..], n - |chunks[0]|)
  }

  lemma {:induction false} ChunksBelowCuts(chunks: seq<seq<byte>>, n: nat)
    requires 0 < n
    ensures var k := ChunksBelow(chunks, n);
      && k <= |chunks|
      && |Join(chunks[..k])| < n
      && (k < |chunks| ==> |Join(chunks[..k + 1])| >= n)
    decreases |chunks|
  {
    var k := ChunksBelow(chunks, n);
    if k == 0 {
      assert chunks[..0] == [];
      if chunks != [] {
        JoinTake(chunks, 1);
      }
    } else {
      ChunksBelowCuts(chunks[1..], n - |chunks[0]|);
      JoinTake(chunks, k);
      if k < |chunks| {
        JoinTake(chunks, k + 1);
      }
    }
  }

  lemma JoinMonotone(chunks: seq<seq<byte>>, i: nat, j: nat)
    requires i <= j <= |chunks|
    ensures |Join(chunks[..i])| <= |Join(chunks[..j])|
  {
    assert chunks[..j][..i] == chunks[..i];
    JoinPrefix(chunks[..j], i);
  }

  /** The eleven header bytes alone decide that a front is invalid. */
  lemma InvalidByHeader(s: seq<byte>, t: seq<byte>, max: u32)
    requires FrontOf(s + t, max).Invalid? && |s| >= HEADER_SIZE
    ensures FrontOf(s, max) == FrontOf(s + t, max)
  {
    hide Encode, Decode;
    EncodeDecode(s);
    assert s + t == s[..HEADER_SIZE] + (s[HEADER_SIZE..] + t);
    DecodeEncode(Decode(s).value, s[HEADER_SIZE..] + t);
  }

  lemma InvalidParse(s: seq<byte>, fs: seq<Frame>, e: ProtocolError, max: u32)
    requires InvalidAfter(s, fs, e, max)
    ensures ParseStream(s, max) == Parse(fs, s[|Wire(fs)|..], Some(e))
  {
    hide FrontOf, Acceptable;
    var tail := s[|Wire(fs)|..];
    assert ParseStream(tail, max) == Parse([], tail, Some(e));
    ParseWire(fs, tail, max);
    assert Wire(fs) + tail == s;
    assert fs + [] == fs;
  }

  /** The predicate describes every stream with an invalid header, and nothing else. */
  lemma InvalidAfterIff(s: seq<byte>, fs: seq<Frame>, e: ProtocolError, max: u32)
    ensures InvalidAfter(s, fs, e, max)
      <==> ParseStream(s, max).frames == fs && ParseStream(s, max).violation == Some(e)
  {
    hide FrontOf, Acceptable, ParseStream;
    if InvalidAfter(s, fs, e, max) {
      InvalidParse(s, fs, e, max);
    } else {
      var p := ParseStream(s, max);
      ParseConserves(s, max);
      ParseRest(s, max);
      assert s[|Wire(p.frames)|..] == p.rest;
    }
  }

  /** How far a prefix of an invalid stream parses. */
  lemma PrefixOfInvalid(s: seq<byte>, t: seq<byte>, fs: seq<Frame>, e: ProtocolError, max: u32)
    requires InvalidAfter(s + t, fs, e, max)
    ensures var p := ParseStream(s, max);
      && (p.violation.Some? <==> |s| >= |Wire(fs)| + HEADER_SIZE)
      && (p.violation.Some? ==> p.violation == Some(e))
      && (p.frames == fs <==> |s| >= |Wire(fs)|)
      && p.frames <= fs
  {
    hide FrontOf, ParseStream, Acceptable;
    var p := ParseStream(s, max);
    InvalidParse(s + t, fs, e, max);
    ParseAppend(s, t, max);
    ParseConserves(s, max);
    if p.violation.Some? {
      ViolationIsFinal(s, t, max);
    }
    if |s| >= |Wire(fs)| {
      var tail := s[|Wire(fs)|..];
      assert s == Wire(fs) + tail;
      assert (s + t)[|Wire(fs)|..] == tail + t;
      ParseWire(fs, tail, max);
      FrontParse(tail, t, max);
      assert fs + [] == fs;
    }
  }

  lemma FrontParse(s: seq<byte>, t: seq<byte>, max: u32)
    requires FrontOf(s + t, max).Invalid?
    ensures var p := ParseStream(s, max);
      p.frames == [] && (p.violation.Some? <==> |s| >= HEADER_SIZE)
  {
    hide Decode;
    if |s| >= HEADER_SIZE {
      InvalidByHeader(s, t, max);
    }
  }

  lemma CutOfInvalid(chunks: seq<seq<byte>>, k: nat, fs: seq<Frame>, e: ProtocolError, max: u32)
    requires k <= |chunks| && InvalidAfter(Join(chunks), fs, e, max)
    ensures var p := ParseStream([] + Join(chunks[..k]), max);
      && p == ParseStream(Join(chunks[..k]), max)
      && (p.violation.Some? <==> |Join(chunks[..k])| >= |Wire(fs)| + HEADER_SIZE)
      && (p.violation.Some? ==> p.violation == Some(e))
      && (p.frames == fs <==> |Join(chunks[..k])| >= |Wire(fs)|)
  {
    hide ParseStream, InvalidAfter;
    JoinPrefix(chunks, k);
    PrefixOfInvalid(Join(chunks[..k]), Join(chunks[k..]), fs, e, max);
    assert [] + Join(chunks[..k]) == Join(chunks[..k]);
  }

  /**
   * A push fails, always with the rule the first invalid header breaks, exactly when that header's
   * eleventh byte has arrived; what was delivered is the parse of the chunks before that push.
   */
  lemma FailureTiming(chunks: seq<seq<byte>>, fs: seq<Frame>, e: ProtocolError, max: u32)
    requires InvalidAfter(Join(chunks), fs, e, max)
    ensures forall i :: 0 <= i < |chunks| ==>
      (Answers([], chunks, max)[i].Failure? <==> |Join(chunks[..i + 1])| >= |Wire(fs)| + HEADER_SIZE)
    ensures forall r <- Answers([], chunks, max) :: r.Failure? ==> r.error == e
    ensures var k := ChunksBelow(chunks, |Wire(fs)| + HEADER_SIZE);
      && k <= |chunks|
      && Delivered(Answers([], chunks, max)) == ParseStream(Join(chunks[..k]), max).frames
  {
    hide ParseStream, Answers, FrontOf, InvalidAfter;
    var n := |Wire(fs)| + HEADER_SIZE;
    var k := ChunksBelow(chunks, n);
    ChunksBelowCuts(chunks, n);
    FrontOfNothing(max);
    CutOfInvalid(chunks, k, fs, e, max);
    if k < |chunks| {
      CutOfInvalid(chunks, k + 1, fs, e, max);
    }
    SessionFrom([], chunks, k, max);
    forall i | 0 <= i < |chunks|
      ensures Answers([], chunks, max)[i].Failure? <==> |Join(chunks[..i + 1])| >= n
    {
      if i < k {
        JoinMonotone(chunks, i + 1, k);
      } else {
        JoinMonotone(chunks, k + 1, i + 1);
      }
    }
  }

  /**
   * All frames ahead of an invalid header are delivered if and only if some chunk boundary falls
   * after the last of them and before that header is complete. Chunking therefore matters.
   */
  lemma AllDeliveredIff(chunks: seq<seq<byte>>, fs: seq<Frame>, e: ProtocolError, max: u32)
    requires InvalidAfter(Join(chunks), fs, e, max)
    ensures Delivered(Answers([], chunks, max)) == fs <==>
      exists j :: 0 <= j <= |chunks| && |Wire(fs)| <= |Join(chunks[..j])| < |Wire(fs)| + HEADER_SIZE
  {
    hide ParseStream, Answers, FrontOf, InvalidAfter;
    var n := |Wire(fs)| + HEADER_SIZE;
    var k := ChunksBelow(chunks, n);
    ChunksBelowCuts(chunks, n);
    FailureTiming(chunks, fs, e, max);
    CutOfInvalid(chunks, k, fs, e, max);
    if j :| 0 <= j <= |chunks| && |Wire(fs)| <= |Join(chunks[..j])| < n {
      if j > k {
        JoinMonotone(chunks, k + 1, j);
      } else {
        JoinMonotone(chunks, j, k);
      }
    }
  }

  /** The same bytes in two chunkings: pushed at once they deliver nothing, cut at the frame's end they deliver it. */
  lemma ChunkingMatters(f: Frame, bad: seq<byte>, e: ProtocolError, max: u32)
    requires Acceptable(f, max) && FrontOf(bad, max) == Invalid(e)
    ensures Delivered(Answers([], [BuildFrame(f) + bad], max)) == []
    ensures Delivered(Answers([], [BuildFrame(f), bad], max)) == [f]
  {
    hide ParseStream, FrontOf, Acceptable, Encode;
    var s := BuildFrame(f) + bad;
    WireOne(f);
    var two := [BuildFrame(f), bad];
    assert two[1..] == [bad] && bad + [] == bad && [] + s == s;
    assert Join([bad]) == bad + [];
    assert Join(two) == s && s[|Wire([f])|..] == bad;
    InvalidParse(s, [f], e, max);
    AllDeliveredIff(two, [f], e, max);
    assert two[..1] == [BuildFrame(f)] && BuildFrame(f) + [] == BuildFrame(f);
    assert Join(two[..1]) == BuildFrame(f);
  }
}
