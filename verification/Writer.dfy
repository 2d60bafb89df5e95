/** The writer task: batching, vectored writes and recovery from partial writes. */
module Writer {
  import opened Results
  import opened Octets
  import opened Sequences
  import opened WireFormat
  import opened Frames

  const MAX_BATCH_SIZE := 64

  type HeaderBytes = s: seq<byte> | |s| == HEADER_SIZE witness seq(HEADER_SIZE, _ => 0)

  /** A frame ready to be written: its header is already encoded. */
  datatype OutboundFrame = OutboundFrame(header: HeaderBytes, payload: seq<byte>)

  function Bytes(f: OutboundFrame): (s: seq<byte>)
    ensures |s| == HEADER_SIZE + |f.payload|
  {
    f.header + f.payload
  }

  function Flatten(batch: seq<OutboundFrame>): seq<byte> {
    if batch == [] then [] else Bytes(batch[0]) + Flatten(batch[1..])
  }

  /** The bytes a scatter/gather write offers. */
  function Gather(slices: seq<seq<byte>>): seq<byte> {
    if slices == [] then [] else slices[0] + Gather(slices[1..])
  }

  ghost predicate NoEmptySlice(slices: seq<seq<byte>>) {
    forall s <- slices :: s != []
  }

  /** `s` without its first `n` bytes; nothing when it has no more than that. */
  function DropUpTo(s: seq<byte>, n: nat): seq<byte> {
    if n < |s| then s[n..] else []
  }

  lemma {:induction false} FlattenAppend(a: seq<OutboundFrame>, b: seq<OutboundFrame>)
    ensures Flatten(a + b) == Flatten(a) + Flatten(b)
  {
    hide Bytes;
    if a == [] {
      assert a + b == b;
    } else {
      FlattenAppend(a[1..], b);
      TailOfConcat(a, b);
      ConcatAssoc(Bytes(a[0]), Flatten(a[1..]), Flatten(b));
    }
  }

  lemma FlattenNothing()
    ensures Flatten([]) == []
  {
  }

  lemma FlattenNext(batch: seq<OutboundFrame>, i: nat)
    requires i < |batch|
    ensures Flatten(batch[..i + 1]) == Flatten(batch[..i]) + Bytes(batch[i])
    ensures |Flatten(batch[..i + 1])| <= |Flatten(batch)|
  {
    FlattenAppend(batch[..i], [batch[i]]);
    assert batch[..i + 1] == batch[..i] + [batch[i]];
    assert Flatten([batch[i]]) == Bytes(batch[i]) + [];
    FlattenAppend(batch[..i + 1], batch[i + 1..]);
    assert batch == batch[..i + 1] + batch[i + 1..];
  }

  lemma {:induction false} GatherNext(slices: seq<seq<byte>>, s: seq<byte>)
    ensures Gather(slices + [s]) == Gather(slices) + s
  {
    if slices == [] {
      assert slices + [s] == [s];
      assert Gather([s]) == s + [];
    } else {
      GatherNext(slices[1..], s);
      TailOfConcat(slices, [s]);
      ConcatAssoc(slices[0], Gather(slices[1..]), s);
    }
  }

  /** The frame a peer reads from an outbound frame's bytes. */
  function Inbound(o: OutboundFrame): Frame {
    Frame(Decode(o.header).value, o.payload)
  }

  function InboundAll(os: seq<OutboundFrame>): (fs: seq<Frame>)
    ensures |fs| == |os|
    ensures forall i :: 0 <= i < |os| ==> fs[i] == Inbound(os[i])
  {
    if os == [] then [] else [Inbound(os[0])] + InboundAll(os[1..])
  }

  lemma {:induction false} FlattenIsWire(os: seq<OutboundFrame>)
    ensures Flatten(os) == Wire(InboundAll(os))
  {
    hide Encode, Decode;
    if os != [] {
      FlattenIsWire(os[1..]);
      EncodeDecode(os[0].header);
      assert BuildFrame(Inbound(os[0])) == Bytes(os[0]);
      assert InboundAll(os)[1..] == InboundAll(os[1..]);
    }
  }

  lemma InboundAppend(a: seq<OutboundFrame>, b: seq<OutboundFrame>)
    ensures InboundAll(a + b) == InboundAll(a) + InboundAll(b)
  {
  }

  ghost predicate AllDeliverable(os: seq<OutboundFrame>, max: u32) {
    AllAcceptable(InboundAll(os), max)
  }

  lemma SplitAt(all: seq<OutboundFrame>, i: nat, n: nat)
    requires i + n <= |all|
    ensures var batch := all[i..i + n];
      && Flatten(all[i..]) == Flatten(batch) + Flatten(all[i + n..])
      && Flatten(all[..i + n]) == Flatten(all[..i]) + Flatten(batch)
  {
    hide Flatten;
    var batch := all[i..i + n];
    FlattenAppend(batch, all[i + n..]);
    assert all[i..] == batch + all[i + n..];
    FlattenAppend(all[..i], batch);
    assert all[..i + n] == all[..i] + batch;
  }

  datatype IoError = WriteZero | Broken

  /** What a writer that stops exactly when the sink gives out reports. */
  function Outcome(refusal: Option<IoError>): Result<(), IoError> {
    match refusal
    case None => Success(())
    case Some(e) => Failure(e)
  }

  /** The write half of the pipe: it takes any prefix of what it is offered, or fails. */
  class Sink {
    ghost var received: seq<byte>
    /** How the sink last gave out: by an error of its own, or by taking nothing. */
    ghost var refusal: Option<IoError>
    /** Nothing was taken since the last flush. */
    ghost var flushed: bool

    method WriteVectored(slices: seq<seq<byte>>) returns (r: Result<nat, IoError>)
      modifies this
      ensures r.Success? ==> r.value <= |Gather(slices)| && received == old(received) + Gather(slices)[..r.value]
      ensures r.Success? ==> refusal == if r.value == 0 then Some(WriteZero) else old(refusal)
      ensures r.Failure? ==> r.error == Broken && received == old(received) && refusal == Some(Broken)
    {
      if * {
        refusal := Some(Broken);
        return Failure(Broken);
      }
      var n: nat :| n <= |Gather(slices)|;
      received := received + Gather(slices)[..n];
      flushed := flushed && n == 0;
      refusal := if n == 0 then Some(WriteZero) else refusal;
      return Success(n);
    }

    method Flush() returns (r: Result<(), IoError>)
      modifies `refusal, `flushed
      ensures r.Success? ==> r == Success(()) && refusal == old(refusal) && flushed
      ensures r.Failure? ==> r.error == Broken && refusal == Some(Broken)
    {
      if * {
        refusal := Some(Broken);
        return Failure(Broken);
      }
      flushed := true;
      return Success(());
    }
  }

  lemma DropConcat(a: seq<byte>, b: seq<byte>, n: nat)
    ensures DropUpTo(a + b, n)
         == DropUpTo(a, n) + if n < |a| + |b| then b[SaturatingSub(n, |a|)..] else []
  {
    if n < |a| {
      assert (a + b)[n..] == a[n..] + b;
    }
  }

  /** The slices still to be written once `skipBytes` of the batch are out. */
  method BuildRemainingSlices(batch: seq<OutboundFrame>, skipBytes: nat) returns (slices: seq<seq<byte>>)
    ensures Gather(slices) == DropUpTo(Flatten(batch), skipBytes)
    ensures NoEmptySlice(slices)
  {
    hide Gather, Flatten, DropUpTo;
    slices := [];
    var skipped := 0;
    GatherNothing(skipBytes);
    FlattenNothing();
    assert batch[..0] == [];
    for i := 0 to |batch|
      invariant skipped == |Flatten(batch[..i])|
      invariant Gather(slices) == DropUpTo(Flatten(batch[..i]), skipBytes)
      invariant NoEmptySlice(slices)
    {
      var frame := batch[i];
      ghost var before := Flatten(batch[..i]);
      FlattenNext(batch, i);
      var headerStart := skipped;
      var headerEnd := skipped + HEADER_SIZE;
      DropConcat(before, frame.header, skipBytes);
      if skipBytes < headerEnd {
        var startInHeader := SaturatingSub(skipBytes, headerStart);
        GatherNext(slices, frame.header[startInHeader..]);
        slices := slices + [frame.header[startInHeader..]];
      }
      skipped := headerEnd;
      assert Gather(slices) == DropUpTo(before + frame.header, skipBytes);
      if frame.payload != [] {
        var payloadStart := skipped;
        var payloadEnd := skipped + |frame.payload|;
        DropConcat(before + frame.header, frame.payload, skipBytes);
        if skipBytes < payloadEnd {
          var startInPayload := SaturatingSub(skipBytes, payloadStart);
          GatherNext(slices, frame.payload[startInPayload..]);
          slices := slices + [frame.payload[startInPayload..]];
        }
        skipped := payloadEnd;
      } else {
        assert before + frame.header + frame.payload == before + frame.header;
      }
      assert before + frame.header + frame.payload == before + Bytes(frame);
    }
    assert batch[..|batch|] == batch;
  }

  lemma GatherNothing(n: nat)
    ensures Gather([]) == DropUpTo([], n)
  {
  }

  function SaturatingSub(a: nat, b: nat): nat {
    if a < b then 0 else a - b
  }

  /** The slices of a batch of which nothing is written yet. */
  method BuildSlices(batch: seq<OutboundFrame>) returns (slices: seq<seq<byte>>)
    ensures Gather(slices) == Flatten(batch)
    ensures NoEmptySlice(slices)
  {
    slices := [];
    for i := 0 to |batch|
      invariant Gather(slices) == Flatten(batch[..i])
      invariant NoEmptySlice(slices)
    {
      FlattenNext(batch, i);
      GatherNext(slices, batch[i].header);
      slices := slices + [batch[i].header];
      if batch[i].payload != [] {
        GatherNext(slices, batch[i].payload);
        slices := slices + [batch[i].payload];
      }
    }
    assert batch[..|batch|] == batch;
  }

  method TotalSize(batch: seq<OutboundFrame>) returns (n: nat)
    ensures n == |Flatten(batch)|
  {
    n := 0;
    for i := 0 to |batch|
      invariant n == |Flatten(batch[..i])|
    {
      FlattenNext(batch, i);
      n := n + HEADER_SIZE + |batch[i].payload|;
    }
    assert batch[..|batch|] == batch;
  }

  /**
   * Success means the sink got exactly the batch and was flushed; failure means it got a prefix of it. A partial write
   * is no failure: the batch fails only if the sink errs or takes nothing, and reports just that.
   */
  method WriteBatch(sink: Sink, batch: seq<OutboundFrame>) returns (r: Result<(), IoError>)
    modifies sink
    ensures r.Success? ==> sink.received == old(sink.received) + Flatten(batch) && (batch != [] ==> sink.flushed)
    ensures r.Failure? ==> exists n ::
      && 0 <= n <= |Flatten(batch)|
      && sink.received == old(sink.received) + Flatten(batch)[..n]
    ensures old(sink.refusal).None? ==> r == Outcome(sink.refusal)
  {
    if batch == [] {
      return Success(());
    }
    ghost var all := Flatten(batch);
    var slices := BuildSlices(batch);
    var totalSize := TotalSize(batch);
    assert totalSize >= |Bytes(batch[0])|;

    assert old(sink.received) == old(sink.received) + all[..0];
    var first := sink.WriteVectored(slices);
    if first.Failure? {
      return Failure(first.error);
    }
    if first.value == totalSize {
      r := sink.Flush();
      return;
    }
    if first.value == 0 {
      return Failure(WriteZero);
    }

    var totalWritten := first.value;
    while totalWritten < totalSize
      invariant totalWritten <= totalSize
      invariant sink.received == old(sink.received) + all[..totalWritten]
      invariant old(sink.refusal).None? ==> sink.refusal.None?
      decreases totalSize - totalWritten
    {
      var remaining := BuildRemainingSlices(batch, totalWritten);
      if remaining == [] {
        break;
      }
      var written := sink.WriteVectored(remaining);
      if written.Failure? {
        return Failure(written.error);
      }
      if written.value == 0 {
        return Failure(WriteZero);
      }
      assert all[..totalWritten] + all[totalWritten..][..written.value] == all[..totalWritten + written.value];
      totalWritten := totalWritten + written.value;
    }
    r := sink.Flush();
  }

  /** A write broke off `n` bytes into a batch of `size` frames, with the first `done` frames of `rx` out before it. */
  ghost predicate TornAt(rx: seq<OutboundFrame>, done: nat, size: nat, n: nat, before: seq<byte>, after: seq<byte>) {
    && 1 <= size <= MAX_BATCH_SIZE && done + size <= |rx|
    && n <= |Flatten(rx[done..done + size])|
    && after == before + Flatten(rx[..done]) + Flatten(rx[done..done + size])[..n]
  }

  /** The writer task, draining the channel; `rx` holds what the senders queue before they all hang up. */
  class WriterTask {
    const sink: Sink
    var rx: seq<OutboundFrame>
    var pending: nat

    constructor (sink: Sink, rx: seq<OutboundFrame>, pending: nat)
      ensures this.sink == sink && this.rx == rx && this.pending == pending
    {
      this.sink := sink;
      this.rx := rx;
      this.pending := pending;
    }

    /**
     * Takes the first queued frame and then every frame that is ready, 64 in all at most; `ready` says
     * how many of `rx` the senders have queued by now.
     */
    method CollectBatch(ready: nat) returns (batch: seq<OutboundFrame>)
      requires 1 <= ready <= |rx|
      modifies `rx
      ensures |batch| == if ready < MAX_BATCH_SIZE then ready else MAX_BATCH_SIZE
      ensures old(rx) == batch + rx
    {
      batch := [rx[0]];
      rx := rx[1..];
      while |batch| < MAX_BATCH_SIZE
        invariant 1 <= |batch| <= MAX_BATCH_SIZE && |batch| <= ready
        invariant old(rx) == batch + rx
        decreases MAX_BATCH_SIZE - |batch|
      {
        if |batch| == ready {
          break;
        }
        batch := batch + [rx[0]];
        rx := rx[1..];
      }
    }

    /**
     * Writes whole batches in order until the channel closes. A failure writes at most part of one
     * batch and leaves the counter as it was before it: that batch, and the frames still queued, are
     * never subtracted. It fails exactly when the sink gives out.
     */
    method Loop() returns (r: Result<(), IoError>)
      requires pending >= |rx|
      modifies this, sink
      ensures r.Success? ==>
        && sink.received == old(sink.received) + Flatten(old(rx))
        && pending == old(pending) - |old(rx)|
        && (old(rx) != [] ==> sink.flushed)
      ensures r.Failure? ==> exists done: nat, size: nat, n: nat ::
        && TornAt(old(rx), done, size, n, old(sink.received), sink.received)
        && pending == old(pending) - done
      ensures old(sink.refusal).None? ==> r == Outcome(sink.refusal)
    {
      hide Flatten;
      ghost var all := rx;
      ghost var done := 0;
      assert all[..0] == [];
      FlattenNothing();
      while rx != []
        invariant 0 <= done <= |all| && rx == all[done..]
        invariant pending == old(pending) - done
        invariant sink.received == old(sink.received) + Flatten(all[..done])
        invariant done > 0 ==> sink.flushed
        invariant old(sink.refusal).None? ==> sink.refusal.None?
        decreases |rx|
      {
        var ready: nat :| 1 <= ready <= |rx|;
        var batch := CollectBatch(ready);
        assert batch == all[done..done + |batch|];
        var batchSize := |batch|;
        var w := WriteBatch(sink, batch);
        SplitAt(all, done, batchSize);
        if w.Failure? {
          ghost var n :| 0 <= n <= |Flatten(batch)|
            && sink.received == old(sink.received) + Flatten(all[..done]) + Flatten(batch)[..n];
          assert TornAt(all, done, batchSize, n, old(sink.received), sink.received);
          return Failure(w.error);
        }
        assert sink.received == old(sink.received) + (Flatten(all[..done]) + Flatten(batch));
        pending := pending - batchSize;
        done := done + batchSize;
      }
      assert all[..done] == all;
      return Success(());
    }
  }
}
