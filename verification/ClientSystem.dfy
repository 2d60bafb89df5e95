/**
 * The whole client: request lifecycle and writer run side by side and meet only where the channel
 * accepts a frame. What the parent's parser then sees is stated over every run of the pair.
 */
module ClientSystem {
  import opened Octets
  import opened WireFormat
  import opened Frames
  import opened Chunking
  import opened Writer
  import opened Context
  import L = Lifecycle
  import W = WriterSystem
  import R = Registry
  import S = Sends

  datatype Config = Config(life: L.Config, writer: W.Config)

  datatype State = State(life: L.State, writer: W.State)

  datatype Step =
    | Local(life: L.Step)                    // nothing is handed to the channel
    | InWriter(writer: W.Step)               // nothing is accepted by the channel
    | HandOver(life: L.Step, writer: W.Step) // a call's frame is accepted by the channel

  function Init(c: Config): State {
    State(L.Init(c.life), W.Init(c.writer))
  }

  function LogFrames(log: seq<L.Entry>): (fs: seq<OutboundFrame>)
    ensures |fs| == |log|
    ensures forall i :: 0 <= i < |log| ==> fs[i] == log[i].frame
  {
    seq(|log|, i requires 0 <= i < |log| => log[i].frame)
  }

  /** The frame that a call or `emit` is about to have accepted. */
  function FrameFor(life: L.State, l: L.Step): OutboundFrame
    requires l.Emit? || (l.SendOk? && L.HasCall(life, l.k) && life.calls[l.k].payload.Some?)
  {
    if l.SendOk? then L.CallFrame(life, l.k) else EventFrame(l.eventId, l.data)
  }

  predicate Enabled(c: Config, s: State, st: Step) {
    match st
    case Local(l) => L.Enabled(c.life, s.life, l) && !l.SendOk? && !l.Emit?
    case InWriter(w) => W.Enabled(c.writer, s.writer, w) && !w.Enqueue?
    case HandOver(l, w) =>
      && L.Enabled(c.life, s.life, l) && (l.SendOk? || l.Emit?)
      && W.Enabled(c.writer, s.writer, w) && w.Enqueue?
      && s.writer.senders[w.i].frame == FrameFor(s.life, l)
  }

  function Do(c: Config, s: State, st: Step): State
    requires Enabled(c, s, st)
  {
    match st
    case Local(l) => s.(life := L.Do(c.life, s.life, l))
    case InWriter(w) => s.(writer := W.Do(c.writer, s.writer, w))
    case HandOver(l, w) => State(L.Do(c.life, s.life, l), W.Do(c.writer, s.writer, w))
  }

  ghost predicate Run(c: Config, s: State, steps: seq<Step>, t: State)
    decreases |steps|
  {
    if steps == [] then s == t
    else Enabled(c, s, steps[0]) && Run(c, Do(c, s, steps[0]), steps[1..], t)
  }

  ghost predicate Reachable(c: Config, s: State) {
    exists steps :: Run(c, Init(c), steps, s)
  }

  /** Both halves run lawfully, and the channel accepted exactly what the calls report as sent. */
  ghost predicate Inv(c: Config, s: State) {
    && L.Reachable(c.life, s.life)
    && W.Reachable(c.writer, s.writer)
    && s.writer.accepted == LogFrames(s.life.log)
  }

  lemma StepKeeps(c: Config, s: State, st: Step)
    requires Inv(c, s) && Enabled(c, s, st)
    ensures Inv(c, Do(c, s, st))
  {
    hide L.Reachable, W.Reachable, FrameOf, EventFrame;
    match st
    case Local(l) =>
      var t := L.Extend(c.life, s.life, l);
    case InWriter(w) =>
      W.Then(c.writer, s.writer, w);
    case HandOver(l, w) =>
      var t := L.Extend(c.life, s.life, l);
      W.Then(c.writer, s.writer, w);
      assert LogFrames(t.log) == LogFrames(s.life.log) + [t.log[|s.life.log|].frame];
  }

  lemma {:induction false} RunKeeps(c: Config, s: State, steps: seq<Step>, t: State)
    requires Inv(c, s) && Run(c, s, steps, t)
    ensures Inv(c, t)
    decreases |steps|
  {
    hide Inv, Enabled, Do;
    if steps != [] {
      StepKeeps(c, s, steps[0]);
      RunKeeps(c, Do(c, s, steps[0]), steps[1..], t);
    }
  }

  lemma ReachableInv(c: Config, s: State)
    requires Reachable(c, s)
    ensures Inv(c, s)
  {
    hide L.Reachable, W.Reachable;
    L.InitReachable(c.life);
    W.InitReachable(c.writer);
    assert LogFrames([]) == [];
    var steps :| Run(c, Init(c), steps, s);
    RunKeeps(c, Init(c), steps, s);
  }

  lemma {:induction false} RunThen(c: Config, s: State, steps: seq<Step>, t: State, st: Step)
    requires Run(c, s, steps, t) && Enabled(c, t, st)
    ensures Run(c, s, steps + [st], Do(c, t, st))
    decreases |steps|
  {
    hide Enabled, Do;
    if steps == [] {
      assert steps + [st] == [st];
      assert [st][1..] == [];
    } else {
      RunThen(c, Do(c, s, steps[0]), steps[1..], t, st);
      assert (steps + [st])[1..] == steps[1..] + [st];
    }
  }

  lemma Then(c: Config, s: State, st: Step)
    requires Reachable(c, s) && Enabled(c, s, st)
    ensures Reachable(c, Do(c, s, st))
  {
    hide Enabled, Do;
    var steps :| Run(c, Init(c), steps, s);
    RunThen(c, Init(c), steps, s, st);
  }

  lemma InitReachable(c: Config)
    ensures Reachable(c, Init(c))
  {
    assert Run(c, Init(c), [], Init(c));
  }

  /**
   * The hand-over works for every call and every event: an idle sender below the limit, with room in
   * the channel, takes the frame from the call to the queue, and the call reports success.
   */
  lemma GetsAccepted(c: Config, s: State, l: L.Step, i: nat)
    requires L.Enabled(c.life, s.life, l) && (l.SendOk? || l.Emit?)
    requires S.Sending(s.writer, i, FrameFor(s.life, l), W.Send(i, FrameFor(s.life, l)))
    requires s.writer.pending < c.writer.maxPending && S.HasRoom(c.writer, s.writer)
    ensures var f := FrameFor(s.life, l);
      Run(c, s, [InWriter(W.Send(i, f)), InWriter(W.Increment(i)), HandOver(l, W.Enqueue(i))],
          State(L.Do(c.life, s.life, l), S.Queued(s.writer, f)))
  {
    hide Run, FrameFor, L.Do, W.Enabled, W.Do, S.Sending, S.Queued, S.HasRoom;
    var f := FrameFor(s.life, l);
    var a, b, d := InWriter(W.Send(i, f)), InWriter(W.Increment(i)), HandOver(l, W.Enqueue(i));
    NoSteps(c, s);
    WriterPart(c, s, f, i);
    RunThen(c, s, [], s, a);
    var u := Do(c, s, a);
    assert [] + [a] == [a] && [a] + [b] == [a, b] && [a, b] + [d] == [a, b, d];
    RunThen(c, s, [a], u, b);
    u := Do(c, u, b);
    RunThen(c, s, [a, b], u, d);
  }

  /** The sender's own steps. */
  lemma WriterPart(c: Config, s: State, f: OutboundFrame, i: nat)
    requires S.Sending(s.writer, i, f, W.Send(i, f))
    requires s.writer.pending < c.writer.maxPending && S.HasRoom(c.writer, s.writer)
    ensures W.Enabled(c.writer, s.writer, W.Send(i, f))
    ensures var w1 := W.Do(c.writer, s.writer, W.Send(i, f));
      && W.Enabled(c.writer, w1, W.Increment(i))
      && var w2 := W.Do(c.writer, w1, W.Increment(i));
        && W.Enabled(c.writer, w2, W.Enqueue(i)) && w2.senders[i].frame == f
        && W.Do(c.writer, w2, W.Enqueue(i)) == S.Queued(s.writer, f)
  {
    hide Flatten;
    assert s.writer.senders[i := W.Passed(f, true)][i := W.Reserved(f, true)][i := W.Idle] == s.writer.senders;
  }

  /** An event is never held up by requests: it gets accepted in the same way from every state. */
  lemma EventAccepted(c: Config, s: State, eventId: u16, data: seq<byte>, i: nat)
    requires eventId >= 1 && S.Sending(s.writer, i, EventFrame(eventId, data), W.Send(i, EventFrame(eventId, data)))
    requires s.writer.pending < c.writer.maxPending && S.HasRoom(c.writer, s.writer)
    ensures var f := EventFrame(eventId, data);
      Run(c, s, [InWriter(W.Send(i, f)), InWriter(W.Increment(i)), HandOver(L.Emit(eventId, data), W.Enqueue(i))],
          State(s.life.(log := s.life.log + [L.Entry(f, L.ByEmit(eventId, data))]), S.Queued(s.writer, f)))
  {
    hide Run, EventFrame;
    GetsAccepted(c, s, L.Emit(eventId, data), i);
  }

  function InWriterAll(ws: seq<W.Step>): (steps: seq<Step>)
    ensures |steps| == |ws| && forall i :: 0 <= i < |ws| ==> steps[i] == InWriter(ws[i])
  {
    seq(|ws|, i requires 0 <= i < |ws| => InWriter(ws[i]))
  }

  /** The writer runs on whatever the requests do. */
  lemma {:induction false} WriterRuns(c: Config, s: State, ws: seq<W.Step>, w: W.State)
    requires W.Run(c.writer, s.writer, ws, w) && forall st <- ws :: !st.Enqueue?
    ensures Run(c, s, InWriterAll(ws), s.(writer := w))
    decreases |ws|
  {
    hide W.Enabled, W.Do;
    if ws != [] {
      assert ws[0] in ws;
      WriterRuns(c, Do(c, s, InWriter(ws[0])), ws[1..], w);
      assert InWriterAll(ws)[1..] == InWriterAll(ws[1..]);
    } else {
      assert s.(writer := w) == s;
    }
  }

  lemma NoSteps(c: Config, s: State)
    ensures Run(c, s, [], s)
  {
  }

  ghost predicate PayloadsFit(log: seq<L.Entry>, max: u32) {
    forall e <- log :: |e.frame.payload| <= PayloadLimit(max)
  }

  /** Every accepted frame whose payload fits is one the parent can accept. */
  lemma LogDeliverable(c: L.Config, s: L.State, max: u32)
    requires L.Reachable(c, s) && PayloadsFit(s.log, max)
    ensures AllDeliverable(LogFrames(s.log), max)
  {
    hide L.Reachable, Inbound, Acceptable, FrameOf, EventFrame, L.PermitsExact, L.ActiveSound;
    L.ReachableInv(c, s);
    var fs := InboundAll(LogFrames(s.log));
    forall j | 0 <= j < |fs|
      ensures Acceptable(fs[j], max)
    {
      assert L.EntrySound(s, j);
      var frame := s.log[j].frame;
      assert s.log[j] in s.log;
      match s.log[j].origin
      case ByEmit(id, data) =>
        EventEchoes(id, data);
        assert Inbound(frame).payload == frame.payload by { InboundPayload(frame); }
        EventClosure(id, data, max);
      case ByCall(k) =>
        assert L.HasCall(s, k);
        var ctx, op, payload := s.tasks[s.calls[k].task].ctx, s.calls[k].op, s.calls[k].payload.value;
        FrameEchoes(ctx, op, payload);
        assert Inbound(frame).payload == frame.payload by { InboundPayload(frame); }
        OutputClosure(ctx, op, payload, max);
    }
  }

  lemma InboundPayload(o: OutboundFrame)
    ensures Inbound(o).payload == o.payload
  {
  }

  /** The requests admitted under `id` over the session, as task numbers. */
  function Carriers(s: L.State, id: u32): set<nat> {
    set t: nat | t < |s.tasks| && s.tasks[t].ctx.requestId == id
  }

  /** The positions of the terminal frames for `id`. */
  function TerminalsFor(fs: seq<Frame>, id: u32): set<nat> {
    set i: nat | i < |fs| && TerminalFrame(fs[i]) && fs[i].header.requestId == id
  }

  lemma {:induction false} InjectionBound(a: set<nat>, b: set<nat>, f: map<nat, nat>)
    requires a <= f.Keys
    requires forall i <- a :: f[i] in b
    requires forall i, j :: i in a && j in a && i != j ==> f[i] != f[j]
    ensures |a| <= |b|
  {
    if i :| i in a {
      InjectionBound(a - {i}, b - {f[i]}, f);
    }
  }

  /**
   * What the parent sees. For every run of the client and every cutting of the bytes on the way, the
   * parent's parser never fails, delivers a prefix of the frames the calls sent, in order, and in it,
   * for every id, at most as many terminal frames as requests were admitted under that id.
   */
  lemma ParentView(c: Config, s: State, chunks: seq<seq<byte>>, max: u32)
    requires Reachable(c, s) && PayloadsFit(s.life.log, max) && Join(chunks) <= s.writer.wire
    ensures var rs := Answers([], chunks, max);
      && (forall r <- rs :: r.Success?)
      && Delivered(rs) <= InboundAll(LogFrames(s.life.log))
      && (Join(chunks) == s.writer.wire && s.writer.pending == 0 ==>
            Delivered(rs) == InboundAll(LogFrames(s.life.log)))
    ensures forall id: u32 ::
      |TerminalsFor(Delivered(Answers([], chunks, max)), id)| <= |Carriers(s.life, id)|
  {
    hide Reachable, L.Reachable, W.Reachable, Answers, Delivered, Inbound, PayloadsFit, AllDeliverable, TerminalsFor;
    ReachableInv(c, s);
    LogDeliverable(c.life, s.life, max);
    W.EndToEnd(c.writer, s.writer, chunks, max);
    forall id: u32
      ensures |TerminalsFor(Delivered(Answers([], chunks, max)), id)| <= |Carriers(s.life, id)|
    {
      TerminalsBound(c.life, s.life, Delivered(Answers([], chunks, max)), id);
    }
  }

  /** Terminal frames for an id come from distinct requests carrying it. */
  lemma TerminalsBound(c: L.Config, s: L.State, fs: seq<Frame>, id: u32)
    requires L.Reachable(c, s) && fs <= InboundAll(LogFrames(s.log))
    ensures |TerminalsFor(fs, id)| <= |Carriers(s, id)|
  {
    hide L.Reachable, Inbound, TerminalFrame;
    var a := TerminalsFor(fs, id);
    forall i | i in a
      ensures i < |s.log| && fs[i] == Inbound(s.log[i].frame)
      ensures L.TaskOf(s, i).Some? && L.TaskOf(s, i).value in Carriers(s, id)
    {
      assert fs[i] == InboundAll(LogFrames(s.log))[i];
      L.TerminalEntry(c, s, i);
    }
    var f := map i | i in a :: L.TaskOf(s, i).value;
    forall i, j | i in a && j in a && i != j
      ensures f[i] != f[j]
    {
      if f[i] == f[j] {
        L.AtMostOneTerminal(c, s, i, j);
      }
    }
    InjectionBound(a, Carriers(s, id), f);
  }

  /** A lifecycle run underlies every run of the pair. */
  lemma {:induction false} LifeRun(c: Config, s: State, steps: seq<Step>, u: State) returns (ls: seq<L.Step>)
    requires Run(c, s, steps, u)
    ensures L.Run(c.life, s.life, ls, u.life)
    decreases |steps|
  {
    hide L.Enabled, L.Do, W.Enabled, W.Do;
    if steps == [] {
      return [];
    }
    ls := LifeRun(c, Do(c, s, steps[0]), steps[1..], u);
    if !steps[0].InWriter? {
      assert ([steps[0].life] + ls)[1..] == ls;
      ls := [steps[0].life] + ls;
    }
  }

  /**
   * If a call had returned before another was made and both were sent, the parent reads the first
   * one's frame before the second one's, whatever else is interleaved and however the bytes are cut.
   */
  lemma AwaitedCallsArriveInOrder(c: Config, s: State, steps: seq<Step>, u: State, first: nat, second: nat,
                                  chunks: seq<seq<byte>>, max: u32)
    requires Reachable(c, s) && Run(c, s, steps, u)
    requires first < |s.life.calls| && L.Returned(s.life.calls[first].phase)
    requires |s.life.calls| <= second < |u.life.calls|
    requires PayloadsFit(u.life.log, max) && Join(chunks) <= u.writer.wire
    ensures first < |u.life.calls|
    ensures u.life.calls[first].phase.Sent? && u.life.calls[second].phase.Sent? ==>
      var fs := Delivered(Answers([], chunks, max));
      var i, j := u.life.calls[first].phase.at, u.life.calls[second].phase.at;
      && i < j < |u.life.log|
      && u.life.log[i].origin == L.ByCall(first) && u.life.log[j].origin == L.ByCall(second)
      && (j < |fs| ==> fs[i] == Inbound(u.life.log[i].frame) && fs[j] == Inbound(u.life.log[j].frame))
  {
    hide Run, Reachable, L.Reachable, L.Run, W.Reachable, Answers, Delivered, Inbound, PayloadsFit, AllDeliverable;
    ReachableInv(c, s);
    var ls := LifeRun(c, s, steps, u);
    RunKeeps(c, s, steps, u);
    L.AwaitedInOrder(c.life, s.life, ls, u.life, first, second);
    L.ReachableInv(c.life, u.life);
    LogDeliverable(c.life, u.life, max);
    W.EndToEnd(c.writer, u.writer, chunks, max);
  }

  /**
   * With the types the registry holds, an automatic error that reached the writer is on the stream
   * channel exactly when the last registration under the requested id's name is a stream method.
   */
  lemma ErrorChannelFollowsRegistry<H>(rs: seq<R.Registration<H>>, c: L.Config, s: L.State, t: nat)
    requires |rs| < R.FIRST_RESERVED_ID && c.types == R.TypesById(R.After(rs))
    requires L.Reachable(c, s) && t < |s.tasks| && L.FinishedWithErr(s.tasks[t].phase)
    ensures s.tasks[t].claimer.Some?
    ensures var k, id := s.tasks[t].claimer.value, s.tasks[t].ctx.methodId;
      && k < |s.calls|
      && (s.calls[k].op.Error? && s.calls[k].phase.Sent? ==>
            && s.calls[k].phase.at < |s.log|
            && Inbound(s.log[s.calls[k].phase.at].frame).header.flags
               == (if R.LastIsStream(rs, id) then 0x0F else 0x07))
  {
    hide L.Reachable, Inbound, R.After, R.TypesById;
    L.FailureAnswered(c, s, t);
    var id := s.tasks[t].ctx.methodId;
    L.ReachableInv(c, s);
    R.TypesReachLast(rs, id);
  }
}
