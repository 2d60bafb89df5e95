/** What becomes of a send: alone from any state, and under backpressure until the writer has caught up. */
module Sends {
  import opened Sequences
  import opened Writer
  import opened WriterSystem

  lemma RunOne(c: Config, s: State, st: Step)
    requires Enabled(c, s, st)
    ensures Run(c, s, [st], Do(c, s, st))
  {
    hide Enabled, Do;
    assert [st][1..] == [];
  }

  lemma RunTwo(c: Config, s: State, a: Step, b: Step)
    requires Enabled(c, s, a) && Enabled(c, Do(c, s, a), b)
    ensures Run(c, s, [a, b], Do(c, Do(c, s, a), b))
  {
    hide Enabled, Do;
    RunOne(c, Do(c, s, a), b);
    assert [a, b][1..] == [b];
  }

  lemma RunThree(c: Config, s: State, a: Step, b: Step, d: Step)
    requires Enabled(c, s, a) && Enabled(c, Do(c, s, a), b) && Enabled(c, Do(c, Do(c, s, a), b), d)
    ensures Run(c, s, [a, b, d], Do(c, Do(c, Do(c, s, a), b), d))
  {
    hide Enabled, Do;
    RunTwo(c, Do(c, s, a), b, d);
    assert [a, b, d][1..] == [b, d];
  }

  /** A call of `send` or `try_send` that sender `i` may make. */
  predicate Sending(s: State, i: nat, frame: OutboundFrame, call: Step) {
    i < |s.senders| && s.senders[i].Idle? && !s.hungUp && (call == Send(i, frame) || call == TrySend(i, frame))
  }

  /** The frame is counted and last in the queue. */
  function Queued(s: State, frame: OutboundFrame): State {
    s.(pending := s.pending + 1, queue := s.queue + [frame], accepted := s.accepted + [frame])
  }

  predicate HasRoom(c: Config, s: State) {
    ReceiverAlive(s) && |s.queue| < c.capacity
  }

  // One call, with nobody else moving

  /** Below the limit and with room in the channel, either kind of send gets its frame queued. */
  lemma GoesThrough(c: Config, s: State, i: nat, frame: OutboundFrame, call: Step)
    requires Sending(s, i, frame, call) && s.pending < c.maxPending && HasRoom(c, s)
    ensures Run(c, s, [call, Increment(i), Enqueue(i)], Queued(s, frame))
  {
    hide Run;
    RunThree(c, s, call, Increment(i), Enqueue(i));
    assert s.senders[i := Passed(frame, call.Send?)][i := Reserved(frame, call.Send?)][i := Idle] == s.senders;
  }

  /** At the limit `try_send` gives up at once, and `send` waits until it times out; neither leaves a trace. */
  lemma AtTheLimit(c: Config, s: State, i: nat, frame: OutboundFrame)
    requires Sending(s, i, frame, Send(i, frame)) && s.pending >= c.maxPending
    ensures Run(c, s, [TrySend(i, frame)], s)
    ensures Run(c, s, [Send(i, frame), Poll(i)], s.(senders := s.senders[i := Waiting(frame)]))
    ensures Run(c, s, [Send(i, frame), Poll(i), TimeOut(i)], s)
  {
    hide Run;
    RunOne(c, s, TrySend(i, frame));
    RunTwo(c, s, Send(i, frame), Poll(i));
    RunThree(c, s, Send(i, frame), Poll(i), TimeOut(i));
    assert s.senders[i := Idle] == s.senders;
    assert s.senders[i := Waiting(frame)][i := Waiting(frame)] == s.senders[i := Waiting(frame)];
    assert s.senders[i := Waiting(frame)][i := Idle] == s.senders;
  }

  /** Having seen the limit, a sender can run into its timeout, even if the counter has dropped since. */
  lemma CanTimeOut(c: Config, s: State, i: nat)
    requires i < |s.senders| && s.senders[i].Waiting?
    ensures Run(c, s, [TimeOut(i)], s.(senders := s.senders[i := Idle]))
  {
    hide Run;
    RunOne(c, s, TimeOut(i));
  }

  /** A waiting sender gets its frame queued as soon as it finds the counter below the limit. */
  lemma WaiterGoesThrough(c: Config, s: State, i: nat)
    requires i < |s.senders| && s.senders[i].Waiting? && s.pending < c.maxPending && HasRoom(c, s)
    ensures Run(c, s, [Poll(i), Increment(i), Enqueue(i)],
                Queued(s.(senders := s.senders[i := Idle]), s.senders[i].frame))
  {
    hide Run;
    var frame := s.senders[i].frame;
    RunThree(c, s, Poll(i), Increment(i), Enqueue(i));
    assert s.senders[i := Passed(frame, true)][i := Reserved(frame, true)][i := Idle] == s.senders[i := Idle];
  }

  /** When the channel is closed, or full for a `try_send`, the slot is given back and nothing is left of the call. */
  lemma GivesBack(c: Config, s: State, i: nat, frame: OutboundFrame, call: Step)
    requires Sending(s, i, frame, call) && s.pending < c.maxPending
    requires !ReceiverAlive(s) || (call.TrySend? && |s.queue| >= c.capacity)
    ensures Run(c, s, [call, Increment(i), Refuse(i), Undo(i)], s)
  {
    hide Run;
    var s1 := Do(c, s, call);
    RunThree(c, s1, Increment(i), Refuse(i), Undo(i));
    assert s.senders[i := Passed(frame, call.Send?)][i := Reserved(frame, call.Send?)][i := Refused][i := Idle]
        == s.senders;
    StepThenRun(c, s, call, [Increment(i), Refuse(i), Undo(i)], s);
    assert [call] + [Increment(i), Refuse(i), Undo(i)] == [call, Increment(i), Refuse(i), Undo(i)];
  }

  lemma StepThenRun(c: Config, s: State, st: Step, more: seq<Step>, u: State)
    requires Enabled(c, s, st) && Run(c, Do(c, s, st), more, u)
    ensures Run(c, s, [st] + more, u)
  {
    hide Enabled, Do;
    assert ([st] + more)[1..] == more;
  }

  /**
   * With the channel full but open, `send`, delayed or not, holds its slot and waits: it is refused
   * only if the receiver goes, and accepted only once there is room.
   */
  lemma BlocksWhenFull(c: Config, s: State, i: nat, frame: OutboundFrame, first: Step)
    requires i < |s.senders| && s.pending < c.maxPending && ReceiverAlive(s) && |s.queue| >= c.capacity
    requires if s.senders[i].Waiting? then first == Poll(i) && frame == s.senders[i].frame
             else Sending(s, i, frame, first) && first.Send?
    ensures var u := s.(pending := s.pending + 1, senders := s.senders[i := Reserved(frame, true)]);
      && Run(c, s, [first, Increment(i)], u)
      && !Enabled(c, u, Refuse(i)) && !Enabled(c, u, Enqueue(i))
      && forall t: State :: t.senders == u.senders ==>
           (Enabled(c, t, Refuse(i)) <==> !ReceiverAlive(t)) && (Enabled(c, t, Enqueue(i)) <==> HasRoom(c, t))
  {
    hide Run;
    RunTwo(c, s, first, Increment(i));
    assert s.senders[i := Passed(frame, true)][i := Reserved(frame, true)] == s.senders[i := Reserved(frame, true)];
  }

  // Waiting senders

  /**
   * Backpressure lets go: from every state with a live writer, a sender that waits finds, after some
   * course of the others, a counter of zero, and then its own next poll gets its frame accepted. What
   * was accepted in between is on the wire before it.
   */
  lemma WaitingGetsThrough(c: Config, s: State, i: nat) returns (d: State, u: State)
    requires Reachable(c, s) && Live(s) && c.capacity >= 1 && c.maxPending >= 1
    requires i < |s.senders| && s.senders[i].Waiting?
    ensures Leads(c, s, d) && |d.senders| == |s.senders| && d.senders[i] == s.senders[i]
    ensures s.accepted <= d.accepted && d.wire == Flatten(d.accepted)
    ensures Run(c, d, [Poll(i), Increment(i), Enqueue(i)], u)
    ensures u.accepted == d.accepted + [s.senders[i].frame] && u.pending == 1 && u.senders == d.senders[i := Idle]
  {
    hide Reachable, Leads, Run, Flatten;
    ReachableInv(c, s);
    LeadsNowhere(c, s);
    d := Drain(c, s, s);
    assert d.senders[i] in d.senders;
    EmptyIsIdle(c, d);
    LeadsReachable(c, s, d);
    ZeroMeansWritten(c, d);
    WaiterGoesThrough(c, d, i);
    u := Queued(d.(senders := d.senders[i := Idle]), d.senders[i].frame);
  }

  lemma LeadsReachable(c: Config, s: State, t: State)
    requires Reachable(c, s) && Leads(c, s, t)
    ensures Reachable(c, t)
  {
    var before :| Run(c, Init(c), before, s);
    var steps :| Run(c, s, steps, t);
    RunOn(c, Init(c), before, s, steps, t);
  }

  /** A zero counter leaves the writer nothing to do. */
  lemma EmptyIsIdle(c: Config, s: State)
    requires Inv(c, s) && s.pending == 0
    ensures s.queue == [] && s.lost == [] && (s.task.Receiving? || s.task.Stopped?)
    ensures s.task.Stopped? ==> forall p <- s.senders :: p.Idle?
  {
    hide WireExact, Bounded, Count;
  }

  // The writer

  /**
   * A partial write is recovered from: wherever it breaks off, the writer can go on with the rest of the
   * batch, flush it and give its slots back. It can also fail before, there, or after the last byte.
   */
  lemma PartialWriteRecovers(c: Config, s: State, n: nat)
    requires s.task.Writing? && 0 < n && s.task.written + n < |Flatten(s.task.batch)|
    ensures var b, w := s.task.batch, s.task.written;
      && Run(c, s, [WriteSome(n), WriteSome(|Flatten(b)| - w - n)] + [Flush, Subtract],
             s.(task := Receiving, wire := s.wire + Flatten(b)[w..], pending := s.pending - |b|, done := s.done + b))
      && Enabled(c, s, Fail) && Enabled(c, Do(c, s, WriteSome(n)), Fail)
  {
    hide Run, Flatten;
    var b, w := s.task.batch, s.task.written;
    var rest := |Flatten(b)| - w - n;
    RunTwo(c, s, WriteSome(n), WriteSome(rest));
    var u := Do(c, Do(c, s, WriteSome(n)), WriteSome(rest));
    ConcatAssoc(s.wire, Flatten(b)[w..w + n], Flatten(b)[w + n..]);
    assert Flatten(b)[w + n..w + n + rest] == Flatten(b)[w + n..];
    assert Flatten(b)[w..] == Flatten(b)[w..w + n] + Flatten(b)[w + n..];
    RunTwo(c, u, Flush, Subtract);
    RunOn(c, s, [WriteSome(n), WriteSome(rest)], u, [Flush, Subtract], Do(c, Do(c, u, Flush), Subtract));
  }

  /** A write can still fail once all the bytes are out. */
  lemma FlushFails(c: Config, s: State)
    requires s.task.Writing? && s.task.written == |Flatten(s.task.batch)|
    ensures Run(c, s, [Fail], s.(task := Failing(s.task.batch, s.task.written)))
  {
    hide Run, Flatten;
    RunOne(c, s, Fail);
  }

  // The end of the writer

  /** Clean shutdown writes everything: a writer that has stopped has put every accepted frame on the wire. */
  lemma StoppedMeansWritten(c: Config, s: State)
    requires Reachable(c, s) && s.task.Stopped?
    ensures s.hungUp && s.pending == 0 && s.wire == Flatten(s.accepted)
  {
    hide Reachable, Flatten, WireExact, Bounded;
    ReachableInv(c, s);
    CountNone(s.senders, HoldsSlot);
    ZeroMeansWritten(c, s);
  }

  /** And it can always be had: once no send is under way, a live writer can finish, accepting nothing more. */
  lemma CanStop(c: Config, s: State) returns (u: State)
    requires Reachable(c, s) && Live(s) && c.capacity >= 1 && forall p <- s.senders :: p.Idle?
    ensures Leads(c, s, u) && u.task.Stopped? && s.accepted <= u.accepted && u.wire == Flatten(u.accepted)
  {
    hide Reachable, Leads, Run, Flatten, Inv;
    ReachableInv(c, s);
    LeadsNowhere(c, s);
    u := Onward(c, s, s, HangUp);
    u := Drain(c, s, u);
    EmptyIsIdle(c, u);
    if !u.task.Stopped? {
      u := Onward(c, s, u, Stop);
    }
    LeadsReachable(c, s, u);
    StoppedMeansWritten(c, u);
  }

  /** After a failed write the channel closes, and from then on nothing is accepted or written. */
  lemma FailureCloses(c: Config, s: State, steps: seq<Step>, u: State)
    requires s.task.Failing? && Run(c, Do(c, s, DropReceiver), steps, u)
    ensures !ReceiverAlive(u) && u.accepted == s.accepted && u.wire == s.wire && u.done == s.done
    ensures u.lost == s.task.batch + s.queue
  {
    hide Run;
    StaysDead(c, Do(c, s, DropReceiver), steps, u);
  }

  lemma {:induction false} StaysDead(c: Config, s: State, steps: seq<Step>, u: State)
    requires s.task.Dead? && Run(c, s, steps, u)
    ensures u.task == s.task && u.accepted == s.accepted && u.wire == s.wire && u.done == s.done && u.lost == s.lost
    decreases |steps|
  {
    hide Flatten;
    if steps != [] {
      StaysDead(c, Do(c, s, steps[0]), steps[1..], u);
    }
  }
}
