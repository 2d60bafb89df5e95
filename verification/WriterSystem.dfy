/**
 * Every interleaving of tasks that send frames with the writer task. Each step is one
 * atomic action of the code: a load, a fetch_add, a channel operation, one vectored write.
 */
module WriterSystem {
  import opened Sequences
  import opened Octets
  import opened WireFormat
  import opened Frames
  import opened Chunking
  import opened Writer

  /** `senders` tasks share the handle; the channel holds `capacity` frames. */
  datatype Config = Config(maxPending: nat, capacity: nat, senders: nat)

  datatype Sender =
    | Idle
    | Waiting(frame: OutboundFrame)                  // in wait_for_backpressure
    | Passed(frame: OutboundFrame, blocking: bool)   // saw pending < max, has not incremented
    | Reserved(frame: OutboundFrame, blocking: bool) // incremented, not in the channel
    | Refused                                        // the channel refused, decrement outstanding

  datatype Task =
    | Receiving
    | Collecting(batch: seq<OutboundFrame>)
    | Writing(batch: seq<OutboundFrame>, written: nat)
    | Written(batch: seq<OutboundFrame>)                 // flushed, decrement outstanding
    | Failing(batch: seq<OutboundFrame>, written: nat)   // write_batch failed, receiver not dropped yet
    | Dead(written: nat)
    | Stopped

  /** `accepted`, `done` and `lost` are history: frames the channel took, wrote, and abandoned. */
  datatype State = State(
    senders: seq<Sender>,
    pending: int,
    queue: seq<OutboundFrame>,
    task: Task,
    hungUp: bool,
    wire: seq<byte>,
    accepted: seq<OutboundFrame>,
    done: seq<OutboundFrame>,
    lost: seq<OutboundFrame>)

  datatype Step =
    | Send(i: nat, frame: OutboundFrame)
    | TrySend(i: nat, frame: OutboundFrame)
    | Poll(i: nat)
    | TimeOut(i: nat)
    | Increment(i: nat)
    | Enqueue(i: nat)
    | Refuse(i: nat)
    | Undo(i: nat)
    | HangUp
    | Recv
    | TryRecv
    | StartWrite
    | WriteSome(n: nat)
    | Flush
    | Fail
    | Subtract
    | DropReceiver
    | Stop

  function Init(c: Config): State {
    State(seq(c.senders, _ => Idle), 0, [], Receiving, false, [], [], [], [])
  }

  predicate ReceiverAlive(s: State) {
    !s.task.Dead? && !s.task.Stopped?
  }

  predicate SenderStep(st: Step) {
    st.Send? || st.TrySend? || st.Poll? || st.TimeOut? || st.Increment? || st.Enqueue? || st.Refuse? || st.Undo?
  }

  predicate SenderEnabled(c: Config, s: State, st: Step)
    requires SenderStep(st)
  {
    st.i < |s.senders| &&
    var p := s.senders[st.i];
    match st
    case Send(_, _) => p.Idle? && !s.hungUp
    case TrySend(_, _) => p.Idle? && !s.hungUp
    case Poll(_) => p.Waiting?
    case TimeOut(_) => p.Waiting?
    case Increment(_) => p.Passed?
    case Enqueue(_) => p.Reserved? && ReceiverAlive(s) && |s.queue| < c.capacity
    case Refuse(_) => p.Reserved? && (!ReceiverAlive(s) || (!p.blocking && |s.queue| >= c.capacity))
    case Undo(_) => p.Refused?
  }

  predicate Enabled(c: Config, s: State, st: Step) {
    if SenderStep(st) then SenderEnabled(c, s, st)
    else
      match st
      case HangUp => forall p <- s.senders :: p.Idle?
      case Recv => s.task.Receiving? && s.queue != []
      case TryRecv => s.task.Collecting? && |s.task.batch| < MAX_BATCH_SIZE && s.queue != []
      case StartWrite => s.task.Collecting?
      case WriteSome(n) => s.task.Writing? && 0 < n <= |Flatten(s.task.batch)| - s.task.written
      case Flush => s.task.Writing? && s.task.written == |Flatten(s.task.batch)|
      case Fail => s.task.Writing?
      case Subtract => s.task.Written?
      case DropReceiver => s.task.Failing?
      case Stop => s.task.Receiving? && s.hungUp && s.queue == []
  }

  function AfterCheck(c: Config, s: State, frame: OutboundFrame, blocking: bool): Sender {
    if s.pending < c.maxPending then Passed(frame, blocking)
    else if blocking then Waiting(frame)
    else Idle
  }

  function SenderMoves(c: Config, s: State, st: Step): Sender
    requires SenderStep(st) && SenderEnabled(c, s, st)
  {
    var p := s.senders[st.i];
    match st
    case Send(_, f) => AfterCheck(c, s, f, true)
    case TrySend(_, f) => AfterCheck(c, s, f, false)
    case Poll(_) => AfterCheck(c, s, p.frame, true)
    case TimeOut(_) => Idle
    case Increment(_) => Reserved(p.frame, p.blocking)
    case Enqueue(_) => Idle
    case Refuse(_) => Refused
    case Undo(_) => Idle
  }

  function Do(c: Config, s: State, st: Step): State
    requires Enabled(c, s, st)
  {
    if SenderStep(st) then
      var t := s.(senders := s.senders[st.i := SenderMoves(c, s, st)]);
      match st
      case Increment(_) => t.(pending := s.pending + 1)
      case Enqueue(i) =>
        var f := s.senders[i].frame;
        t.(queue := s.queue + [f], accepted := s.accepted + [f])
      case Undo(_) => t.(pending := s.pending - 1)
      case _ => t
    else
      match st
      case HangUp => s.(hungUp := true)
      case Recv => s.(task := Collecting([s.queue[0]]), queue := s.queue[1..])
      case TryRecv => s.(task := Collecting(s.task.batch + [s.queue[0]]), queue := s.queue[1..])
      case StartWrite => s.(task := Writing(s.task.batch, 0))
      case WriteSome(n) =>
        var b, w := s.task.batch, s.task.written;
        s.(task := Writing(b, w + n), wire := s.wire + Flatten(b)[w..w + n])
      case Flush => s.(task := Written(s.task.batch))
      case Fail => s.(task := Failing(s.task.batch, s.task.written))
      case Subtract => s.(task := Receiving, pending := s.pending - |s.task.batch|, done := s.done + s.task.batch)
      case DropReceiver => s.(task := Dead(s.task.written), lost := s.task.batch + s.queue, queue := [])
      case Stop => s.(task := Stopped)
  }

  ghost predicate Run(c: Config, s: State, steps: seq<Step>, t: State)
    decreases |steps|
  {
    if steps == [] then s == t
    else Enabled(c, s, steps[0]) && Run(c, Do(c, s, steps[0]), steps[1..], t)
  }

  ghost predicate Reachable(c: Config, s: State) {
    exists steps :: Run(c, Init(c), steps, s)
  }

  // The invariant

  predicate HoldsSlot(p: Sender) {
    p.Reserved? || p.Refused?
  }

  predicate PastCheck(p: Sender) {
    p.Passed?
  }

  /** The frames the writer task has taken out of the channel and not finished with. */
  function InTask(t: Task): seq<OutboundFrame> {
    if t.Collecting? || t.Writing? || t.Written? || t.Failing? then t.batch else []
  }

  /** The frames a write has begun on, and how many of their bytes are out. */
  function Started(s: State): seq<OutboundFrame> {
    if s.task.Dead? then s.lost else InTask(s.task)
  }

  function StartedBytes(s: State): nat {
    match s.task
    case Writing(_, w) => w
    case Failing(_, w) => w
    case Dead(w) => w
    case Written(b) => |Flatten(b)|
    case _ => 0
  }

  ghost predicate Conserves(s: State) {
    s.pending == Count(s.senders, HoldsSlot) + |s.queue| + |InTask(s.task)| + |s.lost|
  }

  ghost predicate Ordered(s: State) {
    && s.accepted == s.done + Started(s) + s.queue
    && (s.lost != [] ==> s.task.Dead?)
    && (s.task.Dead? || s.task.Stopped? ==> s.queue == [])
    && (s.task.Stopped? ==> s.hungUp)
  }

  ghost predicate WireExact(s: State) {
    && StartedBytes(s) <= |Flatten(Started(s))|
    && s.wire == Flatten(s.done) + Flatten(Started(s))[..StartedBytes(s)]
  }

  ghost predicate Bounded(c: Config, s: State) {
    && |s.senders| == c.senders
    && |s.queue| <= c.capacity
    && |InTask(s.task)| <= MAX_BATCH_SIZE
    && |s.lost| <= c.capacity + MAX_BATCH_SIZE
    && s.pending + Count(s.senders, PastCheck) < c.maxPending + Max1(c.senders)
    && (c.maxPending == 0 ==> s.pending == Count(s.senders, PastCheck) == 0)
  }

  function Max1(n: nat): nat {
    if n == 0 then 1 else n
  }

  /** The writer never holds an empty batch, and after the handles are gone no sender is active. */
  ghost predicate Shaped(s: State) {
    && (s.task.Collecting? || s.task.Writing? || s.task.Written? || s.task.Failing? ==> s.task.batch != [])
    && (s.task.Dead? ==> s.lost != [])
    && (s.hungUp ==> forall p <- s.senders :: p.Idle?)
  }

  lemma ShapeKept(c: Config, s: State, st: Step)
    requires Shaped(s) && Enabled(c, s, st)
    ensures Shaped(Do(c, s, st))
  {
    hide Flatten;
    if SenderStep(st) {
      assert s.senders[st.i] in s.senders;
    }
  }

  ghost predicate Accounted(c: Config, s: State) {
    Conserves(s) && Ordered(s) && WireExact(s) && Bounded(c, s)
  }

  ghost predicate Inv(c: Config, s: State) {
    Shaped(s) && Accounted(c, s)
  }

  lemma InitInv(c: Config)
    ensures Inv(c, Init(c))
  {
    CountNone(Init(c).senders, HoldsSlot);
    CountNone(Init(c).senders, PastCheck);
  }

  lemma SenderStepKeeps(c: Config, s: State, st: Step)
    requires Accounted(c, s) && SenderStep(st) && Enabled(c, s, st)
    ensures Accounted(c, Do(c, s, st))
  {
    hide Flatten;
    var p := SenderMoves(c, s, st);
    CountUpdate(s.senders, st.i, p, HoldsSlot);
    CountUpdate(s.senders, st.i, p, PastCheck);
    if PastCheck(s.senders[st.i]) {
      CountSome(s.senders, st.i, PastCheck);
    }
  }

  lemma ReceiveKeeps(c: Config, s: State, st: Step)
    requires Accounted(c, s) && (st.Recv? || st.TryRecv?) && Enabled(c, s, st)
    ensures Accounted(c, Do(c, s, st))
  {
    hide Flatten, Count, Bounded;
    var t := Do(c, s, st);
    ReceiveBounded(c, s, st);
    assert InTask(t.task) + t.queue == InTask(s.task) + s.queue;
    assert s.done + Started(s) + s.queue == s.done + (Started(s) + s.queue);
    assert t.done + Started(t) + t.queue == t.done + (Started(t) + t.queue);
    assert t.wire == Flatten(t.done) + Flatten(Started(t))[..0];
  }

  lemma ReceiveBounded(c: Config, s: State, st: Step)
    requires Bounded(c, s) && (st.Recv? || st.TryRecv?) && Enabled(c, s, st)
    ensures Bounded(c, Do(c, s, st))
  {
    hide Flatten, Count;
  }

  lemma WriteSomeKeeps(c: Config, s: State, n: nat)
    requires Accounted(c, s) && Enabled(c, s, WriteSome(n))
    ensures Accounted(c, Do(c, s, WriteSome(n)))
  {
    hide Flatten, Count;
    var b, w := Flatten(s.task.batch), s.task.written;
    assert b[..w] + b[w..w + n] == b[..w + n];
    ConcatAssoc(Flatten(s.done), b[..w], b[w..w + n]);
  }

  lemma WriteKeeps(c: Config, s: State, st: Step)
    requires Accounted(c, s) && (st.StartWrite? || st.Flush? || st.Fail?) && Enabled(c, s, st)
    ensures Accounted(c, Do(c, s, st))
  {
    hide Flatten, Count;
  }

  lemma BoundedBelow(c: Config, s: State, t: State)
    requires Bounded(c, s) && t.senders == s.senders && t.queue == s.queue && t.lost == s.lost
    requires InTask(t.task) == [] && t.pending <= s.pending && t.pending >= 0
    ensures Bounded(c, t)
  {
  }

  lemma SubtractKeeps(c: Config, s: State)
    requires Accounted(c, s) && Enabled(c, s, Subtract)
    ensures Accounted(c, Do(c, s, Subtract))
  {
    hide Flatten, Count, Bounded;
    var b, t := s.task.batch, Do(c, s, Subtract);
    FlattenAppend(s.done, b);
    FlattenNothing();
    assert s.lost == [] && Started(t) == [] && t.accepted == t.done + [] + t.queue;
    assert Flatten(b)[..|Flatten(b)|] == Flatten(b);
    assert t.wire == Flatten(t.done) + Flatten([])[..0];
    assert Bounded(c, t) by { BoundedBelow(c, s, t); }
  }

  lemma DropReceiverKeeps(c: Config, s: State)
    requires Accounted(c, s) && Enabled(c, s, DropReceiver)
    ensures Accounted(c, Do(c, s, DropReceiver))
  {
    hide Flatten, Count;
    var b, w, t := s.task.batch, s.task.written, Do(c, s, DropReceiver);
    FlattenAppend(b, s.queue);
    assert (Flatten(b) + Flatten(s.queue))[..w] == Flatten(b)[..w];
    ConcatAssoc(s.done, b, s.queue);
    assert t.accepted == t.done + (b + s.queue) + [];
  }

  lemma StepKeeps(c: Config, s: State, st: Step)
    requires Inv(c, s) && Enabled(c, s, st)
    ensures Inv(c, Do(c, s, st))
  {
    hide Shaped;
    ShapeKept(c, s, st);
    if SenderStep(st) {
      SenderStepKeeps(c, s, st);
    } else {
      match st
      case HangUp =>
      case Recv => ReceiveKeeps(c, s, st);
      case TryRecv => ReceiveKeeps(c, s, st);
      case StartWrite => WriteKeeps(c, s, st);
      case WriteSome(n) => WriteSomeKeeps(c, s, n);
      case Flush => WriteKeeps(c, s, st);
      case Fail => WriteKeeps(c, s, st);
      case Subtract => SubtractKeeps(c, s);
      case DropReceiver => DropReceiverKeeps(c, s);
      case Stop =>
    }
  }

  lemma {:induction false} RunKeeps(c: Config, s: State, steps: seq<Step>, t: State)
    requires Inv(c, s) && Run(c, s, steps, t)
    ensures Inv(c, t)
    decreases |steps|
  {
    hide Inv, Enabled, Do;
    if steps != [] {
      StepKeeps(c, s, steps[0]);
      RunKeeps(c, Do(c, s, steps[0]), steps[1..], t);
    }
  }

  lemma ReachableInv(c: Config, s: State)
    requires Reachable(c, s)
    ensures Inv(c, s)
  {
    hide Inv;
    InitInv(c);
    var steps :| Run(c, Init(c), steps, s);
    RunKeeps(c, Init(c), steps, s);
  }

  // What every run guarantees

  /** The counter is never subtracted below zero, whatever decrement is about to happen. */
  lemma NoUnderflow(c: Config, s: State, st: Step)
    requires Reachable(c, s) && Enabled(c, s, st)
    ensures st.Undo? ==> s.pending >= 1
    ensures st.Subtract? ==> s.pending >= |s.task.batch|
  {
    hide Flatten, WireExact;
    ReachableInv(c, s);
    if st.Undo? {
      CountSome(s.senders, st.i, HoldsSlot);
    }
  }

  /**
   * The counter is exactly the frames between increment and enqueue, queued, in the writer's hands, or
   * abandoned by a failed task.
   */
  lemma PendingConserved(c: Config, s: State)
    requires Reachable(c, s)
    ensures s.pending == Count(s.senders, HoldsSlot) + |s.queue| + |InTask(s.task)| + |s.lost|
    ensures s.lost != [] ==> s.task.Dead?
  {
    hide WireExact, Bounded, Count;
    ReachableInv(c, s);
  }

  /** The bound that backpressure really gives with `c.senders` tasks sharing the handle. */
  lemma PendingBound(c: Config, s: State)
    requires Reachable(c, s) && c.senders >= 1
    ensures s.pending + Count(s.senders, PastCheck) <= c.maxPending + c.senders - 1
    ensures c.senders == 1 ==> s.pending <= c.maxPending
  {
    hide WireExact, Ordered;
    ReachableInv(c, s);
  }

  /** A task that is not writing has put whole frames on the wire, and a zero counter proves all of them are out. */
  lemma ZeroMeansWritten(c: Config, s: State)
    requires Reachable(c, s) && s.pending == 0
    ensures s.done == s.accepted && s.lost == [] && s.wire == Flatten(s.accepted)
  {
    hide Flatten, Bounded;
    ReachableInv(c, s);
    FlattenNothing();
    assert Started(s) == [] && s.accepted == s.done + [] + [];
  }

  /** An idle system whose task has not failed holds no slot and has written everything it accepted. */
  lemma HealthyIdle(c: Config, s: State)
    requires Reachable(c, s)
    requires forall p <- s.senders :: !HoldsSlot(p)
    requires s.queue == [] && (s.task.Receiving? || s.task.Stopped?)
    ensures s.pending == 0 && s.wire == Flatten(s.accepted)
  {
    hide Flatten, Bounded, WireExact;
    ReachableInv(c, s);
    CountNone(s.senders, HoldsSlot);
    ZeroMeansWritten(c, s);
  }

  /** What is on the wire: every finished frame, then only bytes of the next accepted ones, in order. */
  lemma WireInOrder(c: Config, s: State)
    requires Reachable(c, s)
    ensures s.done <= s.accepted
    ensures Flatten(s.done) <= s.wire <= Flatten(s.accepted)
  {
    hide Flatten, Bounded, Conserves;
    ReachableInv(c, s);
    var n := StartedBytes(s);
    FlattenAppend(s.done, Started(s));
    FlattenAppend(s.done + Started(s), s.queue);
    var started := Flatten(Started(s));
    assert started == started[..n] + started[n..];
    assert s.accepted == s.done + (Started(s) + s.queue);
    assert Flatten(s.accepted) == s.wire + (started[n..] + Flatten(s.queue));
  }

  // The counter can always be drained, unless a write has failed

  lemma {:induction false} RunOn(c: Config, s: State, steps: seq<Step>, t: State, more: seq<Step>, u: State)
    requires Run(c, s, steps, t) && Run(c, t, more, u)
    ensures Run(c, s, steps + more, u)
    decreases |steps|
  {
    hide Enabled, Do;
    if steps == [] {
      assert steps + more == more;
    } else {
      RunOn(c, Do(c, s, steps[0]), steps[1..], t, more, u);
      assert (steps + more)[1..] == steps[1..] + more;
    }
  }

  /** `t` can be reached from `s`. */
  ghost predicate Leads(c: Config, s: State, t: State) {
    exists steps :: Run(c, s, steps, t)
  }

  lemma LeadsNowhere(c: Config, s: State)
    ensures Leads(c, s, s)
  {
    assert Run(c, s, [], s);
  }

  /** One more step, which keeps the invariant. */
  lemma Onward(c: Config, s: State, t: State, st: Step) returns (u: State)
    requires Leads(c, s, t) && Inv(c, t) && Enabled(c, t, st)
    ensures u == Do(c, t, st) && Leads(c, s, u) && Inv(c, u)
  {
    hide Inv, Enabled, Do;
    StepKeeps(c, t, st);
    u := Do(c, t, st);
    var steps :| Run(c, s, steps, t);
    assert [st][1..] == [];
    assert Run(c, t, [st], u);
    RunOn(c, s, steps, t, [st], u);
  }

  lemma LeadsOn(c: Config, s: State, t: State, u: State)
    requires Leads(c, s, t) && Leads(c, t, u)
    ensures Leads(c, s, u)
  {
    hide Run;
    var a :| Run(c, s, a, t);
    var b :| Run(c, t, b, u);
    RunOn(c, s, a, t, b, u);
  }

  /** A step of the writer task. */
  predicate WriterStep(st: Step) {
    !SenderStep(st) && !st.HangUp?
  }

  ghost predicate ByWriter(steps: seq<Step>) {
    forall i :: 0 <= i < |steps| ==> WriterStep(steps[i])
  }

  /** The writer task alone gets from `s` to `t`. */
  ghost predicate WriterLeads(c: Config, s: State, t: State) {
    exists steps :: Run(c, s, steps, t) && ByWriter(steps)
  }

  lemma WriterLeadsNowhere(c: Config, s: State)
    ensures WriterLeads(c, s, s)
  {
    assert Run(c, s, [], s);
  }

  lemma WriterOnward(c: Config, s: State, t: State, st: Step) returns (u: State)
    requires WriterLeads(c, s, t) && Inv(c, t) && Enabled(c, t, st) && WriterStep(st)
    ensures u == Do(c, t, st) && WriterLeads(c, s, u) && Inv(c, u)
  {
    hide Inv, Enabled, Do;
    StepKeeps(c, t, st);
    u := Do(c, t, st);
    var steps :| Run(c, s, steps, t) && ByWriter(steps);
    assert [st][1..] == [];
    assert Run(c, t, [st], u);
    RunOn(c, s, steps, t, [st], u);
    assert ByWriter(steps + [st]);
  }

  predicate Live(s: State) {
    !s.task.Failing? && !s.task.Dead?
  }

  /** A live writer holding a batch can finish it by itself. */
  lemma FinishBatch(c: Config, s: State, t: State) returns (u: State)
    requires WriterLeads(c, s, t) && Inv(c, t) && Live(t) && InTask(t.task) != []
    ensures WriterLeads(c, s, u) && Inv(c, u) && u.task.Receiving?
    ensures u.pending == t.pending - |InTask(t.task)| && u.queue == t.queue && u.senders == t.senders
    ensures u.accepted == t.accepted && u.hungUp == t.hungUp
  {
    hide WriterLeads, Flatten, Conserves, Ordered, WireExact, Bounded, Shaped;
    u := t;
    if u.task.Collecting? {
      u := WriterOnward(c, s, u, StartWrite);
    }
    if u.task.Writing? {
      var left := |Flatten(u.task.batch)| - u.task.written;
      assert left >= 0 by { WrittenWithinBatch(c, u); }
      if left > 0 {
        u := WriterOnward(c, s, u, WriteSome(left));
      }
      u := WriterOnward(c, s, u, Flush);
    }
    u := WriterOnward(c, s, u, Subtract);
  }

  lemma WrittenWithinBatch(c: Config, s: State)
    requires Inv(c, s) && s.task.Writing?
    ensures s.task.written <= |Flatten(s.task.batch)|
  {
  }

  lemma {:induction false} HolderExists(ss: seq<Sender>) returns (i: nat)
    requires Count(ss, HoldsSlot) > 0
    ensures i < |ss| && HoldsSlot(ss[i])
  {
    if HoldsSlot(ss[0]) {
      return 0;
    }
    i := HolderExists(ss[1..]);
    i := i + 1;
  }

  /** Where the slots of a live system are when its writer holds none. */
  lemma IdleWriterSlots(c: Config, s: State)
    requires Inv(c, s) && Live(s) && InTask(s.task) == []
    ensures s.pending == Count(s.senders, HoldsSlot) + |s.queue| && s.lost == []
    ensures s.pending > 0 ==> s.task.Receiving?
  {
    hide Flatten;
    if s.task.Stopped? {
      CountNone(s.senders, HoldsSlot);
    }
  }

  /** From every state with a live writer, the writer and the senders holding slots can bring the counter to zero. */
  lemma {:induction false} Drain(c: Config, s: State, t: State) returns (u: State)
    requires c.capacity >= 1 && Leads(c, s, t) && Inv(c, t) && Live(t)
    ensures Leads(c, s, u) && Inv(c, u) && u.pending == 0 && u.hungUp == t.hungUp && t.accepted <= u.accepted
    ensures |u.senders| == |t.senders|
    ensures forall j :: 0 <= j < |t.senders| && !HoldsSlot(t.senders[j]) ==> u.senders[j] == t.senders[j]
    decreases t.pending
  {
    hide Leads, WriterLeads, Flatten, Inv, Count;
    WriterLeadsNowhere(c, t);
    if InTask(t.task) != [] {
      u := FinishBatch(c, t, t);
      WriterPart(c, s, t, u);
      NonNegative(c, t);
      NonNegative(c, u);
      u := Drain(c, s, u);
      return;
    }
    IdleWriterSlots(c, t);
    if t.pending == 0 {
      return t;
    }
    NonNegative(c, t);
    u := t;
    if u.queue == [] {
      var i := HolderExists(u.senders);
      if u.senders[i].Refused? {
        u := Onward(c, s, u, Undo(i));
        NonNegative(c, u);
        u := Drain(c, s, u);
        return;
      }
      u := Onward(c, s, u, Enqueue(i));
    }
    u := Onward(c, s, u, Recv);
    WriterLeadsNowhere(c, u);
    var done := FinishBatch(c, u, u);
    WriterPart(c, s, u, done);
    NonNegative(c, done);
    u := Drain(c, s, done);
  }

  lemma WriterPart(c: Config, s: State, t: State, u: State)
    requires Leads(c, s, t) && WriterLeads(c, t, u)
    ensures Leads(c, s, u)
  {
    hide Run;
    LeadsOn(c, s, t, u);
  }

  /** Alone, a live writer gets everything that was accepted onto the wire, in whatever state it is. */
  lemma {:induction false} CatchesUp(c: Config, s: State, t: State) returns (u: State)
    requires WriterLeads(c, s, t) && Inv(c, t) && Live(t)
    ensures WriterLeads(c, s, u) && Inv(c, u) && Live(u) && u.queue == [] && InTask(u.task) == []
    ensures u.senders == t.senders && u.accepted == t.accepted && u.hungUp == t.hungUp
    ensures u.wire == Flatten(u.accepted)
    decreases |t.queue| + |InTask(t.task)|
  {
    hide WriterLeads, Flatten, Inv, Count;
    if InTask(t.task) != [] {
      u := FinishBatch(c, s, t);
      u := CatchesUp(c, s, u);
    } else if t.queue != [] {
      CanReceive(c, t);
      u := WriterOnward(c, s, t, Recv);
      u := FinishBatch(c, s, u);
      u := CatchesUp(c, s, u);
    } else {
      u := t;
      AllWritten(c, u);
    }
  }

  lemma CanReceive(c: Config, s: State)
    requires Inv(c, s) && Live(s) && InTask(s.task) == [] && s.queue != []
    ensures Enabled(c, s, Recv)
  {
    hide Flatten, WireExact, Bounded, Conserves;
  }

  lemma AllWritten(c: Config, s: State)
    requires Inv(c, s) && Live(s) && InTask(s.task) == [] && s.queue == []
    ensures s.wire == Flatten(s.accepted)
  {
    hide Flatten, Bounded, Conserves;
    FlattenNothing();
    assert s.task.Receiving? || s.task.Stopped?;
    assert Started(s) == [] && s.accepted == s.done;
    assert s.wire == Flatten(s.done) + [];
  }

  lemma NonNegative(c: Config, s: State)
    requires Inv(c, s)
    ensures s.pending >= 0
  {
    hide Flatten, WireExact, Bounded, Shaped, Ordered;
  }

  /** A failed writer leaks its batch: from then on the counter stays above zero. */
  lemma {:induction false} LeakForever(c: Config, s: State, steps: seq<Step>, u: State)
    requires Inv(c, s) && !Live(s) && Run(c, s, steps, u)
    ensures !Live(u) && u.pending > 0
    decreases |steps|
  {
    hide Flatten;
    if steps != [] {
      StepKeeps(c, s, steps[0]);
      LeakForever(c, Do(c, s, steps[0]), steps[1..], u);
    }
  }

  lemma LeaksOn(c: Config, s: State, u: State)
    requires Inv(c, s) && !Live(s) && Leads(c, s, u)
    ensures u.pending > 0
  {
    hide Inv;
    var steps :| Run(c, s, steps, u);
    LeakForever(c, s, steps, u);
  }

  /**
   * The counter can come back to zero exactly while no write has failed: a live system can always
   * drain, and after a failure backpressure counts the abandoned frames in every later state.
   */
  lemma DrainsIffLive(c: Config, s: State)
    requires Reachable(c, s) && c.capacity >= 1
    ensures (exists u :: Leads(c, s, u) && u.pending == 0) <==> Live(s)
  {
    hide Reachable, Inv, Leads;
    ReachableInv(c, s);
    if Live(s) {
      LeadsNowhere(c, s);
      var u := Drain(c, s, s);
    } else {
      forall u | Leads(c, s, u)
        ensures u.pending != 0
      {
        LeaksOn(c, s, u);
      }
    }
  }

  // The counter can pass the configured maximum

  lemma Then(c: Config, s: State, st: Step)
    requires Reachable(c, s) && Enabled(c, s, st)
    ensures Reachable(c, Do(c, s, st))
  {
    hide Enabled, Do;
    var steps :| Run(c, Init(c), steps, s);
    assert [st][1..] == [];
    assert Run(c, s, [st], Do(c, s, st));
    RunOn(c, Init(c), steps, s, [st], Do(c, s, st));
  }

  lemma InitReachable(c: Config)
    ensures Reachable(c, Init(c))
  {
    assert Run(c, Init(c), [], Init(c));
  }

  const ANY_FRAME := OutboundFrame(seq(HEADER_SIZE, _ => 0), [])

  /** One sender alone can leave `n` frames with a task that keeps collecting. */
  lemma {:induction false} Fill(c: Config, n: nat) returns (s: State)
    requires c.senders >= 1 && c.capacity >= 1
    requires n <= c.maxPending && n <= c.capacity + MAX_BATCH_SIZE
    ensures Reachable(c, s) && s.pending == n && |s.senders| == c.senders && !s.hungUp
    ensures forall p <- s.senders :: p.Idle?
    ensures |s.queue| + |InTask(s.task)| == n
    ensures if n == 0 then s.task.Receiving? else s.task.Collecting? && |s.task.batch| <= MAX_BATCH_SIZE
    ensures s.queue != [] ==> |InTask(s.task)| == MAX_BATCH_SIZE
  {
    hide Flatten;
    if n == 0 {
      InitReachable(c);
      return Init(c);
    }
    var before := Fill(c, n - 1);
    s := SendOne(c, before);
    if n == 1 {
      Then(c, s, Recv);
      s := Do(c, s, Recv);
    } else if |s.task.batch| < MAX_BATCH_SIZE {
      Then(c, s, TryRecv);
      s := Do(c, s, TryRecv);
    }
  }

  /** The first sender sends one frame while nobody else moves. */
  lemma SendOne(c: Config, s: State) returns (t: State)
    requires Reachable(c, s) && !s.hungUp && ReceiverAlive(s) && |s.queue| < c.capacity && s.pending < c.maxPending
    requires |s.senders| >= 1 && s.senders[0].Idle?
    ensures Reachable(c, t) && t.task == s.task && t.hungUp == s.hungUp
    ensures t.pending == s.pending + 1 && t.queue == s.queue + [ANY_FRAME] && t.senders == s.senders
  {
    hide Reachable;
    Then(c, s, Send(0, ANY_FRAME));
    t := Do(c, s, Send(0, ANY_FRAME));
    Then(c, t, Increment(0));
    t := Do(c, t, Increment(0));
    Then(c, t, Enqueue(0));
    t := Do(c, t, Enqueue(0));
  }

  /** The most frames a writer can hold or have queued while every sender still sees room for one more. */
  function Reach(c: Config): nat
    requires c.maxPending >= 1
  {
    if c.maxPending - 1 <= c.capacity + MAX_BATCH_SIZE then c.maxPending - 1 else c.capacity + MAX_BATCH_SIZE
  }

  /** On top of that many frames, any number of senders can pass the check before one increments. */
  lemma {:induction false} AllPass(c: Config, k: nat) returns (s: State)
    requires c.capacity >= 1 && c.maxPending >= 1 && c.senders >= 1 && k <= c.senders
    ensures Reachable(c, s) && s.pending == Reach(c) && |s.senders| == c.senders && !s.hungUp
    ensures forall i :: 0 <= i < c.senders ==> if i < k then s.senders[i].Passed? else s.senders[i].Idle?
  {
    if k == 0 {
      s := Fill(c, Reach(c));
      return;
    }
    s := AllPass(c, k - 1);
    Then(c, s, Send(k - 1, ANY_FRAME));
    s := Do(c, s, Send(k - 1, ANY_FRAME));
  }

  /** Then they all increment. */
  lemma {:induction false} AllIncrement(c: Config, k: nat) returns (s: State)
    requires c.capacity >= 1 && c.maxPending >= 1 && c.senders >= 1 && k <= c.senders
    ensures Reachable(c, s) && s.pending == Reach(c) + k && |s.senders| == c.senders
    ensures forall i :: k <= i < c.senders ==> s.senders[i].Passed?
  {
    if k == 0 {
      s := AllPass(c, c.senders);
      return;
    }
    s := AllIncrement(c, k - 1);
    Then(c, s, Increment(k - 1));
    s := Do(c, s, Increment(k - 1));
  }

  /** What is counted is queued, in the writer's hands, abandoned, or one sender's: a second bound. */
  lemma RoomBound(c: Config, s: State)
    requires Reachable(c, s)
    ensures s.pending <= c.senders + c.capacity + MAX_BATCH_SIZE
  {
    hide Reachable, WireExact;
    ReachableInv(c, s);
  }

  /** The exact maximum of the counter: never exceeded, and reached in some run. */
  lemma ExactMaximum(c: Config)
    requires c.capacity >= 1 && c.maxPending >= 1 && c.senders >= 1
    ensures forall s :: Reachable(c, s) ==> s.pending <= c.senders + Reach(c)
    ensures exists s :: Reachable(c, s) && s.pending == c.senders + Reach(c)
  {
    hide Reachable;
    forall s | Reachable(c, s)
      ensures s.pending <= c.senders + Reach(c)
    {
      PendingBound(c, s);
      RoomBound(c, s);
    }
    var s := AllIncrement(c, c.senders);
  }

  /**
   * `max_pending_frames` really is the maximum in every run exactly when one sender is alone, when
   * nothing may be sent at all, or when the limit is out of reach of channel, batch and senders.
   */
  lemma MaximumHoldsIff(c: Config)
    requires c.capacity >= 1
    ensures (forall s :: Reachable(c, s) ==> s.pending <= c.maxPending)
      <==> c.senders <= 1 || c.maxPending == 0 || c.maxPending >= c.capacity + MAX_BATCH_SIZE + c.senders
  {
    hide Reachable, WireExact;
    if c.senders >= 1 && c.maxPending >= 1 {
      ExactMaximum(c);
    } else {
      forall s | Reachable(c, s)
        ensures s.pending <= c.maxPending
      {
        ReachableInv(c, s);
      }
    }
  }

  /** A run that gets there: one frame is taken, its write fails, and the counter is stuck above zero. */
  lemma FailureLeaks() returns (c: Config, s: State)
    ensures Reachable(c, s) && c.capacity >= 1 && !Live(s) && s.pending == 1
    ensures forall u :: Leads(c, s, u) ==> u.pending > 0
  {
    hide Reachable, Leads, Inv, Flatten;
    c := Config(1, 1, 1);
    InitReachable(c);
    s := SendOne(c, Init(c));
    Then(c, s, Recv);
    s := Do(c, s, Recv);
    Then(c, s, StartWrite);
    s := Do(c, s, StartWrite);
    Then(c, s, Fail);
    s := Do(c, s, Fail);
    ReachableInv(c, s);
    forall u | Leads(c, s, u)
      ensures u.pending > 0
    {
      LeaksOn(c, s, u);
    }
  }

  // End to end

  /** A prefix of a stream of acceptable frames parses, without violation, to a prefix of them. */
  lemma PrefixParses(s: seq<byte>, fs: seq<Frame>, max: u32)
    requires AllAcceptable(fs, max) && s <= Wire(fs)
    ensures ParseStream(s, max).violation.None? && ParseStream(s, max).frames <= fs
  {
    hide ParseStream, Acceptable;
    var t := Wire(fs)[|s|..];
    assert s + t == Wire(fs) == Wire(fs) + [];
    ParseWire(fs, [], max);
    ParseNothing(max);
    ParseAppend(s, t, max);
    if ParseStream(s, max).violation.Some? {
      ViolationIsFinal(s, t, max);
    }
  }

  /** Frames that are on a stream in full head its parse. */
  lemma WholeFramesParse(s: seq<byte>, fs: seq<Frame>, max: u32)
    requires AllAcceptable(fs, max) && Wire(fs) <= s
    ensures fs <= ParseStream(s, max).frames
  {
    hide ParseStream, Wire, Acceptable;
    var tail := s[|Wire(fs)|..];
    assert s == Wire(fs) + tail;
    ParseWire(fs, tail, max);
  }

  /**
   * Whatever the interleaving of senders, batches, partial writes and failures, and however the
   * bytes are cut on the way, the reading side fails no push and delivers a prefix of the accepted
   * frames that includes every frame the writer has finished; with the counter at zero, all of them.
   */
  lemma EndToEnd(c: Config, s: State, chunks: seq<seq<byte>>, max: u32)
    requires Reachable(c, s) && AllDeliverable(s.accepted, max)
    requires Join(chunks) <= s.wire
    ensures var rs := Answers([], chunks, max);
      && (forall r <- rs :: r.Success?)
      && Delivered(rs) <= InboundAll(s.accepted)
      && (Join(chunks) == s.wire ==> InboundAll(s.done) <= Delivered(rs))
      && (Join(chunks) == s.wire && s.pending == 0 ==> Delivered(rs) == InboundAll(s.accepted))
  {
    hide Reachable, Flatten, Wire, ParseStream, Answers, Acceptable, InboundAll;
    var w, all := Join(chunks), InboundAll(s.accepted);
    WireInOrder(c, s);
    FlattenIsWire(s.accepted);
    PrefixParses(w, all, max);
    ChunkingIndependence(chunks, max);
    if w == s.wire {
      var rest := s.accepted[|s.done|..];
      assert s.accepted == s.done + rest;
      InboundAppend(s.done, rest);
      FlattenIsWire(s.done);
      WholeFramesParse(w, InboundAll(s.done), max);
      if s.pending == 0 {
        ZeroMeansWritten(c, s);
      }
    }
  }
}
