/**
 * Every interleaving of the read loop's dispatching, the handler tasks it spawns, the calls those
 * tasks and their clones make on request contexts, and `emit`. A step is one atomic action: a lock
 * section, a permit operation, an atomic swap, or an accepted or refused send.
 */
module Lifecycle {
  import opened Results
  import opened Sequences
  import opened Octets
  import opened WireFormat
  import opened Writer
  import opened Context

  /** `types` is the registry's view of the registered method ids. */
  datatype Config = Config(maxHandlers: nat, maxPayload: u32, types: map<u16, ResponseType>)

  datatype Phase =
    | Registered               // in the active map, task not spawned yet
    | Spawned                  // task spawned, registry not consulted yet
    | Running                  // in the handler
    | Errored                  // dispatch returned Err, has_responded not loaded yet
    | AutoError(call: nat)     // awaiting the automatic ctx.error
    | Finishing(failed: bool)  // about to remove the active entry
    | Removed(failed: bool)    // entry removed, permit not dropped yet
    | Done(failed: bool)

  /**
   * A request's task, its shared context and its token; `claimer` is the call that set `responded`,
   * `entered` says that a handler was given a clone of the context.
   */
  datatype Task = Task(ctx: RequestContext, phase: Phase, cancelled: bool, claimer: Option<nat>, entered: bool)

  datatype CallPhase = Started | Claimed | Encoded | Rejected | Failed | Sent(at: nat)

  /** One call on a context; `payload` is None when the encoder is going to fail on it. */
  datatype Call = Call(task: nat, op: Op, payload: Option<seq<byte>>, phase: CallPhase)

  datatype Origin = ByCall(call: nat) | ByEmit(eventId: u16, data: seq<byte>)

  /** A frame the writer accepted, and where it came from. */
  datatype Entry = Entry(frame: OutboundFrame, origin: Origin)

  datatype Reader = Ready | Admitting(header: Header) | Spawning(task: nat)

  datatype State = State(
    permits: int,
    active: map<u32, nat>,   // request id -> the handler task whose token the entry holds
    tasks: seq<Task>,
    calls: seq<Call>,
    log: seq<Entry>,
    reader: Reader)

  datatype Step =
    | Receive(header: Header)
    | Insert
    | Spawn
    | Dispatch(t: nat)
    | Start(t: nat, op: Op, payload: Option<seq<byte>>)
    | Claim(k: nat)
    | EncodePayload(k: nat)
    | SendOk(k: nat)
    | SendFail(k: nat)
    | Return(t: nat, ok: bool)
    | CheckResponded(t: nat, payload: Option<seq<byte>>)
    | AutoDone(t: nat)
    | Remove(t: nat)
    | Finish(t: nat)
    | CancelOwn(t: nat)
    | Emit(eventId: u16, data: seq<byte>)

  function Init(c: Config): State {
    State(c.maxHandlers, map[], [], [], [], Ready)
  }

  predicate Returned(p: CallPhase) {
    p.Rejected? || p.Failed? || p.Sent?
  }

  predicate InMap(p: Phase) {
    p.Registered? || p.Spawned? || p.Running? || p.Errored? || p.AutoError? || p.Finishing?
  }

  predicate InFlight(t: Task) {
    !t.phase.Done?
  }

  /** A request frame that may be admitted: not a control frame, not a response. */
  predicate IsRequest(h: Header) {
    h.methodId != ABORT_METHOD_ID && h.methodId != AUTH_METHOD_ID && !HasFlag(h.flags, IS_RESPONSE)
  }

  predicate HasTask(s: State, t: nat) {
    t < |s.tasks|
  }

  predicate HasCall(s: State, k: nat) {
    k < |s.calls| && s.calls[k].task < |s.tasks|
  }

  predicate Enabled(c: Config, s: State, st: Step) {
    match st
    case Receive(h) => s.reader.Ready? && Violation(h, c.maxPayload).None?
    case Insert => s.reader.Admitting?
    case Spawn => s.reader.Spawning? && HasTask(s, s.reader.task)
    case Start(t, op, payload) =>
      HasTask(s, t) && s.tasks[t].entered && (Encodes(op) || payload.Some?)
    case Claim(k) => HasCall(s, k) && s.calls[k].phase.Started? && Terminal(s.calls[k].op)
    case EncodePayload(k) =>
      HasCall(s, k) && if Terminal(s.calls[k].op) then s.calls[k].phase.Claimed? else s.calls[k].phase.Started?
    case SendOk(k) => HasCall(s, k) && s.calls[k].phase.Encoded? && s.calls[k].payload.Some?
    case SendFail(k) => HasCall(s, k) && s.calls[k].phase.Encoded?
    case Dispatch(t) => HasTask(s, t) && s.tasks[t].phase.Spawned?
    case Return(t, _) => HasTask(s, t) && s.tasks[t].phase.Running?
    case CancelOwn(t) => HasTask(s, t) && s.tasks[t].entered
    case CheckResponded(t, _) => HasTask(s, t) && s.tasks[t].phase.Errored?
    case AutoDone(t) =>
      && HasTask(s, t) && s.tasks[t].phase.AutoError?
      && HasCall(s, s.tasks[t].phase.call) && Returned(s.calls[s.tasks[t].phase.call].phase)
    case Remove(t) => HasTask(s, t) && s.tasks[t].phase.Finishing?
    case Finish(t) => HasTask(s, t) && s.tasks[t].phase.Removed?
    case Emit(eventId, _) => eventId >= 1
  }

  function SetPhase(s: State, t: nat, p: Phase): State
    requires HasTask(s, t)
  {
    s.(tasks := s.tasks[t := s.tasks[t].(phase := p)])
  }

  function SetCall(s: State, k: nat, p: CallPhase): State
    requires HasCall(s, k)
  {
    s.(calls := s.calls[k := s.calls[k].(phase := p)])
  }

  /** `dispatch_frame` up to the permit. */
  function DoReceive(s: State, h: Header): State {
    if h.methodId == ABORT_METHOD_ID then
      if h.requestId in s.active && HasTask(s, s.active[h.requestId]) then
        var t := s.active[h.requestId];
        s.(tasks := s.tasks[t := s.tasks[t].(cancelled := true)])
      else s
    else if !IsRequest(h) then s
    else if s.permits <= 0 then s
    else s.(permits := s.permits - 1, reader := Admitting(h))
  }

  /** `get_response_type_by_id(..).unwrap_or(Result)`. */
  function TypeOf(c: Config, methodId: u16): ResponseType {
    if methodId in c.types then c.types[methodId] else Single
  }

  function DoInsert(c: Config, s: State): State
    requires s.reader.Admitting?
  {
    var h := s.reader.header;
    var ctx := RequestContext(h.methodId, h.requestId, TypeOf(c, h.methodId));
    s.(active := s.active[h.requestId := |s.tasks|],
       tasks := s.tasks + [Task(ctx, Registered, false, None, false)],
       reader := Spawning(|s.tasks|))
  }

  /** `HandlerRegistry::dispatch`: only a registered id has a handler to pass the context to. */
  function DoDispatch(c: Config, s: State, t: nat): State
    requires HasTask(s, t)
  {
    if s.tasks[t].ctx.methodId in c.types then
      s.(tasks := s.tasks[t := s.tasks[t].(phase := Running, entered := true)])
    else SetPhase(s, t, Errored)
  }

  /** `mark_responded`. */
  function DoClaim(s: State, k: nat): State
    requires HasCall(s, k)
  {
    var t := s.calls[k].task;
    if s.tasks[t].claimer.Some? then SetCall(s, k, Rejected)
    else SetCall(s, k, Claimed).(tasks := s.tasks[t := s.tasks[t].(claimer := Some(k))])
  }

  function CallFrame(s: State, k: nat): OutboundFrame
    requires HasCall(s, k) && s.calls[k].payload.Some?
  {
    FrameOf(s.tasks[s.calls[k].task].ctx, s.calls[k].op, s.calls[k].payload.value)
  }

  function Do(c: Config, s: State, st: Step): State
    requires Enabled(c, s, st)
  {
    match st
    case Receive(h) => DoReceive(s, h)
    case Insert => DoInsert(c, s)
    case Spawn => SetPhase(s, s.reader.task, Spawned).(reader := Ready)
    case Dispatch(t) => DoDispatch(c, s, t)
    case Start(t, op, payload) => s.(calls := s.calls + [Call(t, op, payload, Started)])
    case Claim(k) => DoClaim(s, k)
    case EncodePayload(k) => SetCall(s, k, if s.calls[k].payload.Some? then Encoded else Failed)
    case SendOk(k) => SetCall(s, k, Sent(|s.log|)).(log := s.log + [Entry(CallFrame(s, k), ByCall(k))])
    case SendFail(k) => SetCall(s, k, Failed)
    case Return(t, ok) => SetPhase(s, t, if ok then Finishing(false) else Errored)
    case CheckResponded(t, payload) =>
      if s.tasks[t].claimer.Some? then SetPhase(s, t, Finishing(true))
      else SetPhase(s, t, AutoError(|s.calls|)).(calls := s.calls + [Call(t, Error, payload, Started)])
    case AutoDone(t) => SetPhase(s, t, Finishing(true))
    case Remove(t) =>
      SetPhase(s, t, Removed(s.tasks[t].phase.failed)).(active := s.active - {s.tasks[t].ctx.requestId})
    case Finish(t) => SetPhase(s, t, Done(s.tasks[t].phase.failed)).(permits := s.permits + 1)
    case CancelOwn(t) => s.(tasks := s.tasks[t := s.tasks[t].(cancelled := true)])
    case Emit(eventId, data) => s.(log := s.log + [Entry(EventFrame(eventId, data), ByEmit(eventId, data))])
  }

  ghost predicate Run(c: Config, s: State, steps: seq<Step>, t: State)
    decreases |steps|
  {
    if steps == [] then s == t
    else Enabled(c, s, steps[0]) && Run(c, Do(c, s, steps[0]), steps[1..], t)
  }

  ghost predicate Reachable(c: Config, s: State) {
    exists steps :: Run(c, Init(c), steps, s)
  }

  // Invariants

  predicate HoldsPermit(t: Task) {
    InFlight(t)
  }

  ghost predicate PermitsExact(c: Config, s: State) {
    && s.permits >= 0
    && s.permits + Count(s.tasks, HoldsPermit) + Unit(s.reader.Admitting?) == c.maxHandlers
  }

  /** Every entry holds the token of a task with that id that has not removed its entry yet. */
  ghost predicate ActiveSound(s: State) {
    forall r <- s.active ::
      HasTask(s, s.active[r]) && s.tasks[s.active[r]].ctx.requestId == r && InMap(s.tasks[s.active[r]].phase)
  }

  ghost predicate ReaderSound(c: Config, s: State) {
    && (s.reader.Admitting? ==> IsRequest(s.reader.header) && Violation(s.reader.header, c.maxPayload).None?)
    && (s.reader.Spawning? ==> HasTask(s, s.reader.task) && s.tasks[s.reader.task].phase.Registered?)
    && (forall t :: 0 <= t < |s.tasks| && s.tasks[t].phase.Registered? ==> s.reader == Spawning(t))
  }

  ghost predicate ContextsSound(c: Config, s: State) {
    forall t <- s.tasks :: 1 <= t.ctx.methodId < AUTH_METHOD_ID && t.ctx.responseType == TypeOf(c, t.ctx.methodId)
  }

  /** `responded` and the calls that saw it agree. */
  ghost predicate ClaimSound(s: State, k: nat)
    requires HasCall(s, k)
  {
    var call := s.calls[k];
    && (Terminal(call.op) && (call.phase.Claimed? || call.phase.Encoded? || call.phase.Failed? || call.phase.Sent?)
        ==> s.tasks[call.task].claimer == Some(k))
    && (call.phase.Rejected? ==> s.tasks[call.task].claimer.Some?)
    && (call.phase.Started? || call.phase.Rejected? ==> s.tasks[call.task].claimer != Some(k))
    && (call.phase.Sent? ==> call.payload.Some?)
  }

  ghost predicate ClaimsSound(s: State) {
    && (forall k :: 0 <= k < |s.calls| ==> HasCall(s, k) && ClaimSound(s, k))
    && (forall t :: 0 <= t < |s.tasks| && s.tasks[t].claimer.Some? ==>
          var k := s.tasks[t].claimer.value;
          HasCall(s, k) && s.calls[k].task == t && Terminal(s.calls[k].op))
  }

  /** Accepted frames and calls that report success correspond one to one. */
  ghost predicate EntrySound(s: State, j: nat)
    requires j < |s.log|
  {
    match s.log[j].origin
    case ByCall(k) => HasCall(s, k) && s.calls[k].phase == Sent(j) && s.calls[k].payload.Some?
      && s.log[j].frame == CallFrame(s, k)
    case ByEmit(id, data) => id >= 1 && s.log[j].frame == EventFrame(id, data)
  }

  ghost predicate LogSound(s: State) {
    && (forall j :: 0 <= j < |s.log| ==> EntrySound(s, j))
    && (forall k :: 0 <= k < |s.calls| && s.calls[k].phase.Sent? ==>
          s.calls[k].phase.at < |s.log| && s.log[s.calls[k].phase.at].origin == ByCall(k))
  }

  predicate FinishedWithErr(p: Phase) {
    (p.Finishing? || p.Removed? || p.Done?) && p.failed
  }

  predicate FinishedWithOk(p: Phase) {
    (p.Finishing? || p.Removed? || p.Done?) && !p.failed
  }

  ghost predicate OutcomeSound(c: Config, s: State, t: nat)
    requires HasTask(s, t)
  {
    var task := s.tasks[t];
    && (FinishedWithErr(task.phase) ==> task.claimer.Some?)
    && (task.phase.AutoError? ==>
          HasCall(s, task.phase.call) && s.calls[task.phase.call].task == t && s.calls[task.phase.call].op.Error?)
    && (FinishedWithOk(task.phase) || task.phase.Running? || task.entered ==> task.ctx.methodId in c.types)
  }

  ghost predicate OutcomesSound(c: Config, s: State) {
    && (forall t :: 0 <= t < |s.tasks| ==> OutcomeSound(c, s, t))
    && (forall call <- s.calls :: call.task < |s.tasks|
          && (s.tasks[call.task].ctx.methodId !in c.types ==> call.op.Error?))
  }

  ghost predicate Inv(c: Config, s: State) {
    && PermitsExact(c, s) && ActiveSound(s) && ReaderSound(c, s) && ContextsSound(c, s)
    && ClaimsSound(s) && LogSound(s) && OutcomesSound(c, s)
  }

  lemma InitInv(c: Config)
    ensures Inv(c, Init(c))
  {
  }

  // What a step leaves alone

  predicate CallStep(st: Step) {
    st.Start? || st.Claim? || st.EncodePayload? || st.SendOk? || st.SendFail? || st.Emit?
  }

  ghost predicate SamePhases(s: State, u: State) {
    && u.active == s.active && u.reader == s.reader && |u.tasks| == |s.tasks|
    && forall t :: 0 <= t < |s.tasks| ==> u.tasks[t].phase == s.tasks[t].phase && u.tasks[t].ctx == s.tasks[t].ctx
  }

  ghost predicate SameCalls(s: State, u: State) {
    && u.calls == s.calls && u.log == s.log && |s.tasks| <= |u.tasks|
    && (forall t :: 0 <= t < |s.tasks| ==>
          u.tasks[t].claimer == s.tasks[t].claimer && u.tasks[t].ctx == s.tasks[t].ctx)
    && (forall t :: |s.tasks| <= t < |u.tasks| ==> u.tasks[t].claimer.None?)
  }

  lemma CallStepEffect(c: Config, s: State, st: Step)
    requires CallStep(st) && Enabled(c, s, st)
    ensures SamePhases(s, Do(c, s, st))
  {
    hide FrameOf, EventFrame;
  }

  lemma TaskStepEffect(c: Config, s: State, st: Step)
    requires !CallStep(st) && !st.CheckResponded? && Enabled(c, s, st)
    ensures SameCalls(s, Do(c, s, st))
  {
    hide Violation;
  }

  lemma PermitsKept(c: Config, s: State, st: Step)
    requires PermitsExact(c, s) && ReaderSound(c, s) && Enabled(c, s, st)
    ensures PermitsExact(c, Do(c, s, st))
  {
    hide Violation, FrameOf, EventFrame, ReaderSound, Count;
    if CallStep(st) {
      CallStepEffect(c, s, st);
      CountSame(s.tasks, Do(c, s, st).tasks, HoldsPermit);
    } else {
      TaskStepKeepsPermits(c, s, st);
    }
  }

  lemma TaskStepKeepsPermits(c: Config, s: State, st: Step)
    requires !CallStep(st) && PermitsExact(c, s) && ReaderSound(c, s) && Enabled(c, s, st)
    ensures PermitsExact(c, Do(c, s, st))
  {
    hide Count, Violation, TypeOf;
    var u := Do(c, s, st);
    match st
    case Insert => CountAppend(s.tasks, u.tasks[|s.tasks|], HoldsPermit);
    case Receive(h) =>
      if h.methodId == ABORT_METHOD_ID && h.requestId in s.active && HasTask(s, s.active[h.requestId]) {
        PermitUpdate(s, u, s.active[h.requestId]);
      }
    case Spawn => PermitUpdate(s, u, s.reader.task);
    case Dispatch(t) => PermitUpdate(s, u, t);
    case CancelOwn(t) => PermitUpdate(s, u, t);
    case Return(t, _) => PermitUpdate(s, u, t);
    case CheckResponded(t, _) => PermitUpdate(s, u, t);
    case AutoDone(t) => PermitUpdate(s, u, t);
    case Remove(t) => PermitUpdate(s, u, t);
    case Finish(t) => PermitUpdate(s, u, t);
    case _ =>
  }

  lemma PermitUpdate(s: State, u: State, t: nat)
    requires t < |s.tasks| == |u.tasks| && u.tasks == s.tasks[t := u.tasks[t]]
    ensures Count(u.tasks, HoldsPermit)
         == Count(s.tasks, HoldsPermit) - Unit(InFlight(s.tasks[t])) + Unit(InFlight(u.tasks[t]))
  {
    CountUpdate(s.tasks, t, u.tasks[t], HoldsPermit);
  }

  lemma ActiveFrame(c: Config, s: State, u: State)
    requires ActiveSound(s) && ReaderSound(c, s) && SamePhases(s, u)
    ensures ActiveSound(u) && ReaderSound(c, u)
  {
    hide Violation;
  }

  lemma ActiveKept(c: Config, s: State, st: Step)
    requires ActiveSound(s) && ReaderSound(c, s) && Enabled(c, s, st)
    ensures ActiveSound(Do(c, s, st)) && ReaderSound(c, Do(c, s, st))
  {
    hide Violation, FrameOf, EventFrame;
    if CallStep(st) {
      CallStepEffect(c, s, st);
      ActiveFrame(c, s, Do(c, s, st));
    } else if st.Receive? || st.Insert? || st.Spawn? {
      ReaderStepKeepsActive(c, s, st);
    } else {
      TaskStepKeepsActive(c, s, st);
    }
  }

  lemma ReaderStepKeepsActive(c: Config, s: State, st: Step)
    requires st.Receive? || st.Insert? || st.Spawn?
    requires ActiveSound(s) && ReaderSound(c, s) && Enabled(c, s, st)
    ensures ActiveSound(Do(c, s, st)) && ReaderSound(c, Do(c, s, st))
  {
    hide Violation;
  }

  lemma TaskStepKeepsActive(c: Config, s: State, st: Step)
    requires !CallStep(st) && !st.Receive? && !st.Insert? && !st.Spawn?
    requires ActiveSound(s) && ReaderSound(c, s) && Enabled(c, s, st)
    ensures ActiveSound(Do(c, s, st)) && ReaderSound(c, Do(c, s, st))
  {
    hide Violation, TypeOf, FrameOf, EventFrame;
    var u := Do(c, s, st);
    assert u.reader == s.reader && u.active.Keys <= s.active.Keys;
    forall r | r in u.active
      ensures HasTask(u, u.active[r]) && u.tasks[u.active[r]].ctx.requestId == r && InMap(u.tasks[u.active[r]].phase)
    {
      assert HasTask(s, s.active[r]);
    }
  }

  lemma ContextsKept(c: Config, s: State, st: Step)
    requires ReaderSound(c, s) && ContextsSound(c, s) && Enabled(c, s, st)
    ensures ContextsSound(c, Do(c, s, st))
  {
    hide FrameOf, EventFrame;
  }

  lemma ClaimsFrame(s: State, u: State)
    requires ClaimsSound(s) && SameCalls(s, u)
    ensures ClaimsSound(u)
  {
    forall k | 0 <= k < |u.calls|
      ensures HasCall(u, k) && ClaimSound(u, k)
    {
      assert HasCall(s, k) && ClaimSound(s, k);
    }
  }

  lemma ClaimsKept(c: Config, s: State, st: Step)
    requires ClaimsSound(s) && Enabled(c, s, st)
    ensures ClaimsSound(Do(c, s, st))
  {
    hide FrameOf, EventFrame, Violation;
    if !CallStep(st) && !st.CheckResponded? {
      TaskStepEffect(c, s, st);
      ClaimsFrame(s, Do(c, s, st));
    } else {
      CallStepKeepsClaims(c, s, st);
    }
  }

  lemma CallStepKeepsClaims(c: Config, s: State, st: Step)
    requires CallStep(st) || st.CheckResponded?
    requires ClaimsSound(s) && Enabled(c, s, st)
    ensures ClaimsSound(Do(c, s, st))
  {
    hide FrameOf, EventFrame, ClaimSound;
    var u := Do(c, s, st);
    forall k | 0 <= k < |u.calls|
      ensures HasCall(u, k) && ClaimSound(u, k)
    {
      CallStaysSound(c, s, st, k);
    }
    forall t | 0 <= t < |u.tasks| && u.tasks[t].claimer.Some?
      ensures var k := u.tasks[t].claimer.value;
        HasCall(u, k) && u.calls[k].task == t && Terminal(u.calls[k].op)
    {
      if s.tasks[t].claimer.Some? {
        assert HasCall(s, s.tasks[t].claimer.value);
      }
    }
  }

  lemma CallStaysSound(c: Config, s: State, st: Step, k: nat)
    requires CallStep(st) || st.CheckResponded?
    requires ClaimsSound(s) && Enabled(c, s, st) && k < |Do(c, s, st).calls|
    ensures HasCall(Do(c, s, st), k) && ClaimSound(Do(c, s, st), k)
  {
    hide FrameOf, EventFrame, Violation, TypeOf, DoReceive, DoInsert, DoDispatch;
    if k < |s.calls| {
      assert HasCall(s, k) && ClaimSound(s, k);
    }
  }

  lemma LogFrame(s: State, u: State)
    requires LogSound(s) && SameCalls(s, u)
    ensures LogSound(u)
  {
    hide FrameOf, EventFrame;
    forall j | 0 <= j < |u.log|
      ensures EntrySound(u, j)
    {
      assert EntrySound(s, j);
    }
  }

  lemma LogKept(c: Config, s: State, st: Step)
    requires LogSound(s) && Enabled(c, s, st)
    ensures LogSound(Do(c, s, st))
  {
    hide FrameOf, EventFrame, Violation;
    if !CallStep(st) && !st.CheckResponded? {
      TaskStepEffect(c, s, st);
      LogFrame(s, Do(c, s, st));
    } else {
      CallStepKeepsLog(c, s, st);
    }
  }

  lemma CallStepKeepsLog(c: Config, s: State, st: Step)
    requires CallStep(st) || st.CheckResponded?
    requires LogSound(s) && Enabled(c, s, st)
    ensures LogSound(Do(c, s, st))
  {
    hide FrameOf, EventFrame, EntrySound, Violation, TypeOf;
    var u := Do(c, s, st);
    forall j | 0 <= j < |u.log|
      ensures EntrySound(u, j)
    {
      EntryStaysSound(c, s, st, j);
    }
  }

  lemma EntryStaysSound(c: Config, s: State, st: Step, j: nat)
    requires CallStep(st) || st.CheckResponded?
    requires LogSound(s) && Enabled(c, s, st) && j < |Do(c, s, st).log|
    ensures EntrySound(Do(c, s, st), j)
  {
    hide FrameOf, EventFrame, Violation, TypeOf;
    if j < |s.log| {
      assert EntrySound(s, j);
    }
  }

  lemma OutcomeKept(c: Config, s: State, st: Step, t: nat)
    requires OutcomesSound(c, s) && ClaimsSound(s) && Enabled(c, s, st)
    requires HasTask(Do(c, s, st), t)
    ensures OutcomeSound(c, Do(c, s, st), t)
  {
    hide FrameOf, EventFrame, Violation;
    if t < |s.tasks| {
      assert OutcomeSound(c, s, t);
      if CallStep(st) {
        CallStepKeepsOutcome(c, s, st, t);
      } else {
        TaskStepKeepsOutcome(c, s, st, t);
      }
    }
  }

  lemma CallStepKeepsOutcome(c: Config, s: State, st: Step, t: nat)
    requires CallStep(st) && Enabled(c, s, st) && HasTask(s, t) && OutcomeSound(c, s, t)
    ensures HasTask(Do(c, s, st), t) && OutcomeSound(c, Do(c, s, st), t)
  {
    hide FrameOf, EventFrame;
    CallStepEffect(c, s, st);
  }

  lemma TaskStepKeepsOutcome(c: Config, s: State, st: Step, t: nat)
    requires !CallStep(st) && Enabled(c, s, st) && HasTask(s, t) && OutcomeSound(c, s, t) && ClaimsSound(s)
    ensures HasTask(Do(c, s, st), t) && OutcomeSound(c, Do(c, s, st), t)
  {
    hide Violation, TypeOf, FrameOf, EventFrame, ClaimsSound;
    if st == AutoDone(t) {
      AutoClaims(c, s, t);
    }
  }

  lemma AutoClaims(c: Config, s: State, t: nat)
    requires HasTask(s, t) && OutcomeSound(c, s, t) && ClaimsSound(s) && Enabled(c, s, AutoDone(t))
    ensures s.tasks[t].claimer.Some?
  {
    hide Violation, TypeOf, FrameOf, EventFrame;
    var k := s.tasks[t].phase.call;
    assert HasCall(s, k) && ClaimSound(s, k);
  }

  lemma EnteredIsKnown(c: Config, s: State, t: nat)
    requires OutcomesSound(c, s) && HasTask(s, t) && s.tasks[t].entered
    ensures s.tasks[t].ctx.methodId in c.types
  {
    assert OutcomeSound(c, s, t);
  }

  lemma OutcomesKept(c: Config, s: State, st: Step)
    requires OutcomesSound(c, s) && ClaimsSound(s) && Enabled(c, s, st)
    ensures OutcomesSound(c, Do(c, s, st))
  {
    hide FrameOf, EventFrame, Violation, OutcomeSound, ClaimSound;
    var u := Do(c, s, st);
    forall t | 0 <= t < |u.tasks|
      ensures OutcomeSound(c, u, t)
    {
      OutcomeKept(c, s, st, t);
    }
    if st.Start? {
      EnteredIsKnown(c, s, st.t);
    }
    forall k | 0 <= k < |u.calls|
      ensures u.calls[k].task < |u.tasks|
      ensures u.tasks[u.calls[k].task].ctx.methodId !in c.types ==> u.calls[k].op.Error?
    {
      if k < |s.calls| {
        assert s.calls[k] in s.calls;
      }
    }
  }

  lemma StepKeeps(c: Config, s: State, st: Step)
    requires Inv(c, s) && Enabled(c, s, st)
    ensures Inv(c, Do(c, s, st))
  {
    hide Enabled, Do, PermitsExact, ActiveSound, ReaderSound, ContextsSound, ClaimsSound, LogSound, OutcomesSound;
    PermitsKept(c, s, st);
    ActiveKept(c, s, st);
    ContextsKept(c, s, st);
    ClaimsKept(c, s, st);
    LogKept(c, s, st);
    OutcomesKept(c, s, st);
  }

  lemma {:induction false} RunKeeps(c: Config, s: State, steps: seq<Step>, t: State)
    requires Inv(c, s) && Run(c, s, steps, t)
    ensures Inv(c, t)
    decreases |steps|
  {
    hide Inv, Enabled, Do;
    if steps != [] {
      StepKeeps(c, s, steps[0]);
      RunKeeps(c, Do(c, s, steps[0]), steps[1..], t);
    }
  }

  lemma ReachableInv(c: Config, s: State)
    requires Reachable(c, s)
    ensures Inv(c, s)
  {
    hide Inv;
    InitInv(c);
    var steps :| Run(c, Init(c), steps, s);
    RunKeeps(c, Init(c), steps, s);
  }

  /** Only requests get a permit and a context: never a control frame, a response or the reserved method id. */
  lemma OnlyRequestsAdmitted(c: Config, s: State)
    requires Reachable(c, s)
    ensures s.reader.Admitting? ==> IsRequest(s.reader.header)
    ensures forall t <- s.tasks :: 1 <= t.ctx.methodId < AUTH_METHOD_ID
  {
    hide Reachable, PermitsExact, ActiveSound, ClaimsSound, LogSound, OutcomesSound;
    ReachableInv(c, s);
  }

  // One terminal frame

  /** The handler task whose context produced the `j`th accepted frame. */
  function TaskOf(s: State, j: nat): Option<nat>
    requires j < |s.log|
  {
    match s.log[j].origin
    case ByCall(k) => if k < |s.calls| then Some(s.calls[k].task) else None
    case ByEmit(_, _) => None
  }

  /** The `j`th accepted frame was sent by the call that claimed its request's slot. */
  predicate ByClaimer(s: State, j: nat)
    requires j < |s.log|
  {
    && TaskOf(s, j).Some? && HasTask(s, TaskOf(s, j).value)
    && s.tasks[TaskOf(s, j).value].claimer.Some?
    && s.log[j].origin == ByCall(s.tasks[TaskOf(s, j).value].claimer.value)
  }

  /** An accepted frame is terminal, by its decoded flags, exactly when its call claimed its request's slot. */
  lemma TerminalEntry(c: Config, s: State, j: nat)
    requires Reachable(c, s) && j < |s.log|
    ensures TerminalFrame(Inbound(s.log[j].frame)) <==> ByClaimer(s, j)
    ensures TaskOf(s, j).Some? ==>
      && HasTask(s, TaskOf(s, j).value)
      && Inbound(s.log[j].frame).header.requestId == s.tasks[TaskOf(s, j).value].ctx.requestId
      && Inbound(s.log[j].frame).header.methodId == s.tasks[TaskOf(s, j).value].ctx.methodId
  {
    hide Reachable, Inbound, TerminalFrame, FrameOf, EventFrame, PermitsExact, ActiveSound, OutcomesSound;
    ReachableInv(c, s);
    assert EntrySound(s, j);
    match s.log[j].origin
    case ByEmit(id, data) =>
      EventNotTerminal(id, data);
    case ByCall(k) =>
      assert HasCall(s, k) && ClaimSound(s, k);
      var ctx := s.tasks[s.calls[k].task].ctx;
      TerminalByFlags(ctx, s.calls[k].op, s.calls[k].payload.value);
      FrameEchoes(ctx, s.calls[k].op, s.calls[k].payload.value);
  }

  /** However calls on clones and the automatic error path interleave, a request gets at most one terminal frame. */
  lemma AtMostOneTerminal(c: Config, s: State, i: nat, j: nat)
    requires Reachable(c, s) && i < |s.log| && j < |s.log|
    requires TerminalFrame(Inbound(s.log[i].frame)) && TerminalFrame(Inbound(s.log[j].frame))
    requires TaskOf(s, i) == TaskOf(s, j)
    ensures i == j
  {
    hide Reachable, Inbound, TerminalFrame, FrameOf, EventFrame, PermitsExact, ActiveSound, OutcomesSound, ClaimsSound;
    TerminalEntry(c, s, i);
    TerminalEntry(c, s, j);
    ReachableInv(c, s);
    assert EntrySound(s, i) && EntrySound(s, j);
  }

  /** The request has a terminal frame among the accepted ones. */
  ghost predicate Answered(s: State, t: nat) {
    exists j :: 0 <= j < |s.log| && TaskOf(s, j) == Some(t) && TerminalFrame(Inbound(s.log[j].frame))
  }

  /** The request has its terminal frame exactly if the call that claimed its slot was sent. */
  lemma ClaimDecides(c: Config, s: State, t: nat)
    requires Reachable(c, s) && t < |s.tasks| && s.tasks[t].claimer.Some?
    ensures var k := s.tasks[t].claimer.value;
      && k < |s.calls|
      && (s.calls[k].phase.Sent? <==> Answered(s, t))
  {
    hide Reachable, Inbound, TerminalFrame, FrameOf, EventFrame, PermitsExact, ActiveSound, OutcomesSound;
    ReachableInv(c, s);
    var k := s.tasks[t].claimer.value;
    assert HasCall(s, k) && s.calls[k].task == t && Terminal(s.calls[k].op);
    if s.calls[k].phase.Sent? {
      var j := s.calls[k].phase.at;
      assert EntrySound(s, j);
      TerminalByFlags(s.tasks[t].ctx, s.calls[k].op, s.calls[k].payload.value);
      assert TaskOf(s, j) == Some(t);
    }
    if j :| 0 <= j < |s.log| && TaskOf(s, j) == Some(t) && TerminalFrame(Inbound(s.log[j].frame)) {
      TerminalEntry(c, s, j);
      assert EntrySound(s, j);
    }
  }

  /**
   * After a request's terminal frame, the steps that still put a frame of it on the channel are
   * exactly the sends of chunk calls: those never look at the responded flag.
   */
  lemma AfterTerminal(c: Config, s: State, st: Step, t: nat, i: nat)
    requires Reachable(c, s) && Enabled(c, s, st)
    requires i < |s.log| && TaskOf(s, i) == Some(t) && TerminalFrame(Inbound(s.log[i].frame))
    ensures var u := Do(c, s, st);
      (|u.log| > |s.log| && TaskOf(u, |s.log|) == Some(t)) <==>
        (st.SendOk? && s.calls[st.k].task == t && !Terminal(s.calls[st.k].op))
  {
    hide Reachable, Inbound, TerminalFrame, FrameOf, EventFrame, PermitsExact, ActiveSound, OutcomesSound, Violation;
    ReachableInv(c, s);
    TerminalEntry(c, s, i);
    if st.SendOk? {
      assert HasCall(s, st.k) && ClaimSound(s, st.k);
      assert EntrySound(s, i);
    }
  }

  /** The start of several runs below: the only permit is held by the handler of a stream request. */
  lemma OneRunning() returns (c: Config, s: State)
    ensures Reachable(c, s) && c == Config(1, 0, map[1 := Stream])
    ensures s == State(0, map[7 := 0], [Task(RequestContext(1, 7, Stream), Running, false, None, true)], [], [], Ready)
  {
    hide Reachable;
    c := Config(1, 0, map[1 := Stream]);
    InitReachable(c);
    s := Extend(c, Init(c), Receive(Header(1, 0, 7, 0)));
    s := Extend(c, s, Insert);
    s := Extend(c, s, Spawn);
    s := Extend(c, s, Dispatch(0));
  }

  /** So a stream chunk can reach the parent after the frame that ended the stream. */
  lemma ChunkAfterTerminal() returns (c: Config, s: State)
    ensures Reachable(c, s) && |s.log| == 2 && TaskOf(s, 0) == Some(0) && TaskOf(s, 1) == Some(0)
    ensures TerminalFrame(Inbound(s.log[0].frame)) && !TerminalFrame(Inbound(s.log[1].frame))
  {
    hide Reachable, Inbound, FrameOf, TerminalFrame;
    c, s := OneRunning();
    s := Extend(c, s, Start(0, End, Some([])));
    s := Extend(c, s, Start(0, ChunkRaw, Some([])));
    s := Extend(c, s, Claim(0));
    s := Extend(c, s, EncodePayload(0));
    s := Extend(c, s, SendOk(0));
    s := Extend(c, s, EncodePayload(1));
    s := Extend(c, s, SendOk(1));
    TerminalByFlags(s.tasks[0].ctx, End, []);
    TerminalByFlags(s.tasks[0].ctx, ChunkRaw, []);
  }

  // Failed handlers

  /**
   * A task that finished with Err has its slot claimed. If the automatic path claimed it and the
   * writer took the frame, that frame is an error echoing both ids, on the stream channel exactly
   * for stream methods; an unknown method id always gets the plain error, never anything else.
   */
  lemma FailureAnswered(c: Config, s: State, t: nat)
    requires Reachable(c, s) && t < |s.tasks| && FinishedWithErr(s.tasks[t].phase)
    ensures s.tasks[t].claimer.Some?
    ensures var k := s.tasks[t].claimer.value;
      && k < |s.calls|
      && (s.calls[k].op.Error? && s.calls[k].phase.Sent? ==>
            && s.calls[k].phase.at < |s.log|
            && var h := Inbound(s.log[s.calls[k].phase.at].frame).header;
              && h.methodId == s.tasks[t].ctx.methodId
              && h.requestId == s.tasks[t].ctx.requestId
              && h.flags == if TypeOf(c, h.methodId).Stream? then 0x0F else 0x07)
  {
    hide Reachable, Inbound, FrameOf, EventFrame, PermitsExact, ActiveSound;
    ReachableInv(c, s);
    assert OutcomeSound(c, s, t);
    var k := s.tasks[t].claimer.value;
    assert HasCall(s, k) && ClaimSound(s, k);
    if s.calls[k].op.Error? && s.calls[k].phase.Sent? {
      assert EntrySound(s, s.calls[k].phase.at);
      FrameEchoes(s.tasks[t].ctx, Error, s.calls[k].payload.value);
    }
  }

  /** The call will fail or has failed: its payload does not encode, or the writer refused it. */
  predicate Doomed(call: Call) {
    call.payload.None? || call.phase.Failed?
  }

  /** A claim is for good, and so is its failure. */
  lemma ClaimStays(c: Config, s: State, st: Step, t: nat)
    requires ClaimsSound(s) && Enabled(c, s, st) && HasTask(s, t) && s.tasks[t].claimer.Some?
    ensures var k, u := s.tasks[t].claimer.value, Do(c, s, st);
      && HasTask(u, t) && u.tasks[t].claimer == Some(k) && k < |s.calls| && k < |u.calls|
      && (Doomed(s.calls[k]) ==> Doomed(u.calls[k]))
  {
    hide FrameOf, EventFrame, Violation, TypeOf;
    assert HasCall(s, s.tasks[t].claimer.value);
  }

  lemma {:induction false} StaysDoomed(c: Config, s: State, steps: seq<Step>, u: State, t: nat)
    requires Inv(c, s) && Run(c, s, steps, u) && HasTask(s, t) && s.tasks[t].claimer.Some?
    requires var k := s.tasks[t].claimer.value; k < |s.calls| && Doomed(s.calls[k])
    ensures Inv(c, u) && HasTask(u, t) && u.tasks[t].claimer == s.tasks[t].claimer
    ensures var k := u.tasks[t].claimer.value; k < |u.calls| && Doomed(u.calls[k])
    decreases |steps|
  {
    hide Enabled, Do, PermitsExact, ActiveSound, ReaderSound, ContextsSound, ClaimsSound, LogSound, OutcomesSound;
    if steps != [] {
      StepKeeps(c, s, steps[0]);
      ClaimStays(c, s, steps[0], t);
      StaysDoomed(c, Do(c, s, steps[0]), steps[1..], u, t);
    }
  }

  /** The claiming call, if it is not doomed, can still be sent. */
  lemma CanFinish(c: Config, s: State, t: nat) returns (steps: seq<Step>, u: State)
    requires Reachable(c, s) && HasTask(s, t) && s.tasks[t].claimer.Some?
    requires var k := s.tasks[t].claimer.value; k < |s.calls| && !Doomed(s.calls[k])
    ensures Run(c, s, steps, u) && Reachable(c, u)
    ensures HasTask(u, t) && u.tasks[t].claimer == s.tasks[t].claimer
    ensures var k := u.tasks[t].claimer.value; k < |u.calls| && u.calls[k].phase.Sent?
  {
    hide Reachable, Run, PermitsExact, ActiveSound, ReaderSound, LogSound, OutcomesSound, FrameOf;
    ReachableInv(c, s);
    var k := s.tasks[t].claimer.value;
    assert HasCall(s, k) && ClaimSound(s, k);
    NoSteps(c, s);
    steps, u := [], s;
    if u.calls[k].phase.Claimed? {
      steps, u := RunThen(c, s, steps, u, EncodePayload(k));
    }
    if u.calls[k].phase.Encoded? {
      steps, u := RunThen(c, s, steps, u, SendOk(k));
    }
    RunReachable(c, s, steps, u);
  }

  lemma NoSteps(c: Config, s: State)
    ensures Run(c, s, [], s)
  {
  }

  lemma RunThen(c: Config, s: State, steps: seq<Step>, t: State, st: Step) returns (more: seq<Step>, u: State)
    requires Run(c, s, steps, t) && Enabled(c, t, st)
    ensures more == steps + [st] && u == Do(c, t, st) && Run(c, s, more, u)
  {
    hide Run;
    more, u := steps + [st], Do(c, t, st);
    OneStepRun(c, t, st);
    RunOn(c, s, steps, t, [st], u);
  }

  /**
   * Exactly when a claimed request, and so any request whose handler failed, can still be answered:
   * its payload encodes and the writer has not refused it. Otherwise the claim stays and the request
   * is unanswered in every later state, because neither handler nor automatic path can claim again.
   */
  lemma AnswerableIff(c: Config, s: State, t: nat)
    requires Reachable(c, s) && HasTask(s, t) && s.tasks[t].claimer.Some?
    ensures var k := s.tasks[t].claimer.value;
      k < |s.calls| && (!Doomed(s.calls[k]) <==> exists steps, u :: Run(c, s, steps, u) && Answered(u, t))
  {
    hide Reachable, Run, Inv, Inbound, TerminalFrame;
    ReachableInv(c, s);
    ClaimDecides(c, s, t);
    if !Doomed(s.calls[s.tasks[t].claimer.value]) {
      var steps, u := CanFinish(c, s, t);
      ClaimDecides(c, u, t);
    } else {
      forall steps, u | Run(c, s, steps, u)
        ensures !Answered(u, t)
      {
        StaysDoomed(c, s, steps, u, t);
        RunReachable(c, s, steps, u);
        DoomedUnanswered(c, u, t);
      }
    }
  }

  lemma DoomedUnanswered(c: Config, s: State, t: nat)
    requires Reachable(c, s) && HasTask(s, t) && s.tasks[t].claimer.Some?
    requires var k := s.tasks[t].claimer.value; k < |s.calls| && Doomed(s.calls[k])
    ensures !Answered(s, t)
  {
    hide Reachable, Inbound, TerminalFrame, PermitsExact, ActiveSound, ReaderSound, LogSound, OutcomesSound;
    ReachableInv(c, s);
    ClaimDecides(c, s, t);
    var k := s.tasks[t].claimer.value;
    assert HasCall(s, k) && ClaimSound(s, k);
  }

  /** A run that gets there: `respond` claims and fails to encode, the handler fails, and nothing is ever sent. */
  lemma FailedRespondSilences() returns (c: Config, s: State)
    ensures Reachable(c, s) && |s.tasks| == 1 && s.tasks[0].phase == Done(true) && s.log == []
    ensures forall steps, u :: Run(c, s, steps, u) ==> !Answered(u, 0)
  {
    hide Reachable, Run;
    c, s := OneRunning();
    s := Extend(c, s, Start(0, Respond, None));
    s := Extend(c, s, Claim(0));
    s := Extend(c, s, EncodePayload(0));
    s := Extend(c, s, Return(0, false));
    s := Extend(c, s, CheckResponded(0, Some([])));
    s := Extend(c, s, Remove(0));
    s := Extend(c, s, Finish(0));
    AnswerableIff(c, s, 0);
  }

  lemma UnknownMethodOnlyErrors(c: Config, s: State, j: nat)
    requires Reachable(c, s) && j < |s.log| && TaskOf(s, j).Some?
    ensures HasTask(s, TaskOf(s, j).value)
    ensures var ctx := s.tasks[TaskOf(s, j).value].ctx;
      ctx.methodId !in c.types ==> Inbound(s.log[j].frame).header.flags == 0x07
  {
    hide Reachable, Inbound, FrameOf, EventFrame, PermitsExact, ActiveSound;
    ReachableInv(c, s);
    assert EntrySound(s, j);
    var k := s.log[j].origin.call;
    assert HasCall(s, k);
    FrameEchoes(s.tasks[s.calls[k].task].ctx, s.calls[k].op, s.calls[k].payload.value);
  }

  /** A request for an unregistered method never finishes well: its task ends only through the error path. */
  lemma UnknownMethodFails(c: Config, s: State, t: nat)
    requires Reachable(c, s) && t < |s.tasks| && s.tasks[t].ctx.methodId !in c.types
    ensures s.tasks[t].phase.Done? ==> s.tasks[t].phase.failed && s.tasks[t].claimer.Some?
  {
    hide Reachable, PermitsExact, ActiveSound;
    ReachableInv(c, s);
    assert OutcomeSound(c, s, t);
  }

  // Calls that are awaited

  lemma LogGrows(c: Config, s: State, st: Step)
    requires Enabled(c, s, st)
    ensures s.log <= Do(c, s, st).log && |s.calls| <= |Do(c, s, st).calls|
    ensures forall k :: 0 <= k < |s.calls| && Returned(s.calls[k].phase) ==> Do(c, s, st).calls[k] == s.calls[k]
  {
    hide FrameOf, EventFrame, Violation, TypeOf;
  }

  lemma {:induction false} HistoryGrows(c: Config, s: State, steps: seq<Step>, u: State)
    requires Run(c, s, steps, u)
    ensures s.log <= u.log && |s.calls| <= |u.calls|
    ensures forall k :: 0 <= k < |s.calls| && Returned(s.calls[k].phase) ==> u.calls[k] == s.calls[k]
    decreases |steps|
  {
    hide Enabled, Do;
    if steps != [] {
      LogGrows(c, s, steps[0]);
      HistoryGrows(c, Do(c, s, steps[0]), steps[1..], u);
    }
  }

  /**
   * Calls keep the order in which they are awaited: if one had returned before another was made, and
   * both were sent, then the first one's frame was accepted first.
   */
  lemma AwaitedInOrder(c: Config, s: State, steps: seq<Step>, u: State, first: nat, second: nat)
    requires Reachable(c, s) && Run(c, s, steps, u)
    requires first < |s.calls| && Returned(s.calls[first].phase) && |s.calls| <= second < |u.calls|
    ensures first < |u.calls|
    ensures u.calls[first].phase.Sent? && u.calls[second].phase.Sent? ==>
      u.calls[first].phase.at < u.calls[second].phase.at < |u.log|
  {
    hide Reachable, Run, PermitsExact, ActiveSound, ClaimsSound, OutcomesSound, FrameOf, EventFrame;
    ReachableInv(c, s);
    RunReachable(c, s, steps, u);
    ReachableInv(c, u);
    HistoryGrows(c, s, steps, u);
    EntriesHaveCalls(s);
  }

  lemma EntriesHaveCalls(s: State)
    requires LogSound(s)
    ensures forall j :: 0 <= j < |s.log| && s.log[j].origin.ByCall? ==> s.log[j].origin.call < |s.calls|
  {
    hide FrameOf, EventFrame;
    forall j | 0 <= j < |s.log| && s.log[j].origin.ByCall?
      ensures s.log[j].origin.call < |s.calls|
    {
      assert EntrySound(s, j);
    }
  }

  /** A step that makes a chunk call on the request's context. */
  predicate ChunkStart(st: Step, t: nat) {
    st.Start? && st.t == t && !Terminal(st.op)
  }

  lemma CallKept(c: Config, s: State, st: Step)
    requires Enabled(c, s, st)
    ensures var u := Do(c, s, st);
      && (forall k :: 0 <= k < |s.calls| && k < |u.calls| ==>
            u.calls[k].(phase := s.calls[k].phase) == s.calls[k])
      && (forall k :: |s.calls| <= k < |u.calls| && !Terminal(u.calls[k].op) ==> ChunkStart(st, u.calls[k].task))
  {
    hide FrameOf, EventFrame, Violation, TypeOf;
  }

  lemma {:induction false} NewCallsTerminal(c: Config, s: State, steps: seq<Step>, u: State, t: nat)
    requires Run(c, s, steps, u) && forall st <- steps :: !ChunkStart(st, t)
    ensures |s.calls| <= |u.calls|
    ensures forall k :: 0 <= k < |s.calls| ==> u.calls[k].(phase := s.calls[k].phase) == s.calls[k]
    ensures forall k :: |s.calls| <= k < |u.calls| && u.calls[k].task == t ==> Terminal(u.calls[k].op)
    decreases |steps|
  {
    hide Enabled, Do;
    if steps != [] {
      var s1 := Do(c, s, steps[0]);
      assert steps[0] in steps;
      LogGrows(c, s, steps[0]);
      CallKept(c, s, steps[0]);
      NewCallsTerminal(c, s1, steps[1..], u, t);
      HistoryGrows(c, s1, steps[1..], u);
      forall k | |s.calls| <= k < |u.calls| && u.calls[k].task == t
        ensures Terminal(u.calls[k].op)
      {
        if k < |s1.calls| {
          assert u.calls[k].(phase := s1.calls[k].phase) == s1.calls[k];
        }
      }
    }
  }

  /**
   * What a handler must do for its terminal frame to be its last: if all its calls had returned at some
   * point and it makes no chunk call from then on, nothing of the request follows a terminal frame
   * accepted after that point.
   */
  lemma AwaitedTerminalIsLast(c: Config, s: State, steps: seq<Step>, u: State, t: nat, i: nat, j: nat)
    requires Reachable(c, s) && Run(c, s, steps, u) && forall st <- steps :: !ChunkStart(st, t)
    requires forall call <- s.calls :: call.task == t ==> Returned(call.phase)
    requires |s.log| <= i < |u.log| && j < |u.log| && TaskOf(u, i) == TaskOf(u, j) == Some(t)
    requires TerminalFrame(Inbound(u.log[i].frame))
    ensures j <= i
  {
    hide Reachable, Run, Inbound, TerminalFrame, PermitsExact, ActiveSound, ClaimsSound, OutcomesSound, FrameOf,
      EventFrame;
    ReachableInv(c, s);
    RunReachable(c, s, steps, u);
    ReachableInv(c, u);
    HistoryGrows(c, s, steps, u);
    NewCallsTerminal(c, s, steps, u, t);
    assert EntrySound(u, j);
    var k := u.log[j].origin.call;
    if k < |s.calls| {
      assert s.calls[k] in s.calls;
    } else {
      SentEntryTerminal(c, u, j);
      AtMostOneTerminal(c, u, i, j);
    }
  }

  lemma SentEntryTerminal(c: Config, s: State, j: nat)
    requires Reachable(c, s) && j < |s.log| && TaskOf(s, j).Some? && Terminal(s.calls[s.log[j].origin.call].op)
    ensures TerminalFrame(Inbound(s.log[j].frame))
  {
    hide Reachable, Inbound, TerminalFrame, PermitsExact, ActiveSound, OutcomesSound, FrameOf, EventFrame;
    ReachableInv(c, s);
    assert EntrySound(s, j);
    var k := s.log[j].origin.call;
    TerminalByFlags(s.tasks[s.calls[k].task].ctx, s.calls[k].op, s.calls[k].payload.value);
  }

  // Requests at capacity

  /** A request that arrives when all permits are held leaves no trace: no task, no frame, no error. */
  lemma DroppedIffFull(c: Config, s: State, h: Header)
    requires Reachable(c, s) && Enabled(c, s, Receive(h)) && IsRequest(h)
    ensures Do(c, s, Receive(h)) == s <==> Count(s.tasks, HoldsPermit) == c.maxHandlers
  {
    hide Reachable, Count, ActiveSound, ClaimsSound, LogSound, OutcomesSound, Violation;
    ReachableInv(c, s);
  }

  /** A run that gets there: with one permit, a second request vanishes while the first is being handled. */
  lemma CapacityDrops() returns (c: Config, s: State, h: Header)
    ensures Reachable(c, s) && Enabled(c, s, Receive(h)) && IsRequest(h) && h.methodId in c.types
    ensures Do(c, s, Receive(h)) == s && forall t <- s.tasks :: t.ctx.requestId != h.requestId
  {
    hide Reachable;
    c, s := OneRunning();
    h := Header(1, 0, 8, 0);
  }

  // The active map

  lemma {:induction false} KeysWithinHolders(keys: set<u32>, active: map<u32, nat>, tasks: seq<Task>)
    requires keys <= active.Keys
    requires forall r <- keys ::
      active[r] < |tasks| && tasks[active[r]].ctx.requestId == r && InFlight(tasks[active[r]])
    ensures |keys| <= Count(tasks, HoldsPermit)
    decreases |tasks|
  {
    hide Count;
    if tasks == [] {
      assert keys == {} by {
        if r :| r in keys {
          assert false;
        }
      }
    } else {
      var n := |tasks| - 1;
      var before, last := tasks[..n], tasks[n];
      assert tasks == before + [last];
      CountAppend(before, last, HoldsPermit);
      var r := last.ctx.requestId;
      if r in keys && active[r] == n {
        KeysWithinHolders(keys - {r}, active, before);
      } else {
        KeysWithinHolders(keys, active, before);
      }
    }
  }

  /** Even with duplicate ids: every entry belongs to a task holding a permit, so the map stays within the limit. */
  lemma ActiveMapSafe(c: Config, s: State)
    requires Reachable(c, s)
    ensures forall r <- s.active :: exists t: nat ::
      HasTask(s, t) && s.tasks[t].ctx.requestId == r && HoldsPermit(s.tasks[t])
    ensures |s.active| <= Count(s.tasks, HoldsPermit) <= c.maxHandlers
  {
    hide Reachable, ClaimsSound, LogSound, OutcomesSound, Count;
    ReachableInv(c, s);
    forall r | r in s.active
      ensures HasTask(s, s.active[r]) && s.tasks[s.active[r]].ctx.requestId == r && HoldsPermit(s.tasks[s.active[r]])
    {
    }
    KeysWithinHolders(s.active.Keys, s.active, s.tasks);
    assert |s.active.Keys| == |s.active|;
  }

  // Who owns the entry under an id

  /** The entry under the request's id holds its own token, which an ABORT for that id cancels. */
  predicate Owns(s: State, t: nat) {
    HasTask(s, t) && s.tasks[t].ctx.requestId in s.active && s.active[s.tasks[t].ctx.requestId] == t
  }

  /** A step that overwrites or removes the entry under `id`. */
  predicate Disturbs(s: State, st: Step, id: u32) {
    || (st.Insert? && s.reader.Admitting? && s.reader.header.requestId == id)
    || (st.Remove? && HasTask(s, st.t) && s.tasks[st.t].ctx.requestId == id)
  }

  /** Some step of the run overwrites or removes the entry under `id`. */
  ghost predicate Disturbed(c: Config, s: State, steps: seq<Step>, id: u32)
    decreases |steps|
  {
    && steps != [] && Enabled(c, s, steps[0])
    && (Disturbs(s, steps[0], id) || Disturbed(c, Do(c, s, steps[0]), steps[1..], id))
  }

  /** Admission makes the new task the owner of its entry, whoever owned it before, and not cancelled. */
  lemma AdmissionOwns(c: Config, s: State)
    requires Enabled(c, s, Insert)
    ensures Owns(Do(c, s, Insert), |s.tasks|)
    ensures Do(c, s, Insert).tasks[|s.tasks|].ctx.requestId == s.reader.header.requestId
    ensures !Do(c, s, Insert).tasks[|s.tasks|].cancelled
  {
  }

  /** One step takes ownership away exactly if it disturbs the entry, and never gives it to an older task. */
  lemma OwnershipStep(c: Config, s: State, st: Step, t: nat)
    requires HasTask(s, t) && Enabled(c, s, st)
    ensures HasTask(Do(c, s, st), t) && Do(c, s, st).tasks[t].ctx == s.tasks[t].ctx
    ensures Owns(Do(c, s, st), t) <==> Owns(s, t) && !Disturbs(s, st, s.tasks[t].ctx.requestId)
  {
    hide FrameOf, EventFrame, Violation, TypeOf;
  }

  /** Only the read loop's own steps admit anything: all others leave ids and the admission alone. */
  lemma AdmissionFrame(c: Config, s: State, st: Step)
    requires Enabled(c, s, st) && !st.Receive? && !st.Insert?
    ensures var u := Do(c, s, st);
      && |u.tasks| == |s.tasks| && (forall t :: 0 <= t < |s.tasks| ==> u.tasks[t].ctx == s.tasks[t].ctx)
      && u.reader.Admitting? == s.reader.Admitting?
      && (u.reader.Admitting? ==> u.reader == s.reader)
  {
    hide FrameOf, EventFrame, Violation, TypeOf;
  }

  lemma {:induction false} OwnershipRun(c: Config, s: State, steps: seq<Step>, u: State, t: nat)
    requires HasTask(s, t) && Run(c, s, steps, u)
    ensures HasTask(u, t) && u.tasks[t].ctx == s.tasks[t].ctx
    ensures Owns(u, t) <==> Owns(s, t) && !Disturbed(c, s, steps, s.tasks[t].ctx.requestId)
    decreases |steps|
  {
    hide Enabled, Do, Owns, Disturbs;
    if steps != [] {
      OwnershipStep(c, s, steps[0], t);
      OwnershipRun(c, Do(c, s, steps[0]), steps[1..], u, t);
    }
  }

  // Cancellation

  ghost predicate IsAbort(st: Step) {
    st.Receive? && st.header.methodId == ABORT_METHOD_ID
  }

  /**
   * Exactly when an ABORT reaches a request, in every run and whatever other ids are in flight: from a
   * state where the request owns its entry, as it does when admitted, an ABORT for its id finds its token
   * if and only if no step since then inserted a request under that id or removed a task with that id.
   */
  lemma AbortReachesIff(c: Config, s: State, steps: seq<Step>, u: State, t: nat, h: Header)
    requires Owns(s, t) && Run(c, s, steps, u)
    requires Enabled(c, u, Receive(h)) && h.methodId == ABORT_METHOD_ID && h.requestId == s.tasks[t].ctx.requestId
    ensures HasTask(u, t) && HasTask(Do(c, u, Receive(h)), t)
    ensures Do(c, u, Receive(h)).tasks[t].cancelled
      <==> u.tasks[t].cancelled || !Disturbed(c, s, steps, h.requestId)
  {
    hide Run, Disturbed, Violation;
    OwnershipRun(c, s, steps, u, t);
  }

  /** At most one request in flight carries `id`: what the protocol asks of the parent, one id at a time. */
  ghost predicate LoneInFlight(s: State, id: u32) {
    forall i, j :: 0 <= i < j < |s.tasks| && InFlight(s.tasks[i]) && InFlight(s.tasks[j]) ==>
      !(s.tasks[i].ctx.requestId == id && s.tasks[j].ctx.requestId == id)
  }

  /** A run in which `id` is never carried by two requests in flight; other ids may collide. */
  ghost predicate LoneRun(c: Config, s: State, steps: seq<Step>, t: State, id: u32)
    decreases |steps|
  {
    && LoneInFlight(s, id)
    && if steps == [] then s == t
       else Enabled(c, s, steps[0]) && LoneRun(c, Do(c, s, steps[0]), steps[1..], t, id)
  }

  ghost predicate LoneReachable(c: Config, s: State, id: u32) {
    exists steps :: LoneRun(c, Init(c), steps, s, id)
  }

  ghost predicate OwnersComplete(s: State, id: u32) {
    forall t :: 0 <= t < |s.tasks| && s.tasks[t].ctx.requestId == id && InMap(s.tasks[t].phase) ==> Owns(s, t)
  }

  lemma StaysOutOfMap(c: Config, s: State, st: Step, t: nat)
    requires HasTask(s, t) && ReaderSound(c, s) && Enabled(c, s, st)
    ensures HasTask(Do(c, s, st), t)
    ensures InMap(Do(c, s, st).tasks[t].phase) ==> InMap(s.tasks[t].phase) && st != Remove(t)
  {
    hide FrameOf, EventFrame, Violation, TypeOf;
  }

  lemma OwnersCompleteKept(c: Config, s: State, st: Step, id: u32)
    requires OwnersComplete(s, id) && LoneInFlight(s, id) && ReaderSound(c, s)
    requires Enabled(c, s, st) && LoneInFlight(Do(c, s, st), id)
    ensures OwnersComplete(Do(c, s, st), id)
  {
    hide FrameOf, EventFrame, Violation, TypeOf;
    var u := Do(c, s, st);
    forall t | 0 <= t < |u.tasks| && u.tasks[t].ctx.requestId == id && InMap(u.tasks[t].phase)
      ensures Owns(u, t)
    {
      if HasTask(s, t) {
        OwnershipStep(c, s, st, t);
        StaysOutOfMap(c, s, st, t);
        if st.Insert? {
          assert InFlight(u.tasks[t]) && InFlight(u.tasks[|s.tasks|]);
        } else if st.Remove? {
          assert InFlight(s.tasks[t]) && InFlight(s.tasks[st.t]);
        }
      } else {
        AdmissionOwns(c, s);
      }
    }
  }

  lemma {:induction false} LoneRunKeeps(c: Config, s: State, steps: seq<Step>, t: State, id: u32)
    requires Inv(c, s) && OwnersComplete(s, id) && LoneRun(c, s, steps, t, id)
    ensures Inv(c, t) && OwnersComplete(t, id) && Run(c, s, steps, t)
    decreases |steps|
  {
    hide Enabled, Do, PermitsExact, ActiveSound, OwnersComplete, ReaderSound, ContextsSound, ClaimsSound, LogSound,
      OutcomesSound, LoneInFlight;
    if steps != [] {
      StepKeeps(c, s, steps[0]);
      OwnersCompleteKept(c, s, steps[0], id);
      LoneRunKeeps(c, Do(c, s, steps[0]), steps[1..], t, id);
    }
  }

  lemma LoneInv(c: Config, s: State, id: u32)
    requires LoneReachable(c, s, id)
    ensures Inv(c, s) && OwnersComplete(s, id)
  {
    hide Inv, LoneInFlight;
    InitInv(c);
    var steps :| LoneRun(c, Init(c), steps, s, id);
    LoneRunKeeps(c, Init(c), steps, s, id);
  }

  /** For an id never doubled in flight, the map has its key exactly while a task is between insert and remove. */
  lemma ActiveMapExact(c: Config, s: State, id: u32)
    requires LoneReachable(c, s, id)
    ensures forall t :: 0 <= t < |s.tasks| && s.tasks[t].ctx.requestId == id ==>
      (InMap(s.tasks[t].phase) <==> Owns(s, t))
    ensures id in s.active <==>
      exists t: nat :: HasTask(s, t) && s.tasks[t].ctx.requestId == id && InMap(s.tasks[t].phase)
  {
    hide LoneReachable, PermitsExact, ReaderSound, ContextsSound, ClaimsSound, LogSound, OutcomesSound;
    LoneInv(c, s, id);
  }

  /** When that holds of every id, the keys are exactly the ids of handler tasks between insert and remove. */
  lemma ActiveKeysExact(c: Config, s: State)
    requires forall id: u32 :: LoneReachable(c, s, id)
    ensures s.active.Keys == set t | 0 <= t < |s.tasks| && InMap(s.tasks[t].phase) :: s.tasks[t].ctx.requestId
  {
    hide LoneReachable;
    forall id: u32
      ensures id in s.active <==>
        exists t: nat :: HasTask(s, t) && s.tasks[t].ctx.requestId == id && InMap(s.tasks[t].phase)
    {
      ActiveMapExact(c, s, id);
    }
  }

  /**
   * An ABORT reaches its target: for an id never doubled in flight, every request already admitted
   * under it is cancelled, or its task has removed its entry; no other request's token is touched.
   */
  lemma AbortReachesTarget(c: Config, s: State, h: Header)
    requires LoneReachable(c, s, h.requestId) && Enabled(c, s, Receive(h)) && h.methodId == ABORT_METHOD_ID
    ensures var u := Do(c, s, Receive(h));
      && u == s.(tasks := u.tasks) && |u.tasks| == |s.tasks|
      && (forall t :: 0 <= t < |s.tasks| && s.tasks[t].ctx.requestId == h.requestId ==>
            u.tasks[t].cancelled || u.tasks[t].phase.Removed? || u.tasks[t].phase.Done?)
      && (forall t :: 0 <= t < |s.tasks| && s.tasks[t].ctx.requestId != h.requestId ==> u.tasks[t] == s.tasks[t])
  {
    hide LoneReachable, PermitsExact, ContextsSound, ClaimsSound, LogSound, OutcomesSound, Violation;
    LoneInv(c, s, h.requestId);
  }

  /**
   * In every run a token is cancelled only by an ABORT that names its request or by a handler that
   * was given the request's own context, and it stays cancelled.
   */
  lemma WhoCancels(c: Config, s: State, st: Step, t: nat)
    requires Reachable(c, s) && Enabled(c, s, st) && t < |s.tasks|
    ensures t < |Do(c, s, st).tasks| && Do(c, s, st).tasks[t].ctx == s.tasks[t].ctx
    ensures s.tasks[t].cancelled ==> Do(c, s, st).tasks[t].cancelled
    ensures !s.tasks[t].cancelled && Do(c, s, st).tasks[t].cancelled ==>
      || (IsAbort(st) && st.header.requestId == s.tasks[t].ctx.requestId)
      || (st == CancelOwn(t) && s.tasks[t].ctx.methodId in c.types)
    ensures st == CancelOwn(t) ==> Do(c, s, st).tasks[t].cancelled
  {
    hide Reachable, PermitsExact, ClaimsSound, LogSound, OutcomeSound, Violation, FrameOf, EventFrame;
    ReachableInv(c, s);
    if st == CancelOwn(t) {
      EnteredIsKnown(c, s, t);
    }
  }

  lemma {:induction false} RunOn(c: Config, s: State, steps: seq<Step>, t: State, more: seq<Step>, u: State)
    requires Run(c, s, steps, t) && Run(c, t, more, u)
    ensures Run(c, s, steps + more, u)
    decreases |steps|
  {
    hide Enabled, Do;
    if steps == [] {
      assert steps + more == more;
    } else {
      RunOn(c, Do(c, s, steps[0]), steps[1..], t, more, u);
      assert (steps + more)[1..] == steps[1..] + more;
    }
  }

  lemma RunReachable(c: Config, s: State, steps: seq<Step>, u: State)
    requires Reachable(c, s) && Run(c, s, steps, u)
    ensures Reachable(c, u)
  {
    hide Run;
    var before :| Run(c, Init(c), before, s);
    RunOn(c, Init(c), before, s, steps, u);
  }

  lemma OneStepRun(c: Config, s: State, st: Step)
    requires Enabled(c, s, st)
    ensures Run(c, s, [st], Do(c, s, st))
  {
    hide Enabled, Do;
    assert [st][1..] == [];
  }

  lemma Extend(c: Config, s: State, st: Step) returns (t: State)
    requires Reachable(c, s) && Enabled(c, s, st)
    ensures t == Do(c, s, st) && Reachable(c, t)
  {
    t := Do(c, s, st);
    OneStepRun(c, s, st);
    RunReachable(c, s, [st], t);
  }

  /** Distinctness is needed: with two requests under one id, an ABORT can miss the one still running. */
  lemma DuplicateIdsMissAbort() returns (c: Config, s: State, abort: Header)
    ensures Reachable(c, s) && Enabled(c, s, Receive(abort)) && abort.methodId == ABORT_METHOD_ID
    ensures |s.tasks| == 2 && s.tasks[1].phase.Running? && s.tasks[1].ctx.requestId == abort.requestId
    ensures Do(c, s, Receive(abort)) == s && !s.tasks[1].cancelled
  {
    hide Reachable;
    c := Config(2, 0, map[1 := Single]);
    var h := Header(1, 0, 5, 0);
    abort := Header(ABORT_METHOD_ID, 0, 5, 0);
    InitReachable(c);
    s := Extend(c, Init(c), Receive(h));
    s := Extend(c, s, Insert);
    s := Extend(c, s, Spawn);
    s := Extend(c, s, Receive(h));
    s := Extend(c, s, Insert);
    s := Extend(c, s, Spawn);
    s := Extend(c, s, Dispatch(0));
    s := Extend(c, s, Dispatch(1));
    s := Extend(c, s, Return(0, true));
    s := Extend(c, s, Remove(0));
  }

  lemma InitReachable(c: Config)
    ensures Reachable(c, Init(c))
  {
    assert Run(c, Init(c), [], Init(c));
  }
}