/**
 * The course of a request: what becomes of it when its task runs on, alone, from any reachable state, and
 * which runs take it through the error path.
 */
module Requests {
  import opened Results
  import opened Sequences
  import opened Octets
  import opened WireFormat
  import opened Writer
  import opened Context
  import opened Lifecycle

  // Admission

  /**
   * What dispatch does with a frame that is no ABORT: it is admitted exactly if it is neither AUTH nor a
   * response and the tasks in flight leave a permit; otherwise nothing changes at all.
   */
  lemma AdmittedIff(c: Config, s: State, h: Header)
    requires Reachable(c, s) && Enabled(c, s, Receive(h)) && h.methodId != 0xFFFF
    ensures var u := Do(c, s, Receive(h));
      if h.methodId != 0xFFFE && h.flags & 0x02 == 0 && Count(s.tasks, HoldsPermit) < c.maxHandlers
      then u == s.(permits := u.permits, reader := Admitting(h)) && u.permits == s.permits - 1
      else u == s
  {
    hide Reachable, Count, ActiveSound, ClaimsSound, LogSound, OutcomesSound, Violation;
    ReachableInv(c, s);
  }

  /** The state once a request has been handed to its handler. */
  function Handed(c: Config, s: State, h: Header): State
    requires h.methodId in c.types
  {
    var ctx := RequestContext(h.methodId, h.requestId, c.types[h.methodId]);
    s.(permits := s.permits - 1,
       active := s.active[h.requestId := |s.tasks|],
       tasks := s.tasks + [Task(ctx, Running, false, None, true)])
  }

  /** An admitted request for a registered method reaches its handler, with its ids and type in the context. */
  lemma ReachesHandler(c: Config, s: State, h: Header)
    requires s.reader == Admitting(h) && h.methodId in c.types
    ensures Run(c, s, [Insert, Spawn, Dispatch(|s.tasks|)],
                Handed(c, s.(permits := s.permits + 1, reader := Ready), h))
  {
    hide Run, Reachable;
    var t, ctx := |s.tasks|, RequestContext(h.methodId, h.requestId, c.types[h.methodId]);
    var s1 := s.(active := s.active[h.requestId := t], tasks := s.tasks + [Task(ctx, Registered, false, None, false)],
                 reader := Spawning(t));
    var s2 := s1.(tasks := s.tasks + [Task(ctx, Spawned, false, None, false)], reader := Ready);
    var s3 := s2.(tasks := s.tasks + [Task(ctx, Running, false, None, true)]);
    assert Do(c, s, Insert) == s1;
    assert s1.tasks[t := Task(ctx, Spawned, false, None, false)] == s2.tasks;
    assert s2.tasks[t := Task(ctx, Running, false, None, true)] == s3.tasks;
    RunThree(c, s, Insert, Spawn, Dispatch(t));
  }

  lemma RunTwo(c: Config, s: State, a: Step, b: Step)
    requires Enabled(c, s, a) && Enabled(c, Do(c, s, a), b)
    ensures Run(c, s, [a, b], Do(c, Do(c, s, a), b))
  {
    hide Enabled, Do;
    assert [a, b][1..] == [b];
    OneStepRun(c, Do(c, s, a), b);
  }

  lemma RunThree(c: Config, s: State, a: Step, b: Step, d: Step)
    requires Enabled(c, s, a) && Enabled(c, Do(c, s, a), b) && Enabled(c, Do(c, Do(c, s, a), b), d)
    ensures Run(c, s, [a, b, d], Do(c, Do(c, Do(c, s, a), b), d))
  {
    hide Enabled, Do;
    assert [a, b, d][1..] == [b, d];
    RunTwo(c, Do(c, s, a), b, d);
  }

  // One call on a context

  /** Whether the call's encoding can fail: only an encoder can. */
  predicate MayFailToEncode(op: Op) {
    op in {Respond, Chunk, Error, ErrorWith}
  }

  /** A call, made and brought to its end; `claims` says whether it took the responded flag. */
  function Called(s: State, call: Call, claims: bool): State
    requires HasTask(s, call.task)
  {
    s.(calls := s.calls + [call],
       tasks := if claims then s.tasks[call.task := s.tasks[call.task].(claimer := Some(|s.calls|))] else s.tasks)
  }

  /** The first steps of a call: up to its frame, if it may have one. */
  lemma CallEncodes(c: Config, s: State, t: nat, op: Op, payload: seq<byte>) returns (steps: seq<Step>, u: State)
    requires HasTask(s, t) && s.tasks[t].entered && (Terminal(op) ==> s.tasks[t].claimer.None?)
    ensures var k := |s.calls|;
      steps == [Start(t, op, Some(payload))] + (if Terminal(op) then [Claim(k)] else []) + [EncodePayload(k)]
    ensures u == Called(s, Call(t, op, Some(payload), Encoded), Terminal(op)) && Run(c, s, steps, u)
  {
    hide Run;
    var k := |s.calls|;
    NoSteps(c, s);
    steps, u := RunThen(c, s, [], s, Start(t, op, Some(payload)));
    if Terminal(op) {
      steps, u := RunThen(c, s, steps, u, Claim(k));
    }
    steps, u := RunThen(c, s, steps, u, EncodePayload(k));
    assert u.calls == s.calls + [Call(t, op, Some(payload), Encoded)];
  }

  /**
   * Every operation of a context does what it is for: a chunk always, a terminal call on a request not
   * yet responded to. Its frame goes out with the given payload, or, if the writer refuses it, nothing does.
   */
  lemma CallSends(c: Config, s: State, t: nat, op: Op, payload: seq<byte>) returns (steps: seq<Step>)
    requires HasTask(s, t) && s.tasks[t].entered && (Terminal(op) ==> s.tasks[t].claimer.None?)
    ensures var k, j := |s.calls|, |s.log|;
      && |steps| <= 3 && steps != [] && steps[0] == Start(t, op, Some(payload))
      && Run(c, s, steps + [SendOk(k)],
             Called(s, Call(t, op, Some(payload), Sent(j)), Terminal(op)).(
               log := s.log + [Entry(FrameOf(s.tasks[t].ctx, op, payload), ByCall(k))]))
      && Run(c, s, steps + [SendFail(k)], Called(s, Call(t, op, Some(payload), Failed), Terminal(op)))
  {
    hide Run, FrameOf;
    var k, u, sent, v := |s.calls|, s, [], s;
    steps, u := CallEncodes(c, s, t, op, payload);
    sent, v := RunThen(c, s, steps, u, SendOk(k));
    assert v.calls == s.calls + [Call(t, op, Some(payload), Sent(|s.log|))];
    sent, v := RunThen(c, s, steps, u, SendFail(k));
    assert v.calls == s.calls + [Call(t, op, Some(payload), Failed)];
  }

  /** A second terminal call is turned away without a frame, whatever it is and whatever became of the first. */
  lemma SecondTerminalRejected(c: Config, s: State, t: nat, op: Op, payload: Option<seq<byte>>)
    requires HasTask(s, t) && s.tasks[t].entered && s.tasks[t].claimer.Some?
    requires op !in {Chunk, ChunkRaw} && (payload.Some? || MayFailToEncode(op))
    ensures Run(c, s, [Start(t, op, payload), Claim(|s.calls|)], Called(s, Call(t, op, payload, Rejected), false))
    ensures !Enabled(c, Do(c, s, Start(t, op, payload)), EncodePayload(|s.calls|))
  {
    hide Run;
    RunTwo(c, s, Start(t, op, payload), Claim(|s.calls|));
    assert (s.calls + [Call(t, op, payload, Started)])[|s.calls| := Call(t, op, payload, Rejected)]
        == s.calls + [Call(t, op, payload, Rejected)];
  }

  /** When the encoder fails, no frame goes out, and a terminal call keeps the flag it has set. */
  lemma EncodingFails(c: Config, s: State, t: nat, op: Op) returns (steps: seq<Step>)
    requires HasTask(s, t) && s.tasks[t].entered && (Terminal(op) ==> s.tasks[t].claimer.None?)
    requires MayFailToEncode(op)
    ensures Run(c, s, steps, Called(s, Call(t, op, None, Failed), Terminal(op)))
    ensures var k := |s.calls|;
      steps == [Start(t, op, None)] + (if Terminal(op) then [Claim(k)] else []) + [EncodePayload(k)]
  {
    hide Run;
    var k, u := |s.calls|, s;
    NoSteps(c, s);
    steps, u := RunThen(c, s, [], s, Start(t, op, None));
    if Terminal(op) {
      steps, u := RunThen(c, s, steps, u, Claim(k));
    }
    steps, u := RunThen(c, s, steps, u, EncodePayload(k));
    assert u.calls == s.calls + [Call(t, op, None, Failed)];
  }

  /** A handler, or any clone of its context, can cancel its request at any time, and for good. */
  lemma CancelsItself(c: Config, s: State, t: nat, steps: seq<Step>, u: State)
    requires HasTask(s, t) && s.tasks[t].entered && Run(c, Do(c, s, CancelOwn(t)), steps, u)
    ensures HasTask(u, t) && u.tasks[t].cancelled
  {
    hide Run;
    StaysCancelled(c, Do(c, s, CancelOwn(t)), steps, u, t);
  }

  lemma CancelledStep(c: Config, s: State, st: Step, t: nat)
    requires Enabled(c, s, st) && HasTask(s, t) && s.tasks[t].cancelled
    ensures HasTask(Do(c, s, st), t) && Do(c, s, st).tasks[t].cancelled
  {
    hide FrameOf, EventFrame, Violation, TypeOf;
  }

  lemma {:induction false} StaysCancelled(c: Config, s: State, steps: seq<Step>, u: State, t: nat)
    requires HasTask(s, t) && s.tasks[t].cancelled && Run(c, s, steps, u)
    ensures HasTask(u, t) && u.tasks[t].cancelled
    decreases |steps|
  {
    hide Enabled, Do;
    if steps != [] {
      CancelledStep(c, s, steps[0], t);
      StaysCancelled(c, Do(c, s, steps[0]), steps[1..], u, t);
    }
  }

  // The end of a handler

  /** The task's phase, permit and active entry once it is over. */
  function Over(s: State, t: nat, failed: bool): State
    requires HasTask(s, t)
  {
    s.(tasks := s.tasks[t := s.tasks[t].(phase := Done(failed))],
       active := s.active - {s.tasks[t].ctx.requestId},
       permits := s.permits + 1)
  }

  lemma WindUp(c: Config, s: State, t: nat)
    requires HasTask(s, t) && s.tasks[t].phase.Finishing?
    ensures Run(c, s, [Remove(t), Finish(t)], Over(s, t, s.tasks[t].phase.failed))
  {
    hide Run;
    var task := s.tasks[t];
    RunTwo(c, s, Remove(t), Finish(t));
    assert s.tasks[t := task.(phase := Removed(task.phase.failed))][t := task.(phase := Done(task.phase.failed))]
        == s.tasks[t := task.(phase := Done(task.phase.failed))];
  }

  /** A handler that returns Ok is done: no call is made for it and nothing is sent, responded to or not. */
  lemma OkEnds(c: Config, s: State, t: nat)
    requires HasTask(s, t) && s.tasks[t].phase.Running?
    ensures Run(c, s, [Return(t, true), Remove(t), Finish(t)], Over(s, t, false))
  {
    hide Run;
    var task := s.tasks[t];
    RunThree(c, s, Return(t, true), Remove(t), Finish(t));
    assert s.tasks[t := task.(phase := Finishing(false))][t := task.(phase := Removed(false))]
        [t := task.(phase := Done(false))] == s.tasks[t := task.(phase := Done(false))];
  }

  /** A handler that fails after a response was claimed is done as well: the automatic path makes no call. */
  lemma ErrAfterResponseEnds(c: Config, s: State, t: nat, payload: Option<seq<byte>>)
    requires HasTask(s, t) && s.tasks[t].phase.Running? && s.tasks[t].claimer.Some?
    ensures Run(c, s, [Return(t, false), CheckResponded(t, payload)] + [Remove(t), Finish(t)], Over(s, t, true))
  {
    hide Run;
    var task := s.tasks[t];
    var u := s.(tasks := s.tasks[t := task.(phase := Finishing(true))]);
    RunTwo(c, s, Return(t, false), CheckResponded(t, payload));
    assert s.tasks[t := task.(phase := Errored)][t := task.(phase := Finishing(true))] == u.tasks;
    WindUp(c, u, t);
    assert u.tasks[t := task.(phase := Done(true))] == s.tasks[t := task.(phase := Done(true))];
    RunOn(c, s, [Return(t, false), CheckResponded(t, payload)], u, [Remove(t), Finish(t)], Over(u, t, true));
  }

  /** The automatic error call, taken by the writer. */
  lemma AutoErrorSends(c: Config, s: State, t: nat, payload: seq<byte>) returns (steps: seq<Step>, u: State)
    requires HasTask(s, t) && s.tasks[t].phase.Errored? && s.tasks[t].claimer.None?
    ensures var k := |s.calls|;
      && steps == [CheckResponded(t, Some(payload)), Claim(k), EncodePayload(k), SendOk(k), AutoDone(t)]
      && Run(c, s, steps, u)
      && u == s.(tasks := s.tasks[t := s.tasks[t].(phase := Finishing(true), claimer := Some(k))],
                 calls := s.calls + [Call(t, Error, Some(payload), Sent(|s.log|))],
                 log := s.log + [Entry(FrameOf(s.tasks[t].ctx, Error, payload), ByCall(k))])
  {
    hide Run, FrameOf;
    var k := |s.calls|;
    NoSteps(c, s);
    steps, u := RunThen(c, s, [], s, CheckResponded(t, Some(payload)));
    steps, u := RunThen(c, s, steps, u, Claim(k));
    steps, u := RunThen(c, s, steps, u, EncodePayload(k));
    steps, u := RunThen(c, s, steps, u, SendOk(k));
    steps, u := RunThen(c, s, steps, u, AutoDone(t));
    assert u.calls == s.calls + [Call(t, Error, Some(payload), Sent(|s.log|))];
  }

  /**
   * A task whose dispatch failed, an unknown method included, tells the parent if nobody has responded:
   * its own next steps send exactly one error frame on its context, and then it is done.
   */
  lemma ErrIsTold(c: Config, s: State, t: nat, payload: seq<byte>) returns (steps: seq<Step>)
    requires HasTask(s, t) && s.tasks[t].phase.Errored? && s.tasks[t].claimer.None?
    ensures var k := |s.calls|;
      && steps == [CheckResponded(t, Some(payload)), Claim(k), EncodePayload(k), SendOk(k), AutoDone(t)]
           + [Remove(t), Finish(t)]
      && Run(c, s, steps,
             Over(Called(s, Call(t, Error, Some(payload), Sent(|s.log|)), true), t, true).(
               log := s.log + [Entry(FrameOf(s.tasks[t].ctx, Error, payload), ByCall(k))]))
  {
    hide Run, FrameOf, Do, Enabled;
    var sent, u := AutoErrorSends(c, s, t, payload);
    WindUp(c, u, t);
    RunOn(c, s, sent, u, [Remove(t), Finish(t)], Over(u, t, true));
    steps := sent + [Remove(t), Finish(t)];
    var k := |s.calls|;
    assert u.tasks[t := u.tasks[t].(phase := Done(true))]
        == s.tasks[t := s.tasks[t].(claimer := Some(k))][t := s.tasks[t].(phase := Done(true), claimer := Some(k))];
  }

  // Which runs take a task through the error path

  /** The task is on the error path, or has been through it. */
  predicate OnErrorPath(p: Phase) {
    p.Errored? || p.AutoError? || FinishedWithErr(p)
  }

  lemma ErrorPathStep(c: Config, s: State, st: Step, t: nat)
    requires ReaderSound(c, s) && Enabled(c, s, st) && HasTask(Do(c, s, st), t)
    ensures var u := Do(c, s, st);
      && (HasTask(s, t) ==> u.tasks[t].ctx == s.tasks[t].ctx)
      && (u.tasks[t].ctx.methodId in c.types ==>
            (OnErrorPath(u.tasks[t].phase) <==>
               (HasTask(s, t) && OnErrorPath(s.tasks[t].phase)) || st == Return(t, false)))
      && (st.CheckResponded? && st.t == t ==> OnErrorPath(u.tasks[t].phase))
  {
    hide FrameOf, EventFrame, Violation, TypeOf;
  }

  lemma TasksStay(c: Config, s: State, st: Step)
    requires Enabled(c, s, st)
    ensures |s.tasks| <= |Do(c, s, st).tasks|
  {
    hide FrameOf, EventFrame, Violation, TypeOf;
  }

  lemma {:induction false} ErrorPathRun(c: Config, s: State, steps: seq<Step>, u: State, t: nat)
    requires Inv(c, s) && Run(c, s, steps, u) && HasTask(u, t) && u.tasks[t].ctx.methodId in c.types
    ensures HasTask(s, t) ==> s.tasks[t].ctx == u.tasks[t].ctx
    ensures OnErrorPath(u.tasks[t].phase) <==>
      (HasTask(s, t) && OnErrorPath(s.tasks[t].phase)) || Return(t, false) in steps
    ensures (exists payload :: CheckResponded(t, payload) in steps) ==> OnErrorPath(u.tasks[t].phase)
    decreases |steps|
  {
    hide Enabled, Do, PermitsExact, ActiveSound, ReaderSound, ContextsSound, ClaimsSound, LogSound, OutcomesSound,
      OnErrorPath;
    if steps != [] {
      var st, s1 := steps[0], Do(c, s, steps[0]);
      StepKeeps(c, s, st);
      TasksStay(c, s, st);
      ErrorPathRun(c, s1, steps[1..], u, t);
      forall x: Step
        ensures x in steps <==> x == st || x in steps[1..]
      {
      }
      if HasTask(s1, t) {
        ErrorPathStep(c, s, st, t);
      } else {
        NamesATask(c, s, st);
      }
    }
  }

  lemma NamesATask(c: Config, s: State, st: Step)
    requires Enabled(c, s, st)
    ensures st.Return? || st.CheckResponded? ==> HasTask(s, st.t)
  {
  }

  /** In every run, a task for a registered method is on the error path exactly if its handler returned Err. */
  lemma ErrorPathIff(c: Config, steps: seq<Step>, u: State, t: nat)
    requires Run(c, Init(c), steps, u) && HasTask(u, t) && u.tasks[t].ctx.methodId in c.types
    ensures OnErrorPath(u.tasks[t].phase) <==> Return(t, false) in steps
  {
    hide Run, Inv, OnErrorPath;
    InitInv(c);
    ErrorPathRun(c, Init(c), steps, u, t);
  }

  /** The call was made by the handler or a clone of its context, or else by the automatic path. */
  ghost predicate MadeIn(steps: seq<Step>, call: Call) {
    || Start(call.task, call.op, call.payload) in steps
    || (call.op.Error? && CheckResponded(call.task, call.payload) in steps)
  }

  lemma CallsMadeStep(c: Config, s: State, st: Step, k: nat)
    requires Enabled(c, s, st) && k < |Do(c, s, st).calls|
    ensures var u := Do(c, s, st);
      if k < |s.calls| then u.calls[k] == s.calls[k].(phase := u.calls[k].phase)
      else st == Start(u.calls[k].task, u.calls[k].op, u.calls[k].payload)
           || (u.calls[k].op.Error? && st == CheckResponded(u.calls[k].task, u.calls[k].payload))
  {
    hide FrameOf, EventFrame, Violation, TypeOf;
  }

  lemma {:induction false} CallsMade(c: Config, s: State, steps: seq<Step>, u: State, k: nat)
    requires Run(c, s, steps, u) && k < |u.calls|
    ensures if k < |s.calls| then u.calls[k] == s.calls[k].(phase := u.calls[k].phase) else MadeIn(steps, u.calls[k])
    decreases |steps|
  {
    hide Enabled, Do;
    if steps != [] {
      var s1 := Do(c, s, steps[0]);
      LogGrows(c, s, steps[0]);
      CallsMade(c, s1, steps[1..], u, k);
      if k < |s1.calls| {
        CallsMadeStep(c, s, steps[0], k);
      }
    }
  }

  /** A handler that has not returned Err never has anything sent but by the calls made on its context. */
  lemma OnlyItsOwnFrames(c: Config, steps: seq<Step>, u: State, t: nat, j: nat)
    requires Run(c, Init(c), steps, u) && HasTask(u, t) && u.tasks[t].ctx.methodId in c.types
    requires Return(t, false) !in steps && j < |u.log| && TaskOf(u, j) == Some(t)
    ensures exists op, payload ::
      Start(t, op, Some(payload)) in steps && u.log[j].frame == FrameOf(u.tasks[t].ctx, op, payload)
  {
    hide Run, Inv, OnErrorPath, FrameOf, EventFrame, PermitsExact, ActiveSound, ClaimsSound, OutcomesSound;
    InitInv(c);
    ErrorPathRun(c, Init(c), steps, u, t);
    assert Reachable(c, u);
    ReachableInv(c, u);
    SentAsCalled(c, u, j);
    var k := u.log[j].origin.call;
    CallsMade(c, Init(c), steps, u, k);
    assert CheckResponded(t, u.calls[k].payload) !in steps;
  }

  lemma SentAsCalled(c: Config, s: State, j: nat)
    requires Reachable(c, s) && j < |s.log| && s.log[j].origin.ByCall?
    ensures var k := s.log[j].origin.call;
      && HasCall(s, k) && s.calls[k].payload.Some? && TaskOf(s, j) == Some(s.calls[k].task)
      && s.log[j].frame == FrameOf(s.tasks[s.calls[k].task].ctx, s.calls[k].op, s.calls[k].payload.value)
  {
    hide Reachable, FrameOf, EventFrame, PermitsExact, ActiveSound, ClaimsSound, OutcomesSound;
    ReachableInv(c, s);
    assert EntrySound(s, j);
  }
}
