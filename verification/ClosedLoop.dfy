/**
 * Both directions of a connection: the read loop feeds dispatch with the frames it parses from the
 * parent's bytes, and the client's frames go back. States which request of the parent each answer is for.
 */
module ClosedLoop {
  import opened Results
  import opened Octets
  import opened Sequences
  import opened WireFormat
  import opened Frames
  import opened Chunking
  import opened Handshake
  import opened Writer
  import opened Context
  import L = Lifecycle
  import C = ClientSystem
  import S = Sends
  import Q = Requests
  import W = WriterSystem

  /** With a token, the connection was authenticated before anything was dispatched. */
  datatype Config = Config(client: C.Config, token: Option<seq<byte>>)

  /**
   * `read`, `taken` and `origins` are history: the chunks read, the handshake's included; the frames
   * dispatched; and, for each handler task, the position among those of the frame that it serves.
   */
  datatype State = State(
    client: C.State,
    unread: seq<byte>,   // in the frame buffer
    todo: seq<Frame>,    // handed over by the handshake or the last push, not dispatched yet
    open: bool,          // the read loop has not returned
    read: seq<seq<byte>>,
    taken: seq<Frame>,
    origins: seq<nat>)

  datatype Step =
    | Read(chunk: seq<byte>)   // one read and the push of what it got
    | HangUp                   // end of file or a read error
    | Take                     // dispatch_frame on the next frame, up to its permit
    | Client(step: C.Step)     // everything else

  /** Where the read loop starts: a fresh parser, or what the handshake handed over. */
  ghost predicate Initial(c: Config, s: State) {
    && s.client == C.Init(c.client) && s.open && s.taken == [] && s.origins == []
    && match c.token
      case None => s.read == [] && s.unread == [] && s.todo == []
      case Some(token) => HandsOver(s.unread, s.todo, s.read, token, c.client.life.maxPayload)
  }

  function Receiving(f: Frame): C.Step {
    C.Local(L.Receive(f.header))
  }

  predicate Enabled(c: Config, s: State, st: Step) {
    match st
    case Read(chunk) => s.open && s.todo == [] && s.client.life.reader.Ready? && chunk != []
    case HangUp => s.open && s.todo == [] && s.client.life.reader.Ready?
    case Take => s.todo != [] && C.Enabled(c.client, s.client, Receiving(s.todo[0]))
    case Client(step) => C.Enabled(c.client, s.client, step) && !(step.Local? && step.life.Receive?)
  }

  function LastTaken(s: State): nat {
    if s.taken == [] then 0 else |s.taken| - 1
  }

  function Do(c: Config, s: State, st: Step): State
    requires Enabled(c, s, st)
  {
    match st
    case Read(chunk) =>
      var p := ParseStream(s.unread + chunk, c.client.life.maxPayload);
      s.(unread := p.rest,
         todo := if p.violation.None? then p.frames else [],
         open := p.violation.None?,
         read := s.read + [chunk])
    case HangUp => s.(open := false)
    case Take =>
      s.(client := C.Do(c.client, s.client, Receiving(s.todo[0])),
         todo := s.todo[1..],
         taken := s.taken + [s.todo[0]])
    case Client(step) =>
      s.(client := C.Do(c.client, s.client, step),
         origins := if step == C.Local(L.Insert) then s.origins + [LastTaken(s)] else s.origins)
  }

  ghost predicate Run(c: Config, s: State, steps: seq<Step>, t: State)
    decreases |steps|
  {
    if steps == [] then s == t
    else Enabled(c, s, steps[0]) && Run(c, Do(c, s, steps[0]), steps[1..], t)
  }

  ghost predicate Reachable(c: Config, s: State) {
    exists start, steps :: Initial(c, start) && Run(c, start, steps, s)
  }

  // The invariant

  /** The frames dispatched or about to be are those that an uninterrupted session delivers, less the AUTH frame. */
  ghost predicate StreamExact(c: Config, s: State) {
    var max := c.client.life.maxPayload;
    var whole := Delivered(Answers([], s.read, max));
    && s.unread == UnreadAfter([], s.read, max)
    && (c.token.Some? ==> whole != [] && IsAuth(whole[0], c.token.value))
    && s.taken + s.todo == whole[Skipped(c)..]
  }

  /** The frames of the session that are not dispatched. */
  function Skipped(c: Config): nat {
    if c.token.Some? then 1 else 0
  }

  /** `f` is the request that the context was made for. */
  predicate Serves(ctx: RequestContext, f: Frame) {
    L.IsRequest(f.header) && ctx.methodId == f.header.methodId && ctx.requestId == f.header.requestId
  }

  /** Each handler task serves a frame of its own, in dispatch order; one being admitted is the last taken. */
  ghost predicate OriginsExact(life: L.State, taken: seq<Frame>, origins: seq<nat>) {
    && |origins| == |life.tasks|
    && (forall i, j :: 0 <= i < j < |origins| ==> origins[i] < origins[j])
    && (forall i :: 0 <= i < |origins| ==>
          origins[i] + Unit(life.reader.Admitting?) < |taken| && Serves(life.tasks[i].ctx, taken[origins[i]]))
    && (life.reader.Admitting? ==>
          taken != [] && life.reader.header == taken[|taken| - 1].header && L.IsRequest(life.reader.header))
  }

  ghost predicate Inv(c: Config, s: State) {
    && C.Reachable(c.client, s.client)
    && StreamExact(c, s)
    && OriginsExact(s.client.life, s.taken, s.origins)
  }

  /** Every connection that is adopted starts here: the first of all without a token, one that authenticates with it. */
  lemma AdoptionStarts(c: Config, chunks: seq<seq<byte>>, k: nat)
    requires if c.token.None? then k == 0
             else Adopts([], chunks, c.token.value, c.client.life.maxPayload) == Some(k)
    requires k <= |chunks|
    ensures exists start :: Initial(c, start) && start.read == chunks[..k]
  {
    hide ParseStream, Adopts, FrontOf, IsAuth, Join;
    var max, read := c.client.life.maxPayload, chunks[..k];
    if c.token.None? {
      assert Initial(c, State(C.Init(c.client), [], [], true, read, [], []));
    } else {
      FrontOfNothing(max);
      AdoptsAtCut([], chunks, k, c.token.value, max);
      assert [] + Join(read) == Join(read);
      var p := ParseStream(Join(read), max);
      assert Initial(c, State(C.Init(c.client), p.rest, p.frames[1..], true, read, [], []));
    }
  }

  lemma InitialInv(c: Config, s: State)
    requires Initial(c, s)
    ensures Inv(c, s)
  {
    hide C.Reachable, ParseStream, FrontOf, IsAuth, Delivered, Answers, UnreadAfter;
    C.InitReachable(c.client);
    var max := c.client.life.maxPayload;
    if c.token.Some? {
      ChunkingIndependence(s.read, max);
      FrontOfNothing(max);
      assert s.read[..|s.read|] == s.read && [] + Join(s.read) == Join(s.read);
      SessionFrom([], s.read, |s.read|, max);
    } else {
      OnePush([], [], max);
      DeliveredNothing();
    }
  }

  lemma ReadKeeps(c: Config, s: State, chunk: seq<byte>)
    requires StreamExact(c, s) && Enabled(c, s, Read(chunk))
    ensures StreamExact(c, Do(c, s, Read(chunk)))
  {
    hide ParseStream, Delivered, Answers, UnreadAfter, IsAuth;
    var max := c.client.life.maxPayload;
    var p := ParseStream(s.unread + chunk, max);
    AnswersSplit([], s.read, [chunk], max);
    UnreadSplit([], s.read, [chunk], max);
    assert [chunk][1..] == [];
    OnePush(s.unread, [chunk], max);
    OnePush(p.rest, [], max);
    assert [Answer(p)] + [] == [Answer(p)];
    DeliveredAppend(Answers([], s.read, max), [Answer(p)]);
    DeliveredOne(Answer(p));
  }

  lemma {:induction false} UnreadSplit(unread: seq<byte>, a: seq<seq<byte>>, b: seq<seq<byte>>, max: u32)
    ensures UnreadAfter(unread, a + b, max) == UnreadAfter(UnreadAfter(unread, a, max), b, max)
    decreases |a|
  {
    hide ParseStream;
    if a == [] {
      assert a + b == b;
    } else {
      UnreadSplit(ParseStream(unread + a[0], max).rest, a[1..], b, max);
      TailOfConcat(a, b);
    }
  }

  lemma TakeKeeps(c: Config, s: State)
    requires OriginsExact(s.client.life, s.taken, s.origins) && StreamExact(c, s) && Enabled(c, s, Take)
    ensures var t := Do(c, s, Take);
      OriginsExact(t.client.life, t.taken, t.origins) && StreamExact(c, t)
  {
    hide Delivered, Answers, UnreadAfter, IsAuth, Violation;
    var t := Do(c, s, Take);
    assert t.taken + t.todo == s.taken + s.todo;
  }

  lemma ClientKeeps(c: Config, s: State, step: C.Step)
    requires OriginsExact(s.client.life, s.taken, s.origins) && Enabled(c, s, Client(step))
    ensures var t := Do(c, s, Client(step));
      OriginsExact(t.client.life, t.taken, t.origins)
  {
    hide L.Enabled, L.Do;
    match step
    case Local(l) =>
      if l.Insert? {
        InsertKeeps(c, s);
      } else {
        L.AdmissionFrame(c.client.life, s.client.life, l);
      }
    case InWriter(_) =>
    case HandOver(l, _) =>
      L.AdmissionFrame(c.client.life, s.client.life, l);
  }

  lemma InsertKeeps(c: Config, s: State)
    requires OriginsExact(s.client.life, s.taken, s.origins) && Enabled(c, s, Client(C.Local(L.Insert)))
    ensures var t := Do(c, s, Client(C.Local(L.Insert)));
      OriginsExact(t.client.life, t.taken, t.origins)
  {
  }

  lemma StepKeeps(c: Config, s: State, st: Step)
    requires Inv(c, s) && Enabled(c, s, st)
    ensures Inv(c, Do(c, s, st))
  {
    hide C.Reachable, C.Enabled, C.Do, OriginsExact, Delivered, Answers, UnreadAfter, ParseStream, IsAuth;
    match st
    case Read(chunk) => ReadKeeps(c, s, chunk);
    case HangUp =>
    case Take =>
      C.Then(c.client, s.client, Receiving(s.todo[0]));
      TakeKeeps(c, s);
    case Client(step) =>
      C.Then(c.client, s.client, step);
      ClientKeeps(c, s, step);
  }

  lemma {:induction false} RunKeeps(c: Config, s: State, steps: seq<Step>, t: State)
    requires Inv(c, s) && Run(c, s, steps, t)
    ensures Inv(c, t)
    decreases |steps|
  {
    hide Inv, Enabled, Do;
    if steps != [] {
      StepKeeps(c, s, steps[0]);
      RunKeeps(c, Do(c, s, steps[0]), steps[1..], t);
    }
  }

  lemma ReachableInv(c: Config, s: State)
    requires Reachable(c, s)
    ensures Inv(c, s)
  {
    hide Inv, Initial;
    var start, steps :| Initial(c, start) && Run(c, start, steps, s);
    InitialInv(c, start);
    RunKeeps(c, start, steps, s);
  }

  // What the parent sent, and what it gets back

  /** However it is cut and whatever it holds, a session delivers a prefix of the parse of its bytes. */
  lemma {:induction false} DeliveredPrefix(unread: seq<byte>, chunks: seq<seq<byte>>, max: u32)
    ensures Delivered(Answers(unread, chunks, max)) <= ParseStream(unread + Join(chunks), max).frames
    decreases |chunks|
  {
    hide ParseStream, Answers, UnreadAfter, Delivered;
    OnePush(unread, chunks, max);
    if chunks == [] {
      DeliveredNothing();
    } else {
      var c, tail := chunks[0], chunks[1..];
      var p := ParseStream(unread + c, max);
      var later := Delivered(Answers(p.rest, tail, max));
      DeliveredAppend([Answer(p)], Answers(p.rest, tail, max));
      DeliveredOne(Answer(p));
      assert unread + Join(chunks) == (unread + c) + Join(tail);
      if p.violation.Some? {
        StaysFailed(unread + c, tail, max);
      } else {
        DeliveredPrefix(p.rest, tail, max);
        ParseAppend(unread + c, Join(tail), max);
      }
    }
  }

  /** The frames dispatched are frames of the bytes the parent sent, in order, none twice. */
  lemma TakenFromStream(c: Config, s: State, sent: seq<byte>)
    requires Reachable(c, s) && Join(s.read) <= sent
    ensures var fs := ParseStream(sent, c.client.life.maxPayload).frames;
      && Skipped(c) + |s.taken| <= |fs|
      && s.taken == fs[Skipped(c)..][..|s.taken|]
      && (c.token.Some? ==> IsAuth(fs[0], c.token.value))
  {
    hide Reachable, C.Reachable, ParseStream, Answers, UnreadAfter, Delivered, IsAuth, OriginsExact, Join;
    ReachableInv(c, s);
    var max, bytes := c.client.life.maxPayload, Join(s.read);
    var whole := Delivered(Answers([], s.read, max));
    DeliveredPrefix([], s.read, max);
    assert [] + bytes == bytes && bytes + sent[|bytes|..] == sent;
    ParseAppend(bytes, sent[|bytes|..], max);
    assert s.taken == whole[Skipped(c)..][..|s.taken|];
  }

  /** Dispatch never refuses a frame: whatever is to be dispatched has a lawful header. */
  lemma DispatchReady(c: Config, s: State)
    requires Reachable(c, s) && s.todo != [] && s.client.life.reader.Ready?
    ensures Enabled(c, s, Take)
  {
    hide Reachable, Inv;
    ReachableInv(c, s);
    TakeReady(c, s);
  }

  /** Nothing that was read is lost: without an invalid header, every complete frame is dispatched or waits for it. */
  lemma NothingLost(c: Config, s: State)
    requires Reachable(c, s) && ParseStream(Join(s.read), c.client.life.maxPayload).violation.None?
    ensures var p := ParseStream(Join(s.read), c.client.life.maxPayload);
      Skipped(c) <= |p.frames| && s.taken + s.todo == p.frames[Skipped(c)..]
  {
    hide Reachable, C.Reachable, ParseStream, Answers, UnreadAfter, Delivered, IsAuth, OriginsExact;
    ReachableInv(c, s);
    ChunkingIndependence(s.read, c.client.life.maxPayload);
  }

  // When the read loop ends

  /** An open loop has met no invalid header and holds the rest of what was read. */
  ghost predicate OpenExact(c: Config, s: State) {
    var p := ParseStream(Join(s.read), c.client.life.maxPayload);
    s.open ==> p.violation.None? && s.unread == p.rest
  }

  lemma OpenStep(c: Config, s: State, st: Step)
    requires OpenExact(c, s) && Enabled(c, s, st)
    ensures var t, max := Do(c, s, st), c.client.life.maxPayload;
      && OpenExact(c, t)
      && (t.open <==> s.open && st != HangUp && ParseStream(Join(t.read), max).violation.None?)
      && (!s.open ==> t.read == s.read)
  {
    hide ParseStream, C.Enabled, C.Do, Join;
    if st.Read? {
      var max := c.client.life.maxPayload;
      ParseAppend(Join(s.read), st.chunk, max);
      JoinAppend(s.read, [st.chunk]);
      JoinOne(st.chunk);
    }
  }

  lemma JoinOne(chunk: seq<byte>)
    ensures Join([chunk]) == chunk
  {
    assert [chunk][1..] == [] && chunk + [] == chunk;
  }

  lemma {:induction false} OpenRun(c: Config, s: State, steps: seq<Step>, t: State)
    requires OpenExact(c, s) && Run(c, s, steps, t)
    ensures OpenExact(c, t) && (!s.open ==> !t.open && t.read == s.read)
    ensures s.open ==>
      (t.open <==> HangUp !in steps && ParseStream(Join(t.read), c.client.life.maxPayload).violation.None?)
    decreases |steps|
  {
    hide Enabled, Do, ParseStream, Join;
    if steps != [] {
      OpenStep(c, s, steps[0]);
      OpenRun(c, Do(c, s, steps[0]), steps[1..], t);
      assert HangUp in steps <==> HangUp == steps[0] || HangUp in steps[1..];
    }
  }

  /** In every run the read loop goes on exactly until the connection ends or an invalid header has been read. */
  lemma OpenIff(c: Config, start: State, steps: seq<Step>, s: State)
    requires Initial(c, start) && Run(c, start, steps, s)
    ensures s.open <==> HangUp !in steps && ParseStream(Join(s.read), c.client.life.maxPayload).violation.None?
  {
    hide ParseStream, Run, Join;
    JoinNothing();
    ParseNothing(c.client.life.maxPayload);
    OpenRun(c, start, steps, s);
  }

  // What the client can always do next

  lemma {:induction false} RunOn(c: Config, s: State, steps: seq<Step>, t: State, more: seq<Step>, u: State)
    requires Run(c, s, steps, t) && Run(c, t, more, u)
    ensures Run(c, s, steps + more, u)
    decreases |steps|
  {
    hide Enabled, Do;
    if steps == [] {
      assert steps + more == more;
    } else {
      RunOn(c, Do(c, s, steps[0]), steps[1..], t, more, u);
      assert (steps + more)[1..] == steps[1..] + more;
    }
  }

  ghost predicate NoReads(steps: seq<Step>) {
    forall i :: 0 <= i < |steps| ==> !steps[i].Read? && !steps[i].HangUp?
  }

  /** `t` can be reached from `s` without another read. */
  ghost predicate Leads(c: Config, s: State, t: State) {
    exists steps :: Run(c, s, steps, t) && NoReads(steps)
  }

  lemma LeadsNowhere(c: Config, s: State)
    ensures Leads(c, s, s)
  {
    assert Run(c, s, [], s);
  }

  lemma LeadsOn(c: Config, s: State, t: State, u: State)
    requires Leads(c, s, t) && Leads(c, t, u)
    ensures Leads(c, s, u)
  {
    hide Run;
    var a :| Run(c, s, a, t) && NoReads(a);
    var b :| Run(c, t, b, u) && NoReads(b);
    RunOn(c, s, a, t, b, u);
  }

  lemma Onward(c: Config, s: State, t: State, st: Step) returns (u: State)
    requires Leads(c, s, t) && Inv(c, t) && Enabled(c, t, st) && !st.Read? && !st.HangUp?
    ensures u == Do(c, t, st) && Leads(c, s, u) && Inv(c, u)
  {
    hide Inv, Enabled, Do;
    StepKeeps(c, t, st);
    u := Do(c, t, st);
    assert [st][1..] == [];
    assert Run(c, t, [st], u);
    assert NoReads([st]);
    LeadsOn(c, s, t, u);
  }

  /** A step of the lifecycle that needs neither a frame from the parent nor the writer. */
  predicate Inner(l: L.Step) {
    !l.Receive? && !l.SendOk? && !l.Emit?
  }

  lemma {:induction false} InnerRun(c: Config, s: State, t: State, ls: seq<L.Step>, life: L.State) returns (u: State)
    requires Leads(c, s, t) && Inv(c, t) && L.Run(c.client.life, t.client.life, ls, life) && forall l <- ls :: Inner(l)
    ensures Leads(c, s, u) && Inv(c, u)
    ensures u == t.(client := t.client.(life := life), origins := u.origins)
    decreases |ls|
  {
    hide Leads, Inv, L.Enabled, L.Do;
    if ls == [] {
      return t;
    }
    assert Inner(ls[0]);
    u := Onward(c, s, t, Client(C.Local(ls[0])));
    u := InnerRun(c, s, u, ls[1..], life);
  }

  /** The read loop is never stuck on a frame: it gets ready for the next one by itself. */
  lemma GetsReady(c: Config, s: State, t: State) returns (u: State)
    requires Leads(c, s, t) && Inv(c, t)
    ensures Leads(c, s, u) && Inv(c, u) && u.client.life.reader.Ready?
    ensures u.todo == t.todo && u.taken == t.taken && u.client.writer == t.client.writer
    ensures u.open == t.open && u.unread == t.unread && u.read == t.read
    ensures t.client.life.reader.Ready? ==> u == t
  {
    hide Leads, Inv;
    u := t;
    if u.client.life.reader.Admitting? {
      u := Onward(c, s, u, Client(C.Local(L.Insert)));
    }
    if u.client.life.reader.Spawning? {
      SpawnReady(c, u);
      u := Onward(c, s, u, Client(C.Local(L.Spawn)));
    }
  }

  lemma SpawnReady(c: Config, s: State)
    requires Inv(c, s) && s.client.life.reader.Spawning?
    ensures L.Enabled(c.client.life, s.client.life, L.Spawn)
  {
    hide C.Reachable, StreamExact, OriginsExact, L.PermitsExact, L.ActiveSound, L.ContextsSound, L.ClaimsSound,
      L.LogSound, L.OutcomesSound, L.Reachable;
    C.ReachableInv(c.client, s.client);
    L.ReachableInv(c.client.life, s.client.life);
  }

  /** So from every state all the frames that wait can be dispatched, in order, before anything more is read. */
  lemma {:induction false} CatchesUp(c: Config, s: State, t: State) returns (u: State)
    requires Leads(c, s, t) && Inv(c, t)
    ensures Leads(c, s, u) && Inv(c, u) && u.todo == [] && u.taken == t.taken + t.todo && u.client.life.reader.Ready?
    ensures u.open == t.open && u.unread == t.unread && u.read == t.read
    decreases |t.todo|
  {
    hide Leads, Inv;
    u := GetsReady(c, s, t);
    if u.todo != [] {
      TakeReady(c, u);
      u := Onward(c, s, u, Take);
      u := CatchesUp(c, s, u);
    }
  }

  /**
   * An open loop takes whatever comes next: once it has caught up, any chunk can be read, and every frame
   * that it completes then waits for dispatch.
   */
  lemma CanReadOn(c: Config, s: State, chunk: seq<byte>) returns (u: State)
    requires Reachable(c, s) && s.open && chunk != []
    ensures Leads(c, s, u) && u.taken == s.taken + s.todo && Enabled(c, u, Read(chunk)) && Enabled(c, u, HangUp)
    ensures var p, t := ParseStream(s.unread + chunk, c.client.life.maxPayload), Do(c, u, Read(chunk));
      t.read == s.read + [chunk] && (p.violation.None? ==> t.open && t.todo == p.frames && t.taken == u.taken)
  {
    hide Reachable, Leads, Inv, ParseStream;
    ReachableInv(c, s);
    LeadsNowhere(c, s);
    u := CatchesUp(c, s, s);
  }

  lemma TakeReady(c: Config, s: State)
    requires Inv(c, s) && s.todo != [] && s.client.life.reader.Ready?
    ensures Enabled(c, s, Take)
  {
    hide C.Reachable, ParseStream, Answers, UnreadAfter, Delivered, IsAuth, OriginsExact, Violation;
    var max := c.client.life.maxPayload;
    var whole := Delivered(Answers([], s.read, max));
    DeliveredPrefix([], s.read, max);
    var fs := ParseStream([] + Join(s.read), max).frames;
    ParseConserves([] + Join(s.read), max);
    var j := Skipped(c) + |s.taken|;
    assert s.todo[0] == (s.taken + s.todo)[|s.taken|] == whole[j] == fs[j];
    assert fs[j] in fs;
  }

  /** The next frame, if it is a request that will be served: registered, with a permit to spare. */
  predicate ServesNext(c: Config, s: State) {
    && s.todo != [] && s.client.life.reader.Ready?
    && L.IsRequest(s.todo[0].header) && s.todo[0].header.methodId in c.client.life.types
    && Count(s.client.life.tasks, L.HoldsPermit) < c.client.life.maxHandlers
  }

  /** From the bytes to the handler: the next request gets to run, with its ids and its method's type in its context. */
  lemma ReachesHandler(c: Config, s: State) returns (u: State)
    requires Reachable(c, s) && ServesNext(c, s)
    ensures Leads(c, s, u) && Inv(c, u)
    ensures u.todo == s.todo[1..] && u.taken == s.taken + [s.todo[0]] && u.client.writer == s.client.writer
    ensures u.client.life == Q.Handed(c.client.life, s.client.life, s.todo[0].header)
  {
    hide Reachable, Leads, Inv, L.Run, Count, Violation, L.Enabled, L.Do;
    ReachableInv(c, s);
    LeadsNowhere(c, s);
    TakeReady(c, s);
    u := Onward(c, s, s, Take);
    var h, life := s.todo[0].header, s.client.life;
    LifeReachable(c, s);
    Q.AdmittedIff(c.client.life, life, h);
    Q.ReachesHandler(c.client.life, u.client.life, h);
    u := InnerRun(c, s, u, [L.Insert, L.Spawn, L.Dispatch(|life.tasks|)],
                  Q.Handed(c.client.life, u.client.life.(permits := u.client.life.permits + 1, reader := L.Ready), h));
  }

  lemma LifeReachable(c: Config, s: State)
    requires Inv(c, s)
    ensures L.Reachable(c.client.life, s.client.life)
  {
    hide C.Reachable, L.Reachable, StreamExact, OriginsExact;
    C.ReachableInv(c.client, s.client);
  }

  /**
   * From the request to the answer, in one piece: whatever the state, the next request can be served by any
   * operation of its context, and when it is, exactly that operation's frame joins the writer's queue.
   */
  lemma CanAnswer(c: Config, s: State, op: Op, payload: seq<byte>, i: nat) returns (u: State)
    requires Reachable(c, s) && ServesNext(c, s)
    requires i < |s.client.writer.senders| && s.client.writer.senders[i].Idle? && !s.client.writer.hungUp
    requires s.client.writer.pending < c.client.writer.maxPending && S.HasRoom(c.client.writer, s.client.writer)
    ensures Leads(c, s, u) && Inv(c, u) && u.todo == s.todo[1..] && u.taken == s.taken + [s.todo[0]]
    ensures var h := s.todo[0].header;
      var f := FrameOf(RequestContext(h.methodId, h.requestId, c.client.life.types[h.methodId]), op, payload);
      && u.client.writer == S.Queued(s.client.writer, f)
      && u.client.life.log == s.client.life.log + [L.Entry(f, L.ByCall(|s.client.life.calls|))]
  {
    hide Reachable, Leads, Inv, L.Run, FrameOf, C.Run;
    u := ReachesHandler(c, s);
    var life := u.client.life;
    var t, k := |s.client.life.tasks|, |life.calls|;
    var steps, encoded := Q.CallEncodes(c.client.life, life, t, op, payload);
    u := InnerRun(c, s, u, steps, encoded);
    var f := C.FrameFor(encoded, L.SendOk(k));
    C.GetsAccepted(c.client, u.client, L.SendOk(k), i);
    u := ClientRun(c, s, u,
                   [C.InWriter(W.Send(i, f)), C.InWriter(W.Increment(i)), C.HandOver(L.SendOk(k), W.Enqueue(i))],
                   C.State(L.Do(c.client.life, encoded, L.SendOk(k)), S.Queued(s.client.writer, f)));
  }

  /**
   * The whole round: the parent's next request is answered by any operation of its context, and the
   * parent, however the bytes are cut on the way, reads that answer, last, with the ids of its request.
   */
  lemma AnswerReachesParent(c: Config, s: State, op: Op, payload: seq<byte>, i: nat, max: u32) returns (u: State)
    requires Reachable(c, s) && ServesNext(c, s) && W.Live(s.client.writer)
    requires i < |s.client.writer.senders| && s.client.writer.senders[i].Idle? && !s.client.writer.hungUp
    requires s.client.writer.pending < c.client.writer.maxPending && S.HasRoom(c.client.writer, s.client.writer)
    requires C.PayloadsFit(s.client.life.log, max) && |payload| <= PayloadLimit(max)
    ensures Leads(c, s, u)
    ensures forall back :: Join(back) == u.client.writer.wire ==>
      var got := Delivered(Answers([], back, max));
      && got != [] && got[..|got| - 1] == InboundAll(C.LogFrames(s.client.life.log))
      && var answer := got[|got| - 1];
        && answer.header.requestId == s.todo[0].header.requestId
        && answer.header.methodId == s.todo[0].header.methodId
        && answer.payload == if op.SendAck? || op.End? then [] else payload
  {
    hide Reachable, Leads, Inv, C.Reachable, FrameOf, Join, Answers, Delivered, Inbound, InboundAll, Flatten,
      C.PayloadsFit, W.Run, S.HasRoom;
    u := CanAnswer(c, s, op, payload, i);
    var h := s.todo[0].header;
    var ctx := RequestContext(h.methodId, h.requestId, c.client.life.types[h.methodId]);
    var f := FrameOf(ctx, op, payload);
    u := WritesAll(c, s, u);
    FrameEchoes(ctx, op, payload);
    LogGains(s.client.life.log, L.Entry(f, L.ByCall(|s.client.life.calls|)), max);
    forall back | Join(back) == u.client.writer.wire
      ensures Delivered(Answers([], back, max)) == InboundAll(C.LogFrames(u.client.life.log))
    {
      AllArrives(c, u, back, max);
    }
  }

  /** One more accepted frame is one more frame to read. */
  lemma LogGains(log: seq<L.Entry>, e: L.Entry, max: u32)
    ensures InboundAll(C.LogFrames(log + [e])) == InboundAll(C.LogFrames(log)) + [Inbound(e.frame)]
    ensures Inbound(e.frame).payload == e.frame.payload
    ensures C.PayloadsFit(log, max) && |e.frame.payload| <= PayloadLimit(max) ==> C.PayloadsFit(log + [e], max)
  {
    InboundAppend(C.LogFrames(log), [e.frame]);
    assert C.LogFrames(log + [e]) == C.LogFrames(log) + [e.frame];
  }

  /** The writer, left alone, gets everything accepted onto the wire. */
  lemma WritesAll(c: Config, s: State, t: State) returns (u: State)
    requires Leads(c, s, t) && Inv(c, t) && W.Live(t.client.writer)
    ensures Leads(c, s, u) && Inv(c, u) && u.client.life == t.client.life
    ensures u.client.writer.accepted == t.client.writer.accepted
    ensures u.client.writer.wire == Flatten(u.client.writer.accepted)
  {
    hide Leads, C.Reachable, StreamExact, OriginsExact, W.Reachable, L.Reachable, W.Inv, Flatten, W.Live;
    C.ReachableInv(c.client, t.client);
    W.ReachableInv(c.client.writer, t.client.writer);
    W.WriterLeadsNowhere(c.client.writer, t.client.writer);
    var w := W.CatchesUp(c.client.writer, t.client.writer, t.client.writer);
    var ws :| W.Run(c.client.writer, t.client.writer, ws, w) && W.ByWriter(ws);
    C.WriterRuns(c.client, t.client, ws, w);
    u := ClientRun(c, s, t, C.InWriterAll(ws), t.client.(writer := w));
  }

  /** When everything accepted is on the wire, the parent reads all of it. */
  lemma AllArrives(c: Config, s: State, back: seq<seq<byte>>, max: u32)
    requires Inv(c, s) && C.PayloadsFit(s.client.life.log, max)
    requires Join(back) == s.client.writer.wire == Flatten(s.client.writer.accepted)
    ensures Delivered(Answers([], back, max)) == InboundAll(C.LogFrames(s.client.life.log))
  {
    hide C.Reachable, StreamExact, OriginsExact, W.Reachable, L.Reachable, Join, Flatten, Answers, Delivered,
      InboundAll, C.PayloadsFit, Wire, ParseStream, Acceptable;
    C.ReachableInv(c.client, s.client);
    C.LogDeliverable(c.client.life, s.client.life, max);
    var os := C.LogFrames(s.client.life.log);
    FlattenIsWire(os);
    ParseWire(InboundAll(os), [], max);
    ParseNothing(max);
    assert Wire(InboundAll(os)) + [] == Wire(InboundAll(os)) && InboundAll(os) + [] == InboundAll(os);
    ChunkingIndependence(back, max);
  }

  /** Steps of the client that admit nothing leave the read side alone. */
  lemma {:induction false} ClientRun(c: Config, s: State, t: State, steps: seq<C.Step>, client: C.State)
      returns (u: State)
    requires Leads(c, s, t) && Inv(c, t) && C.Run(c.client, t.client, steps, client)
    requires forall st <- steps :: !st.Local?
    ensures Leads(c, s, u) && Inv(c, u) && u == t.(client := client)
    decreases |steps|
  {
    hide Leads, Inv, C.Enabled, C.Do;
    if steps == [] {
      return t;
    }
    assert steps[0] in steps;
    u := Onward(c, s, t, Client(steps[0]));
    u := ClientRun(c, s, u, steps[1..], client);
  }

  /** The positions of the requests for `id`. */
  function RequestsFor(fs: seq<Frame>, id: u32): set<nat> {
    set i: nat | i < |fs| && L.IsRequest(fs[i].header) && fs[i].header.requestId == id
  }

  /** `answers` sends each terminal frame of `back` to a request of its own among `sent`, with the same ids. */
  ghost predicate Matches(answers: map<nat, nat>, back: seq<Frame>, sent: seq<Frame>) {
    && (forall i: nat :: i in answers <==> i < |back| && TerminalFrame(back[i]))
    && (forall i <- answers ::
          && answers[i] < |sent| && L.IsRequest(sent[answers[i]].header)
          && sent[answers[i]].header.requestId == back[i].header.requestId
          && sent[answers[i]].header.methodId == back[i].header.methodId)
    && (forall i, j :: i in answers && j in answers && i != j ==> answers[i] != answers[j])
  }

  /** The `i`th frame sent back comes from a handler task. */
  predicate HasServed(c: Config, s: State, i: nat) {
    && i < |s.client.life.log|
    && L.TaskOf(s.client.life, i).Some? && L.TaskOf(s.client.life, i).value < |s.origins|
  }

  /** The position, in what the parent sent, of the request that task serves. */
  function Served(c: Config, s: State, i: nat): nat
    requires HasServed(c, s, i)
  {
    Skipped(c) + s.origins[L.TaskOf(s.client.life, i).value]
  }

  lemma TerminalServes(c: Config, s: State, sent: seq<byte>, i: nat)
    requires Reachable(c, s) && Join(s.read) <= sent
    requires i < |s.client.life.log| && TerminalFrame(Inbound(s.client.life.log[i].frame))
    ensures HasServed(c, s, i)
    ensures var h, fs := Inbound(s.client.life.log[i].frame).header,
        ParseStream(sent, c.client.life.maxPayload).frames;
      var k := Served(c, s, i);
      && k < |fs| && L.IsRequest(fs[k].header)
      && fs[k].header.requestId == h.requestId && fs[k].header.methodId == h.methodId
  {
    hide Reachable, C.Reachable, L.Reachable, ParseStream, Inbound, TerminalFrame, StreamExact, L.IsRequest, L.TaskOf,
      Join;
    ReachableInv(c, s);
    C.ReachableInv(c.client, s.client);
    TakenFromStream(c, s, sent);
    L.TerminalEntry(c.client.life, s.client.life, i);
    var t := L.TaskOf(s.client.life, i).value;
    assert Serves(s.client.life.tasks[t].ctx, s.taken[s.origins[t]]);
  }

  lemma ServedOnce(c: Config, s: State, i: nat, j: nat)
    requires Reachable(c, s) && HasServed(c, s, i) && HasServed(c, s, j) && Served(c, s, i) == Served(c, s, j)
    requires TerminalFrame(Inbound(s.client.life.log[i].frame)) && TerminalFrame(Inbound(s.client.life.log[j].frame))
    ensures i == j
  {
    hide Reachable, C.Reachable, L.Reachable, Inbound, TerminalFrame, StreamExact, L.TaskOf;
    ReachableInv(c, s);
    C.ReachableInv(c.client, s.client);
    L.AtMostOneTerminal(c.client.life, s.client.life, i, j);
  }

  /** The parent reads the frames that the calls sent. */
  lemma BackFromLog(c: Config, s: State, back: seq<seq<byte>>, max: u32)
    requires Reachable(c, s)
    requires C.PayloadsFit(s.client.life.log, max) && Join(back) <= s.client.writer.wire
    ensures var got, log := Delivered(Answers([], back, max)), s.client.life.log;
      |got| <= |log| && forall i :: 0 <= i < |got| ==> got[i] == Inbound(log[i].frame)
  {
    hide Reachable, C.Reachable, C.PayloadsFit, ParseStream, Answers, Delivered, Inbound, TerminalFrame, StreamExact,
      OriginsExact, Join;
    ReachableInv(c, s);
    C.ParentView(c.client, s.client, back, max);
    var all := InboundAll(C.LogFrames(s.client.life.log));
    assert Delivered(Answers([], back, max)) <= all;
  }

  /**
   * From the parent's bytes to the parent's bytes. Whatever the parent sends, however both directions
   * are cut and everything in between is interleaved, each terminal frame the parent reads answers a
   * request of its own among the frames the parent sent, with that request's method and id.
   */
  lemma EachAnswersARequest(c: Config, s: State, sent: seq<byte>, back: seq<seq<byte>>, max: u32)
      returns (answers: map<nat, nat>)
    requires Reachable(c, s) && Join(s.read) <= sent
    requires C.PayloadsFit(s.client.life.log, max) && Join(back) <= s.client.writer.wire
    ensures Matches(answers, Delivered(Answers([], back, max)), ParseStream(sent, c.client.life.maxPayload).frames)
  {
    hide Reachable, C.PayloadsFit, ParseStream, Answers, Delivered, Inbound, TerminalFrame, L.IsRequest, Served,
      HasServed, Join;
    var got, fs := Delivered(Answers([], back, max)), ParseStream(sent, c.client.life.maxPayload).frames;
    BackFromLog(c, s, back, max);
    forall i: nat | i < |got| && TerminalFrame(got[i])
      ensures HasServed(c, s, i) && Served(c, s, i) < |fs| && L.IsRequest(fs[Served(c, s, i)].header)
      ensures fs[Served(c, s, i)].header.requestId == got[i].header.requestId
      ensures fs[Served(c, s, i)].header.methodId == got[i].header.methodId
    {
      TerminalServes(c, s, sent, i);
    }
    answers := map i: nat | i < |got| && TerminalFrame(got[i]) :: Served(c, s, i);
    forall i, j | i in answers && j in answers && i != j
      ensures answers[i] != answers[j]
    {
      if answers[i] == answers[j] {
        ServedOnce(c, s, i, j);
      }
    }
  }

  /** So no id gets more terminal frames than the parent sent requests under it. */
  lemma NoMoreAnswersThanRequests(c: Config, s: State, fs: seq<Frame>, back: seq<seq<byte>>, max: u32, id: u32)
    requires Reachable(c, s) && AllAcceptable(fs, c.client.life.maxPayload) && Join(s.read) <= Wire(fs)
    requires C.PayloadsFit(s.client.life.log, max) && Join(back) <= s.client.writer.wire
    ensures |C.TerminalsFor(Delivered(Answers([], back, max)), id)| <= |RequestsFor(fs, id)|
  {
    hide Reachable, C.PayloadsFit, ParseStream, Answers, Delivered, TerminalFrame, Acceptable, L.IsRequest;
    var answers := EachAnswersARequest(c, s, Wire(fs), back, max);
    assert Wire(fs) + [] == Wire(fs) && fs + [] == fs;
    ParseWire(fs, [], c.client.life.maxPayload);
    ParseNothing(c.client.life.maxPayload);
    C.InjectionBound(C.TerminalsFor(Delivered(Answers([], back, max)), id), RequestsFor(fs, id), answers);
  }
}
