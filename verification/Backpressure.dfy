/**
 * The backpressure controller shared by several tasks, and the guards that give its slots back.
 * Each step is one atomic access to the counter, or a caller's move with no shared access.
 */
module Backpressure {
  import opened Sequences

  datatype Config = Config(maxPending: nat, tasks: nat)

  datatype Phase =
    | Idle
    | Waiting     // in wait_and_reserve
    | Passed      // saw pending < max, has not incremented
    | Holding     // incremented; the caller has not decided who returns the slot

  /** `released` is the code's flag; `returned` and `disarmed` are history. */
  datatype Guard = Guard(released: bool, live: bool, returned: nat, disarmed: bool)

  /** `owed` counts slots that no guard will return: disarmed ones, and ones never guarded. */
  datatype State = State(pending: int, tasks: seq<Phase>, guards: seq<Guard>, owed: nat)

  datatype Step =
    | TryReserve(i: nat)
    | Reserve(i: nat)
    | Poll(i: nat)
    | TimeOut(i: nat)
    | Increment(i: nat)
    | Wrap(i: nat)
    | Keep(i: nat)
    | GuardRelease(g: nat)
    | GuardDrop(g: nat)
    | GuardDisarm(g: nat)
    | ReleaseMany(n: nat)

  function Init(c: Config): State {
    State(0, seq(c.tasks, _ => Idle), [], 0)
  }

  predicate TaskStep(st: Step) {
    !st.GuardRelease? && !st.GuardDrop? && !st.GuardDisarm? && !st.ReleaseMany?
  }

  predicate TaskAt(s: State, i: nat, phase: Phase) {
    i < |s.tasks| && s.tasks[i] == phase
  }

  predicate LiveGuard(s: State, g: nat) {
    g < |s.guards| && s.guards[g].live
  }

  predicate Enabled(s: State, st: Step) {
    match st
    case TryReserve(i) => TaskAt(s, i, Idle)
    case Reserve(i) => TaskAt(s, i, Idle)
    case Poll(i) => TaskAt(s, i, Waiting)
    case TimeOut(i) => TaskAt(s, i, Waiting)
    case Increment(i) => TaskAt(s, i, Passed)
    case Wrap(i) => TaskAt(s, i, Holding)
    case Keep(i) => TaskAt(s, i, Holding)
    case GuardRelease(g) => LiveGuard(s, g)
    case GuardDrop(g) => LiveGuard(s, g)
    case GuardDisarm(g) => LiveGuard(s, g)
    case ReleaseMany(n) => n <= s.owed
  }

  function AfterCheck(c: Config, s: State, otherwise: Phase): Phase {
    if s.pending < c.maxPending then Passed else otherwise
  }

  /** `Drop for BackpressureGuard`. */
  function DropGuard(s: State, g: nat): State
    requires g < |s.guards|
  {
    var guard := s.guards[g];
    if guard.released then s.(guards := s.guards[g := guard.(live := false)])
    else s.(pending := s.pending - 1,
            guards := s.guards[g := guard.(live := false, returned := guard.returned + 1)])
  }

  /** `BackpressureGuard::release`: it consumes the guard, so `Drop` runs on the way out. */
  function ReleaseGuard(s: State, g: nat): State
    requires g < |s.guards|
  {
    var guard := s.guards[g];
    if guard.released then DropGuard(s, g)
    else
      var t := s.(pending := s.pending - 1,
                  guards := s.guards[g := guard.(released := true, returned := guard.returned + 1)]);
      DropGuard(t, g)
  }

  function DisarmGuard(s: State, g: nat): State
    requires g < |s.guards|
  {
    var guard := s.guards[g];
    s.(guards := s.guards[g := guard.(released := true, disarmed := true)],
       owed := if guard.released then s.owed else s.owed + 1)
  }

  function Do(c: Config, s: State, st: Step): State
    requires Enabled(s, st)
  {
    match st
    case TryReserve(i) => s.(tasks := s.tasks[i := AfterCheck(c, s, Idle)])
    case Reserve(i) => s.(tasks := s.tasks[i := AfterCheck(c, s, Waiting)])
    case Poll(i) => s.(tasks := s.tasks[i := AfterCheck(c, s, Waiting)])
    case TimeOut(i) => s.(tasks := s.tasks[i := Idle])
    case Increment(i) => s.(tasks := s.tasks[i := Holding], pending := s.pending + 1)
    case Wrap(i) => s.(tasks := s.tasks[i := Idle], guards := s.guards + [Guard(false, true, 0, false)])
    case Keep(i) => s.(tasks := s.tasks[i := Idle], owed := s.owed + 1)
    case GuardRelease(g) => ReleaseGuard(s, g)
    case GuardDrop(g) => DropGuard(s, g)
    case GuardDisarm(g) => DisarmGuard(s, g)
    case ReleaseMany(n) => s.(pending := s.pending - n, owed := s.owed - n)
  }

  ghost predicate Run(c: Config, s: State, steps: seq<Step>, t: State)
    decreases |steps|
  {
    if steps == [] then s == t
    else Enabled(s, steps[0]) && Run(c, Do(c, s, steps[0]), steps[1..], t)
  }

  ghost predicate Reachable(c: Config, s: State) {
    exists steps :: Run(c, Init(c), steps, s)
  }

  predicate IsHolding(p: Phase) {
    p.Holding?
  }

  predicate IsPassed(p: Phase) {
    p.Passed?
  }

  predicate Armed(g: Guard) {
    g.live && !g.released
  }

  /** A guard's slot is returned by the guard or owed by whoever disarmed it, never both, and only once. */
  predicate GuardSane(g: Guard) {
    && (g.live ==> g.returned == 0 && g.released == g.disarmed)
    && (!g.live ==> g.returned == Unit(!g.disarmed))
  }

  ghost predicate Inv(c: Config, s: State) {
    && |s.tasks| == c.tasks
    && s.pending == Count(s.tasks, IsHolding) + Count(s.guards, Armed) + s.owed
    && (forall g <- s.guards :: GuardSane(g))
    && s.pending + Count(s.tasks, IsPassed) < c.maxPending + Unit(c.tasks == 0) + c.tasks
    && (c.maxPending == 0 ==> s.pending == Count(s.tasks, IsPassed) == 0)
  }

  lemma InitInv(c: Config)
    ensures Inv(c, Init(c))
  {
    CountNone(Init(c).tasks, IsHolding);
    CountNone(Init(c).tasks, IsPassed);
  }

  lemma TaskStepKeeps(c: Config, s: State, st: Step)
    requires Inv(c, s) && TaskStep(st) && Enabled(s, st)
    ensures Inv(c, Do(c, s, st))
  {
    var t := Do(c, s, st);
    CountUpdate(s.tasks, st.i, t.tasks[st.i], IsHolding);
    CountUpdate(s.tasks, st.i, t.tasks[st.i], IsPassed);
    if IsPassed(s.tasks[st.i]) {
      CountSome(s.tasks, st.i, IsPassed);
    }
    if st.Wrap? {
      CountAppend(s.guards, Guard(false, true, 0, false), Armed);
    }
  }

  lemma GuardStepKeeps(c: Config, s: State, st: Step)
    requires Inv(c, s) && !TaskStep(st) && Enabled(s, st)
    ensures Inv(c, Do(c, s, st))
  {
    hide Count;
    if !st.ReleaseMany? {
      var t := Do(c, s, st);
      assert GuardSane(s.guards[st.g]);
      assert t.guards == s.guards[st.g := t.guards[st.g]];
      CountUpdate(s.guards, st.g, t.guards[st.g], Armed);
    }
  }

  lemma StepKeeps(c: Config, s: State, st: Step)
    requires Inv(c, s) && Enabled(s, st)
    ensures Inv(c, Do(c, s, st))
  {
    hide Inv, Do;
    if TaskStep(st) {
      TaskStepKeeps(c, s, st);
    } else {
      GuardStepKeeps(c, s, st);
    }
  }

  lemma {:induction false} RunKeeps(c: Config, s: State, steps: seq<Step>, t: State)
    requires Inv(c, s) && Run(c, s, steps, t)
    ensures Inv(c, t)
    decreases |steps|
  {
    hide Inv, Enabled, Do;
    if steps != [] {
      StepKeeps(c, s, steps[0]);
      RunKeeps(c, Do(c, s, steps[0]), steps[1..], t);
    }
  }

  lemma ReachableInv(c: Config, s: State)
    requires Reachable(c, s)
    ensures Inv(c, s)
  {
    hide Inv;
    InitInv(c);
    var steps :| Run(c, Init(c), steps, s);
    RunKeeps(c, Init(c), steps, s);
  }

  /**
   * The counter is the slots held by tasks, by live armed guards, and by nobody's guard; each guard
   * has returned its slot at most once, and exactly once if it is gone and was never disarmed.
   */
  lemma SlotsConserved(c: Config, s: State)
    requires Reachable(c, s)
    ensures s.pending == Count(s.tasks, IsHolding) + Count(s.guards, Armed) + s.owed
    ensures forall g <- s.guards :: g.returned <= 1
    ensures forall g <- s.guards :: !g.live ==> (g.returned == 1 <==> !g.disarmed)
  {
    hide Count;
    ReachableInv(c, s);
    assert forall g <- s.guards :: GuardSane(g);
  }

  /** No decrement, of a guard or of `release_many`, takes the counter below zero. */
  lemma NoUnderflow(c: Config, s: State, st: Step)
    requires Reachable(c, s) && Enabled(s, st)
    ensures Do(c, s, st).pending >= 0
  {
    hide Reachable, Do;
    ReachableInv(c, s);
    StepKeeps(c, s, st);
  }

  lemma {:induction false} RunThen(c: Config, s: State, steps: seq<Step>, t: State, st: Step)
    requires Run(c, s, steps, t) && Enabled(t, st)
    ensures Run(c, s, steps + [st], Do(c, t, st))
    decreases |steps|
  {
    hide Enabled, Do;
    if steps == [] {
      assert steps + [st] == [st];
      assert [st][1..] == [];
    } else {
      RunThen(c, Do(c, s, steps[0]), steps[1..], t, st);
      assert (steps + [st])[1..] == steps[1..] + [st];
    }
  }

  lemma Then(c: Config, s: State, st: Step) returns (t: State)
    requires Reachable(c, s) && Enabled(s, st)
    ensures Reachable(c, t) && t == Do(c, s, st)
  {
    hide Enabled, Do;
    var steps :| Run(c, Init(c), steps, s);
    RunThen(c, Init(c), steps, s, st);
    t := Do(c, s, st);
  }

  /** One task can take `n` slots, below the limit, and hand each to a guard. */
  lemma {:induction false} Fill(c: Config, n: nat) returns (s: State)
    requires c.tasks >= 1 && n <= c.maxPending
    ensures Reachable(c, s) && s.pending == n && |s.tasks| == c.tasks
    ensures forall p <- s.tasks :: p.Idle?
  {
    if n == 0 {
      assert Run(c, Init(c), [], Init(c));
      return Init(c);
    }
    s := Fill(c, n - 1);
    s := Then(c, s, Reserve(0));
    s := Then(c, s, Increment(0));
    s := Then(c, s, Wrap(0));
  }

  /** From one slot below the limit, any number of tasks can pass the check before one increments. */
  lemma {:induction false} AllPass(c: Config, k: nat) returns (s: State)
    requires c.maxPending >= 1 && 1 <= c.tasks && k <= c.tasks
    ensures Reachable(c, s) && s.pending == c.maxPending - 1 && |s.tasks| == c.tasks
    ensures forall i :: 0 <= i < c.tasks ==> s.tasks[i] == if i < k then Passed else Idle
  {
    if k == 0 {
      s := Fill(c, c.maxPending - 1);
      return;
    }
    s := AllPass(c, k - 1);
    s := Then(c, s, Reserve(k - 1));
  }

  /** Then they all increment. */
  lemma {:induction false} AllIncrement(c: Config, k: nat) returns (s: State)
    requires c.maxPending >= 1 && 1 <= c.tasks && k <= c.tasks
    ensures Reachable(c, s) && s.pending == c.maxPending - 1 + k && |s.tasks| == c.tasks
    ensures forall i :: k <= i < c.tasks ==> s.tasks[i].Passed?
  {
    if k == 0 {
      s := AllPass(c, c.tasks);
      return;
    }
    s := AllIncrement(c, k - 1);
    s := Then(c, s, Increment(k - 1));
  }

  /** With `c.tasks` tasks the counter can reach `max + tasks - 1` and never more: the bound is exact. */
  lemma ExactMaximum(c: Config)
    requires c.tasks >= 1 && c.maxPending >= 1
    ensures forall s :: Reachable(c, s) ==>
      s.pending + Count(s.tasks, IsPassed) <= c.maxPending + c.tasks - 1
    ensures exists s :: Reachable(c, s) && s.pending == c.maxPending + c.tasks - 1
  {
    hide Reachable;
    forall s | Reachable(c, s)
      ensures s.pending + Count(s.tasks, IsPassed) <= c.maxPending + c.tasks - 1
    {
      ReachableInv(c, s);
    }
    var s := AllIncrement(c, c.tasks);
  }

  /** `max_pending` is a true maximum exactly for a lone task or a limit of zero. */
  lemma MaximumHoldsIff(c: Config)
    ensures (forall s :: Reachable(c, s) ==> s.pending <= c.maxPending)
      <==> c.tasks <= 1 || c.maxPending == 0
  {
    hide Reachable;
    if c.tasks >= 2 && c.maxPending >= 1 {
      ExactMaximum(c);
    } else {
      forall s | Reachable(c, s)
        ensures s.pending <= c.maxPending
      {
        ReachableInv(c, s);
      }
    }
  }

  // What one caller gets

  lemma RunTwo(c: Config, s: State, a: Step, b: Step)
    requires Enabled(s, a) && Enabled(Do(c, s, a), b)
    ensures Run(c, s, [a, b], Do(c, Do(c, s, a), b))
  {
    hide Enabled, Do;
    assert [a, b][1..] == [b] && [b][1..] == [];
    assert Run(c, Do(c, s, a), [b], Do(c, Do(c, s, a), b));
  }

  /** Below the limit, `try_reserve` and `reserve` take a slot, and so does the next poll of a waiting task. */
  lemma GetsSlot(c: Config, s: State, i: nat, call: Step)
    requires i < |s.tasks| && s.pending < c.maxPending
    requires if s.tasks[i].Waiting? then call == Poll(i) else s.tasks[i].Idle? && call in {TryReserve(i), Reserve(i)}
    ensures Run(c, s, [call, Increment(i)], s.(pending := s.pending + 1, tasks := s.tasks[i := Holding]))
  {
    hide Run;
    RunTwo(c, s, call, Increment(i));
    assert s.tasks[i := Passed][i := Holding] == s.tasks[i := Holding];
  }

  /** At the limit, `try_reserve` gives up at once, and `reserve` waits until it times out; neither leaves a trace. */
  lemma AtTheLimit(c: Config, s: State, i: nat)
    requires TaskAt(s, i, Idle) && s.pending >= c.maxPending
    ensures Enabled(s, TryReserve(i)) && Do(c, s, TryReserve(i)) == s
    ensures var waiting := s.(tasks := s.tasks[i := Waiting]);
      && Run(c, s, [Reserve(i), Poll(i)], waiting)
      && Enabled(waiting, TimeOut(i)) && Do(c, waiting, TimeOut(i)) == s
  {
    hide Run;
    RunTwo(c, s, Reserve(i), Poll(i));
    assert s.tasks[i := Idle] == s.tasks;
    assert s.tasks[i := Waiting][i := Waiting] == s.tasks[i := Waiting];
    assert s.tasks[i := Waiting][i := Idle] == s.tasks;
  }

  /** Having seen the limit, a task can run into its timeout, even if the counter has dropped since. */
  lemma CanTimeOut(c: Config, s: State, i: nat)
    requires TaskAt(s, i, Waiting)
    ensures Enabled(s, TimeOut(i)) && Do(c, s, TimeOut(i)) == s.(tasks := s.tasks[i := Idle])
  {
  }

  // Guards and what they give back

  /** A disarmed guard gives nothing back, dropped or released: the slot is owed by whoever disarmed it. */
  lemma DisarmedKeepsSlot(c: Config, s: State, g: nat, last: Step)
    requires LiveGuard(s, g) && last in {GuardDrop(g), GuardRelease(g)}
    ensures Enabled(Do(c, s, GuardDisarm(g)), last)
    ensures var u := Do(c, Do(c, s, GuardDisarm(g)), last);
      && u.pending == s.pending && !LiveGuard(u, g) && u.tasks == s.tasks
      && u.owed == s.owed + Unit(!s.guards[g].released)
  {
  }

  lemma GuardFrame(c: Config, s: State, st: Step, g: nat)
    requires Inv(c, s) && Enabled(s, st)
    ensures var t := Do(c, s, st);
      && |s.guards| <= |t.guards| && (st == GuardDisarm(g) ==> g < |s.guards|)
      && (LiveGuard(t, g) && g < |s.guards| ==> LiveGuard(s, g))
      && (LiveGuard(t, g) ==>
            (t.guards[g].released <==> (g < |s.guards| && s.guards[g].released) || st == GuardDisarm(g)))
  {
    hide Count;
    if !TaskStep(st) && !st.ReleaseMany? {
      assert GuardSane(s.guards[st.g]);
    }
  }

  lemma {:induction false} DisarmedIff(c: Config, s: State, steps: seq<Step>, t: State, g: nat)
    requires Inv(c, s) && Run(c, s, steps, t) && LiveGuard(t, g)
    ensures g < |s.guards| ==> LiveGuard(s, g)
    ensures t.guards[g].released <==> (g < |s.guards| && s.guards[g].released) || GuardDisarm(g) in steps
    decreases |steps|
  {
    hide Inv, Enabled, Do;
    if steps != [] {
      StepKeeps(c, s, steps[0]);
      DisarmedIff(c, Do(c, s, steps[0]), steps[1..], t, g);
      GuardFrame(c, s, steps[0], g);
      assert GuardDisarm(g) in steps <==> GuardDisarm(g) == steps[0] || GuardDisarm(g) in steps[1..];
    }
  }

  /**
   * In every run, dropping or releasing a guard lowers the counter by exactly one if the guard was never
   * disarmed, and leaves it alone otherwise; `release_many(n)` lowers it by n; and the guard is gone.
   */
  lemma GivesBackIff(c: Config, steps: seq<Step>, s: State, st: Step)
    requires Run(c, Init(c), steps, s) && Enabled(s, st) && (st.GuardDrop? || st.GuardRelease? || st.ReleaseMany?)
    ensures st.ReleaseMany? ==> Do(c, s, st).pending == s.pending - st.n
    ensures !st.ReleaseMany? ==>
      && !LiveGuard(Do(c, s, st), st.g)
      && Do(c, s, st).pending == if GuardDisarm(st.g) in steps then s.pending else s.pending - 1
  {
    hide Run, Inv;
    if !st.ReleaseMany? {
      InitInv(c);
      DisarmedIff(c, Init(c), steps, s, st.g);
    }
  }

  // No slot is lost

  lemma {:induction false} SomeWith<T>(s: seq<T>, p: T -> bool) returns (i: nat)
    requires Count(s, p) > 0
    ensures i < |s| && p(s[i])
  {
    if p(s[0]) {
      return 0;
    }
    i := SomeWith(s[1..], p);
    i := i + 1;
  }

  ghost predicate Leads(c: Config, s: State, t: State) {
    exists steps :: Run(c, s, steps, t)
  }

  lemma Onward(c: Config, s: State, t: State, st: Step) returns (u: State)
    requires Leads(c, s, t) && Inv(c, t) && Enabled(t, st)
    ensures u == Do(c, t, st) && Leads(c, s, u) && Inv(c, u)
  {
    hide Inv, Enabled, Do;
    StepKeeps(c, t, st);
    var steps :| Run(c, s, steps, t);
    RunThen(c, s, steps, t, st);
    u := Do(c, t, st);
  }

  /** From every state, whoever holds or owes slots can give back all of them, while waiting tasks just wait. */
  lemma {:induction false} Drain(c: Config, s: State, t: State) returns (u: State)
    requires Leads(c, s, t) && Inv(c, t)
    ensures Leads(c, s, u) && Inv(c, u) && u.pending == 0 && |u.tasks| == |t.tasks|
    ensures forall i :: 0 <= i < |t.tasks| && !t.tasks[i].Holding? ==> u.tasks[i] == t.tasks[i]
    decreases t.pending
  {
    hide Leads, Count;
    if t.pending == 0 {
      return t;
    }
    u := t;
    if u.owed > 0 {
      u := Onward(c, s, u, ReleaseMany(u.owed));
    } else if Count(u.guards, Armed) > 0 {
      var g := SomeWith(u.guards, Armed);
      u := Onward(c, s, u, GuardDrop(g));
    } else {
      var i := SomeWith(u.tasks, IsHolding);
      u := Onward(c, s, u, Keep(i));
      u := Onward(c, s, u, ReleaseMany(1));
    }
    u := Drain(c, s, u);
  }

  /** So a waiting task is never shut out for good: the others can always get out of its way. */
  lemma WaitingGetsSlot(c: Config, s: State, i: nat) returns (d: State)
    requires Reachable(c, s) && c.maxPending >= 1 && TaskAt(s, i, Waiting)
    ensures Leads(c, s, d) && d.pending == 0 && TaskAt(d, i, Waiting)
    ensures Run(c, d, [Poll(i), Increment(i)], d.(pending := 1, tasks := d.tasks[i := Holding]))
  {
    hide Run, Leads, Inv;
    ReachableInv(c, s);
    assert Leads(c, s, s) by { RunNowhere(c, s); }
    d := Drain(c, s, s);
    GetsSlot(c, d, i, Poll(i));
  }

  lemma RunNowhere(c: Config, s: State)
    ensures Leads(c, s, s)
  {
    assert Run(c, s, [], s);
  }
}
