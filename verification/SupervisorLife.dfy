/** What a run loop does over its life: launching, running, failing, being forced and being stopped
    (daemon/process.go). */
module SupervisorLife {
  import opened Numbers
  import opened Options
  import opened Supervisor
  import opened SupervisorProofs

  // ----- Steps of one loop in a row -----

  /** The loop of generation `g` alone takes these steps; None if one of them is not enabled. */
  function Steps(def: Def, p: Proc, l: Loop, g: nat, acts: seq<LoopAct>): Option<(Proc, Loop)>
    decreases |acts|
  {
    if acts == [] then Some((p, l))
    else
      var r := LoopStep(def, p, l, g, acts[0]);
      if r.None? then None else Steps(def, r.value.0, r.value.1, g, acts[1..])
  }

  function Own(g: nat, acts: seq<LoopAct>): seq<Action> {
    if acts == [] then [] else [LoopActs(g, acts[0])] + Own(g, acts[1..])
  }

  function Moved(s: Sys, g: nat, r: Option<(Proc, Loop)>): Option<Sys>
    requires 1 <= g <= |s.loops|
  {
    if r.None? then None else Some(s.(p := r.value.0, loops := s.loops[g - 1 := r.value.1]))
  }

  lemma MovedTwice(s: Sys, g: nat, a: (Proc, Loop), r: Option<(Proc, Loop)>)
    requires 1 <= g <= |s.loops|
    ensures Moved(Moved(s, g, Some(a)).value, g, r) == Moved(s, g, r)
  {
    if r.Some? {
      assert s.loops[g - 1 := a.1][g - 1 := r.value.1] == s.loops[g - 1 := r.value.1];
    }
  }

  lemma StepMoves(def: Def, s: Sys, g: nat, a: LoopAct)
    requires 1 <= g <= |s.loops|
    ensures Next(def, s, LoopActs(g, a)) == Moved(s, g, LoopStep(def, s.p, s.loops[g - 1], g, a))
  {
  }

  /** They are steps of the system, in which nobody else moves. */
  lemma {:induction false} StepsAreRuns(def: Def, s: Sys, g: nat, acts: seq<LoopAct>)
    requires 1 <= g <= |s.loops|
    ensures Run(def, s, Own(g, acts)) == Moved(s, g, Steps(def, s.p, s.loops[g - 1], g, acts))
    decreases |acts|
  {
    if acts == [] {
      assert s.loops[g - 1 := s.loops[g - 1]] == s.loops;
    } else {
      assert Own(g, acts)[1..] == Own(g, acts[1..]);
      StepMoves(def, s, g, acts[0]);
      var r := LoopStep(def, s.p, s.loops[g - 1], g, acts[0]);
      if r.Some? {
        var t := Moved(s, g, r).value;
        StepsAreRuns(def, t, g, acts[1..]);
        MovedTwice(s, g, r.value, Steps(def, t.p, t.loops[g - 1], g, acts[1..]));
      }
    }
  }

  lemma {:induction false} RunAppend(def: Def, s: Sys, a: seq<Action>, b: seq<Action>)
    ensures Run(def, s, a + b) == if Run(def, s, a).None? then None else Run(def, Run(def, s, a).value, b)
    decreases |a|
  {
    if a == [] {
      assert a + b == b;
    } else {
      assert (a + b)[1..] == a[1..] + b;
      var t := Next(def, s, a[0]);
      if t.Some? { RunAppend(def, t.value, a[1..], b); }
    }
  }

  lemma RunOn(def: Def, s: Sys, a: Action)
    requires Reachable(def, s) && Next(def, s, a).Some?
    ensures Reachable(def, Next(def, s, a).value)
  {
    var schedule :| Run(def, Init(def), schedule) == Some(s);
    var t := Next(def, s, a).value;
    assert Run(def, s, [a]) == Some(t) by { assert [a][1..] == []; }
    RunAppend(def, Init(def), schedule, [a]);
    assert Run(def, Init(def), schedule + [a]) == Some(t);
  }

  lemma TwoSteps(def: Def, p: Proc, l: Loop, g: nat, a: LoopAct, b: LoopAct)
    requires LoopStep(def, p, l, g, a).Some?
    ensures var (q, m) := LoopStep(def, p, l, g, a).value; Steps(def, p, l, g, [a, b]) == LoopStep(def, q, m, g, b)
  {
    var (q, m) := LoopStep(def, p, l, g, a).value;
    assert [a, b][1..] == [b] && [b][1..] == [];
    assert LoopStep(def, q, m, g, b).Some? ==>
      Steps(def, q, m, g, [b]) == Steps(def, LoopStep(def, q, m, g, b).value.0, LoopStep(def, q, m, g, b).value.1, g, []);
  }

  lemma ThreeSteps(def: Def, p: Proc, l: Loop, g: nat, a: LoopAct, b: LoopAct, c: LoopAct)
    requires LoopStep(def, p, l, g, a).Some?
    ensures var (q, m) := LoopStep(def, p, l, g, a).value; Steps(def, p, l, g, [a, b, c]) == Steps(def, q, m, g, [b, c])
  {
    assert [a, b, c][1..] == [b, c];
  }

  // ----- Launching -----

  /** The launch of a child that is then running, with its pid shown. */
  lemma LaunchRuns(def: Def, p: Proc, l: Loop, g: nat, pid: nat)
    requires l.pc.Head?
    ensures var r := Steps(def, p, l, g, [Enter, LaunchOk, MarkRunning(pid)]);
            && r.Some? && r.value.0 == p.(state := Running, pid := pid)
            && HasChild(r.value.1) && r.value.1.attempts == l.attempts + 1
            && r.value.1 == l.(pc := Selecting, child := Alive, attempts := r.value.1.attempts, late := r.value.1.late)
  {
    ThreeSteps(def, p, l, g, Enter, LaunchOk, MarkRunning(pid));
    var (q, m) := LoopStep(def, p, l, g, Enter).value;
    TwoSteps(def, q, m, g, LaunchOk, MarkRunning(pid));
  }

  /** A child that exits by itself: the exit is taken and the pid is cleared. */
  lemma ChildEnds(def: Def, p: Proc, l: Loop, g: nat)
    requires l.pc.Selecting? && l.child == Alive
    ensures Steps(def, p, l, g, [ChildExits, TakeExit, ClearPid]) == Some((p.(pid := 0), l.(pc := AfterExit, child := NoChild)))
  {
    ThreeSteps(def, p, l, g, ChildExits, TakeExit, ClearPid);
    var (q, m) := LoopStep(def, p, l, g, ChildExits).value;
    TwoSteps(def, q, m, g, TakeExit, ClearPid);
  }

  // ----- Failing -----

  /** What counting failure number `count` leaves: the angl gives up at the limit, and waits
      2^count seconds, a minute at most, before it. */
  predicate Counted(def: Def, count: nat, q: Proc, m: Loop) {
    && q.restarts == count
    && if def.maxRestarts > 0 && count >= def.maxRestarts then q.state == Failed && m.pc.Returning?
       else && q.state == Backoff && m.pc.Waiting? && m.delay == Min(60, Pow2(count))
            && q.wake == Some(m.wake) && m.wake < |q.closes| && q.closes[m.wake] == 0
  }

  lemma CoupledIsDelay(count: nat)
    requires count > 0
    ensures Coupled(count - 1) == Min(60, Pow2(count))
  {
    assert Pow2(count) == 2 * Pow2(count - 1);
  }

  /** A run of more than 120 seconds makes its exit the first failure again; any other exit is one
      failure more. */
  lemma ExitCounted(def: Def, p: Proc, l: Loop, g: nat, elapsed: nat)
    requires l.pc.AfterExit? && def.interval.None? && l.backoff == Coupled(p.restarts)
    ensures var r := Steps(def, p, l, g, [CheckHealth(elapsed), CountExit]);
            && r.Some? && Counted(def, if elapsed > 120 then 1 else p.restarts + 1, r.value.0, r.value.1)
            && r.value.1.attempts == l.attempts && r.value.1.cancelled == l.cancelled
            && (r.value.1.pc.Waiting? ==> r.value.1.grow && r.value.1.backoff == r.value.1.delay)
  {
    TwoSteps(def, p, l, g, CheckHealth(elapsed), CountExit);
    CoupledIsDelay(if elapsed > 120 then 1 else p.restarts + 1);
    assert Coupled(0) == INITIAL_BACKOFF;
  }

  /** So is a launch that fails. */
  lemma LaunchFailureCounted(def: Def, p: Proc, l: Loop, g: nat)
    requires l.pc.Head? && l.backoff == Coupled(p.restarts)
    ensures var r := Steps(def, p, l, g, [Enter, LaunchFails, CountLaunchFailure]);
            && r.Some? && Counted(def, p.restarts + 1, r.value.0, r.value.1)
            && r.value.1.attempts == l.attempts + 1 && r.value.1.child == NoChild
  {
    ThreeSteps(def, p, l, g, Enter, LaunchFails, CountLaunchFailure);
    var (q, m) := LoopStep(def, p, l, g, Enter).value;
    TwoSteps(def, q, m, g, LaunchFails, CountLaunchFailure);
    CoupledIsDelay(p.restarts + 1);
  }

  /** A heartbeat's exit is no failure, however long the run was: the next run comes after the
      interval. */
  lemma HeartbeatWaits(def: Def, p: Proc, l: Loop, g: nat, a: LoopAct)
    requires l.pc.AfterExit? && l.child == NoChild && def.interval.Some? && LoopStep(def, p, l, g, a).Some?
    ensures var (q, m) := LoopStep(def, p, l, g, a).value;
            && q.restarts == p.restarts && q.state == Backoff && m.pc.Waiting? && !m.grow
            && m.delay == def.interval.value && m.backoff == l.backoff && q.wake == Some(m.wake)
  {
  }

  /** A wait that ends by itself, or by a forced exec, leads back to the head. */
  lemma WaitEnds(def: Def, p: Proc, l: Loop, g: nat, a: LoopAct)
    requires l.pc.Waiting? && !l.cancelled && (a.TimerFires? || a.WakeFires?) && LoopStep(def, p, l, g, a).Some?
    ensures var r := Steps(def, p, l, g, [a, ReadCtxErr, EndWait]);
            && r.Some? && r.value.0 == p.(wake := if p.wake == Some(l.wake) then None else p.wake)
            && r.value.1 == l.(pc := Head, backoff := if l.grow then Min(60, 2 * l.backoff) else l.backoff)
  {
    ThreeSteps(def, p, l, g, a, ReadCtxErr, EndWait);
    var (q, m) := LoopStep(def, p, l, g, a).value;
    TwoSteps(def, q, m, g, ReadCtxErr, EndWait);
  }

  // ----- A whole life -----

  /** Launch, run for a while, exit, and be counted. */
  function OneRun(pid: nat, elapsed: nat): seq<LoopAct> {
    [Enter, LaunchOk, MarkRunning(pid)] + ([ChildExits, TakeExit, ClearPid] + [CheckHealth(elapsed), CountExit])
  }

  const TIMER_WAIT: seq<LoopAct> := [TimerFires, ReadCtxErr, EndWait]

  /** The runs of a persistent angl that lasted so long each, with the waits between them. */
  function Runs(pid: nat, elapsed: seq<nat>, n: nat): seq<LoopAct>
    requires n <= |elapsed|
  {
    if n == 0 then []
    else if n == 1 then OneRun(pid, elapsed[0])
    else Runs(pid, elapsed, n - 1) + (TIMER_WAIT + OneRun(pid, elapsed[n - 1]))
  }

  /** How many of the first n runs ended since the last that was longer than 120 seconds, that one
      included. */
  function SinceHealthy(elapsed: seq<nat>, n: nat): nat
    requires n <= |elapsed|
  {
    if n == 0 then 0 else if elapsed[n - 1] > 120 then 1 else SinceHealthy(elapsed, n - 1) + 1
  }

  lemma {:induction false} StepsAppend(def: Def, p: Proc, l: Loop, g: nat, a: seq<LoopAct>, b: seq<LoopAct>)
    ensures var r := Steps(def, p, l, g, a);
            Steps(def, p, l, g, a + b) == if r.None? then None else Steps(def, r.value.0, r.value.1, g, b)
    decreases |a|
  {
    if a == [] {
      assert a + b == b;
    } else {
      assert (a + b)[1..] == a[1..] + b;
      var t := LoopStep(def, p, l, g, a[0]);
      if t.Some? { StepsAppend(def, t.value.0, t.value.1, g, a[1..], b); }
    }
  }

  lemma RunOnce(def: Def, p: Proc, l: Loop, g: nat, pid: nat, elapsed: nat)
    requires l.pc.Head? && def.interval.None? && l.backoff == Coupled(p.restarts) && !l.cancelled
    ensures var r := Steps(def, p, l, g, OneRun(pid, elapsed));
            && r.Some? && Counted(def, if elapsed > 120 then 1 else p.restarts + 1, r.value.0, r.value.1)
            && r.value.1.attempts == l.attempts + 1 && !r.value.1.cancelled
            && (r.value.1.pc.Waiting? ==> r.value.1.grow && r.value.1.backoff == r.value.1.delay)
  {
    LaunchRuns(def, p, l, g, pid);
    var (q, m) := Steps(def, p, l, g, [Enter, LaunchOk, MarkRunning(pid)]).value;
    StepsAppend(def, p, l, g, [Enter, LaunchOk, MarkRunning(pid)], [ChildExits, TakeExit, ClearPid] + [CheckHealth(elapsed), CountExit]);
    ChildEnds(def, q, m, g);
    StepsAppend(def, q, m, g, [ChildExits, TakeExit, ClearPid], [CheckHealth(elapsed), CountExit]);
    ExitCounted(def, q.(pid := 0), m.(pc := AfterExit, child := NoChild), g, elapsed);
  }

  lemma RunAgain(def: Def, p: Proc, l: Loop, g: nat, pid: nat, elapsed: nat)
    requires l.pc.Waiting? && def.interval.None? && !l.cancelled && l.grow && l.backoff == l.delay
    requires p.restarts > 0 && l.delay == Min(60, Pow2(p.restarts))
    ensures var r := Steps(def, p, l, g, TIMER_WAIT + OneRun(pid, elapsed));
            && r.Some? && Counted(def, if elapsed > 120 then 1 else p.restarts + 1, r.value.0, r.value.1)
            && r.value.1.attempts == l.attempts + 1 && !r.value.1.cancelled
            && (r.value.1.pc.Waiting? ==> r.value.1.grow && r.value.1.backoff == r.value.1.delay)
  {
    WaitEnds(def, p, l, g, TimerFires);
    var (q, m) := Steps(def, p, l, g, TIMER_WAIT).value;
    StepsAppend(def, p, l, g, TIMER_WAIT, OneRun(pid, elapsed));
    assert Pow2(p.restarts + 1) == 2 * Pow2(p.restarts);
    RunOnce(def, q, m, g, pid, elapsed);
  }

  /** A started persistent angl, left alone: run number n brings the failure count to the number of
      runs since the last healthy one; it gives up when that is the limit, and otherwise waits and
      launches again. */
  lemma {:induction false} LifeOf(def: Def, p: Proc, g: nat, pid: nat, elapsed: seq<nat>, n: nat)
    requires def.interval.None? && p.restarts == 0 && 0 < n <= |elapsed|
    requires forall i :: 0 <= i < n && def.maxRestarts > 0 ==> SinceHealthy(elapsed, i) < def.maxRestarts
    ensures var r := Steps(def, p, NEW_LOOP, g, Runs(pid, elapsed, n));
            && r.Some? && Counted(def, SinceHealthy(elapsed, n), r.value.0, r.value.1)
            && r.value.1.attempts == n && !r.value.1.cancelled
            && (r.value.1.pc.Waiting? ==> r.value.1.grow && r.value.1.backoff == r.value.1.delay)
  {
    if n == 1 {
      assert NEW_LOOP.backoff == Coupled(0);
      RunOnce(def, p, NEW_LOOP, g, pid, elapsed[0]);
      assert SinceHealthy(elapsed, 0) == 0;
    } else {
      LifeOf(def, p, g, pid, elapsed, n - 1);
      var (q, m) := Steps(def, p, NEW_LOOP, g, Runs(pid, elapsed, n - 1)).value;
      StepsAppend(def, p, NEW_LOOP, g, Runs(pid, elapsed, n - 1), TIMER_WAIT + OneRun(pid, elapsed[n - 1]));
      RunAgain(def, q, m, g, pid, elapsed[n - 1]);
    }
  }

  /** The same as a run of the whole system, from the first start on. */
  lemma FirstLife(def: Def, pid: nat, elapsed: seq<nat>)
    requires def.interval.None? && elapsed != []
    requires forall i :: 0 <= i < |elapsed| && def.maxRestarts > 0 ==> SinceHealthy(elapsed, i) < def.maxRestarts
    ensures var t := Run(def, Init(def), [CallStart] + Own(1, Runs(pid, elapsed, |elapsed|)));
            && t.Some? && |t.value.loops| == 1 && t.value.loops[0].attempts == |elapsed|
            && Counted(def, SinceHealthy(elapsed, |elapsed|), t.value.p, t.value.loops[0])
  {
    var own := Own(1, Runs(pid, elapsed, |elapsed|));
    var s := Next(def, Init(def), CallStart).value;
    assert ([CallStart] + own)[1..] == own;
    StepsAreRuns(def, s, 1, Runs(pid, elapsed, |elapsed|));
    LifeOf(def, s.p, 1, pid, elapsed, |elapsed|);
  }

  // ----- Runs without a healthy one -----

  /** No child in the schedule lives longer than 120 seconds. */
  predicate Brief(schedule: seq<Action>) {
    forall a :: a in schedule && a.LoopActs? && a.act.CheckHealth? ==> a.act.elapsed <= 120
  }

  predicate NoneHealthy(loops: seq<Loop>) { forall i :: 0 <= i < |loops| ==> !loops[i].healthy }

  lemma BriefStep(def: Def, s: Sys, a: Action)
    requires NoneHealthy(s.loops) && Next(def, s, a).Some?
    requires a.LoopActs? && a.act.CheckHealth? ==> a.act.elapsed <= 120
    ensures NoneHealthy(Next(def, s, a).value.loops)
  {
  }

  lemma {:induction false} BriefRun(def: Def, s: Sys, schedule: seq<Action>)
    requires NoneHealthy(s.loops) && Brief(schedule) && Run(def, s, schedule).Some?
    ensures NoneHealthy(Run(def, s, schedule).value.loops)
    decreases |schedule|
  {
    if schedule != [] {
      assert schedule[0] in schedule;
      BriefStep(def, s, schedule[0]);
      BriefRun(def, Next(def, s, schedule[0]).value, schedule[1..]);
    }
  }

  /** A persistent angl none of whose runs lasts longer than 120 seconds makes at most as many
      attempts a start as its limit says; once they are spent and counted, it has failed unless it
      was stopped. */
  lemma BriefRunsReachLimit(def: Def, schedule: seq<Action>, i: nat)
    requires def.maxRestarts > 0 && def.interval.None? && Brief(schedule)
    requires Run(def, Init(def), schedule).Some? && i < |Run(def, Init(def), schedule).value.loops|
    ensures var s := Run(def, Init(def), schedule).value;
            && s.loops[i].attempts <= def.maxRestarts
            && (s.loops[i].attempts == def.maxRestarts && Uncounted(s.loops[i].pc) == 0 ==> Past(s.loops[i].pc))
            && (i == |s.loops| - 1 && Past(s.loops[i].pc) && !s.loops[i].cancelled ==> s.p.state == Failed)
  {
    var s := Run(def, Init(def), schedule).value;
    BriefRun(def, Init(def), schedule);
    RestartLimit(def, s);
    EndsOnlyByFailing(def, s);
  }

  /** What a loop that nobody cancelled may be at the end of, and how long a heartbeat waits. */
  predicate LeftAlone(def: Def, p: Proc, l: Loop) {
    && (Past(l.pc) && !l.cancelled ==> p.state == Failed)
    && (InWait(l.pc) && !l.grow ==> def.interval == Some(l.delay))
  }

  ghost predicate NewestLeftAlone(def: Def, s: Sys) { s.loops != [] ==> LeftAlone(def, s.p, s.loops[|s.loops| - 1]) }

  lemma LeftAloneStep(def: Def, p: Proc, l: Loop, a: LoopAct)
    requires LoopOk(def, l) && LeftAlone(def, p, l) && LoopStep(def, p, l, p.generation, a).Some?
    ensures var (q, m) := LoopStep(def, p, l, p.generation, a).value; LeftAlone(def, q, m)
  {
  }

  lemma LeftAloneNext(def: Def, s: Sys, a: Action)
    requires Inv(def, s) && NewestLeftAlone(def, s) && Next(def, s, a).Some?
    ensures NewestLeftAlone(def, Next(def, s, a).value)
  {
    if a.LoopActs? {
      LeftAloneActs(def, s, a.g, a.act);
    } else {
      WaitingIsNotPast(def, s);
      LeftAloneCall(def, s, a);
    }
  }

  lemma LeftAloneActs(def: Def, s: Sys, g: nat, a: LoopAct)
    requires Inv(def, s) && NewestLeftAlone(def, s) && Next(def, s, LoopActs(g, a)).Some?
    ensures NewestLeftAlone(def, Next(def, s, LoopActs(g, a)).value)
  {
    InvGivesLoopOk(def, s, g - 1);
    if g == |s.loops| {
      LeftAloneStep(def, s.p, s.loops[g - 1], a);
    } else {
      PastLoopStep(def, s.p, s.loops[g - 1], g, a);
    }
  }

  lemma WaitingIsNotPast(def: Def, s: Sys)
    requires Inv(def, s) && NewestLeftAlone(def, s)
    ensures s.p.generation == |s.loops|
    ensures s.loops != [] && s.p.state == Backoff ==> !Past(s.loops[|s.loops| - 1].pc) || s.loops[|s.loops| - 1].cancelled
  {
  }

  lemma LeftAloneCall(def: Def, s: Sys, a: Action)
    requires NewestLeftAlone(def, s) && s.p.generation == |s.loops| && !a.LoopActs? && Next(def, s, a).Some?
    requires s.loops != [] && s.p.state == Backoff ==> !Past(s.loops[|s.loops| - 1].pc) || s.loops[|s.loops| - 1].cancelled
    ensures NewestLeftAlone(def, Next(def, s, a).value)
  {
  }

  lemma {:induction false} LeftAloneRun(def: Def, s: Sys, schedule: seq<Action>)
    requires Inv(def, s) && NewestLeftAlone(def, s) && Run(def, s, schedule).Some?
    ensures NewestLeftAlone(def, Run(def, s, schedule).value)
    decreases |schedule|
  {
    if schedule != [] {
      LeftAloneNext(def, s, schedule[0]);
      NextKeepsInv(def, s, schedule[0]);
      LeftAloneRun(def, Next(def, s, schedule[0]).value, schedule[1..]);
    }
  }

  /** An angl that nobody stops is over only when it has failed, so an exit always leads to a
      relaunch below the limit; a wait that is not for a failure lasts the heartbeat's interval. */
  lemma EndsOnlyByFailing(def: Def, s: Sys)
    requires Reachable(def, s) && s.loops != []
    ensures var l := s.loops[|s.loops| - 1];
            && (Past(l.pc) && !l.cancelled ==> s.p.state == Failed)
            && (InWait(l.pc) && !l.grow ==> def.interval == Some(l.delay))
  {
    var schedule :| Run(def, Init(def), schedule) == Some(s);
    LeftAloneRun(def, Init(def), schedule);
  }

  // ----- Calls -----

  /** Start does nothing to a busy angl; any other gets a loop of its own that is about to launch,
      with a failure count of zero. */
  lemma StartOutcome(def: Def, s: Sys)
    requires Reachable(def, s)
    ensures var t := Next(def, s, CallStart);
            && t.Some? && Busy(t.value.p.state) && t.value.callers == s.callers
            && (Busy(s.p.state) ==> t == Some(s))
            && (!Busy(s.p.state) ==> Begun(s, t.value))
  {
    ReachableInv(def, s);
  }

  /** A new generation that nothing was done to yet. */
  predicate Begun(s: Sys, t: Sys) {
    && t.p.state == Starting && t.p.restarts == 0 && t.p.generation == s.p.generation + 1
    && |t.loops| == |s.loops| + 1 && t.loops[..|s.loops|] == s.loops
    && var l := t.loops[|s.loops|]; l.pc.Head? && !l.cancelled && l.attempts == 0 && l.child == NoChild && l.backoff == 2
  }

  /** Exec starts any angl that is neither starting, running nor waiting; it lets a waiting one
      launch at once, and is refused by the others and in the gap between two states. */
  lemma ExecRuns(def: Def, s: Sys)
    requires Reachable(def, s)
    ensures var t := Next(def, s, CallExec);
            && t.Some? && t.value.callers == s.callers
            && (!Busy(s.p.state) ==> Begun(s, t.value))
            && (s.p.state == Starting || s.p.state == Running || (s.p.state == Backoff && s.p.wake == None) ==> t == Some(s))
            && (s.p.state == Backoff && s.p.wake.Some? ==> s.loops != [] && t.value.loops == s.loops)
            && (s.p.state == Backoff && s.p.wake.Some? && s.loops[|s.loops| - 1].pc.Waiting? && !s.loops[|s.loops| - 1].cancelled ==>
                  var r := Steps(def, t.value.p, s.loops[|s.loops| - 1], |s.loops|, [WakeFires, ReadCtxErr, EndWait]);
                  r.Some? && r.value.1.pc.Head? && r.value.0.restarts == s.p.restarts)
  {
    ReachableInv(def, s);
    ExecOutcome(def, s);
    var t := Next(def, s, CallExec).value;
    if s.p.state == Backoff && s.p.wake.Some? {
      var l := s.loops[|s.loops| - 1];
      if l.pc.Waiting? && !l.cancelled {
        WaitEnds(def, t.p, l, |s.loops|, WakeFires);
      }
    }
  }

  /** A failed angl stays failed until somebody starts or forces it. */
  lemma FailedNext(def: Def, s: Sys, a: Action)
    requires Inv(def, s) && s.p.state == Failed && !a.CallStart? && !a.CallExec? && Next(def, s, a).Some?
    ensures Next(def, s, a).value.p.state == Failed
  {
    if a.LoopActs? {
      InvGivesLoopOk(def, s, a.g - 1);
      if a.g < |s.loops| {
        PastLoopStep(def, s.p, s.loops[a.g - 1], a.g, a.act);
      } else {
        assert Tied(def, s.p, s.loops[a.g - 1]);
      }
    }
  }

  lemma {:induction false} FailedStays(def: Def, s: Sys, schedule: seq<Action>)
    requires Inv(def, s) && s.p.state == Failed && Run(def, s, schedule).Some?
    requires CallStart !in schedule && CallExec !in schedule
    ensures Run(def, s, schedule).value.p.state == Failed
    decreases |schedule|
  {
    if schedule != [] {
      assert schedule[0] in schedule;
      FailedNext(def, s, schedule[0]);
      NextKeepsInv(def, s, schedule[0]);
      FailedStays(def, Next(def, s, schedule[0]).value, schedule[1..]);
    }
  }

  // ----- Stop -----

  /** The generation is the one named, and it exists. */
  predicate Names(done: Option<nat>, n: nat) { done.Some? ==> 1 <= done.value <= n }

  /** A call that took the lock cancels the loop it will wait for, and a call that waits has done so. */
  predicate StopCancels(k: Caller, loops: seq<Loop>) {
    match k
    case Captured(cancel, done, _) => cancel == done && Names(done, |loops|)
    case Waits(done, _) => Names(done, |loops|) && (done.Some? ==> loops[done.value - 1].cancelled)
    case Returned(_) => true
  }

  ghost predicate StopsCancel(s: Sys) { forall c :: c in s.callers ==> StopCancels(s.callers[c], s.loops) }

  lemma StopsCancelNext(def: Def, s: Sys, a: Action)
    requires Inv(def, s) && StopsCancel(s) && Next(def, s, a).Some?
    ensures StopsCancel(Next(def, s, a).value)
  {
    var t := Next(def, s, a).value;
    CaptureNamesLoop(def, s);
    forall i | 0 <= i < |s.loops| && s.loops[i].cancelled
      ensures i < |t.loops| && t.loops[i].cancelled
    {
      InvGivesLoopOk(def, s, i);
      CancelledNext(def, s, i + 1, a);
    }
    RunKeepsLoopsOnce(def, s, a);
    forall c | c in t.callers
      ensures StopCancels(t.callers[c], t.loops)
    {
      if c in s.callers {
        assert StopCancels(s.callers[c], s.loops);
      }
    }
  }

  lemma RunKeepsLoopsOnce(def: Def, s: Sys, a: Action)
    requires Next(def, s, a).Some?
    ensures |s.loops| <= |Next(def, s, a).value.loops|
  {
  }

  lemma CaptureNamesLoop(def: Def, s: Sys)
    requires Inv(def, s)
    ensures s.p.cancel == s.p.done && Names(s.p.done, |s.loops|)
  {
  }

  lemma {:induction false} StopsCancelRun(def: Def, s: Sys, schedule: seq<Action>)
    requires Inv(def, s) && StopsCancel(s) && Run(def, s, schedule).Some?
    ensures StopsCancel(Run(def, s, schedule).value)
    decreases |schedule|
  {
    if schedule != [] {
      StopsCancelNext(def, s, schedule[0]);
      NextKeepsInv(def, s, schedule[0]);
      StopsCancelRun(def, Next(def, s, schedule[0]).value, schedule[1..]);
    }
  }

  /** The loop a Stop or StopRunning waits for is cancelled, so it ends. */
  lemma StopWaitsForCancelled(def: Def, s: Sys, caller: nat)
    requires Reachable(def, s) && caller in s.callers && s.callers[caller].Waits? && s.callers[caller].done.Some?
    ensures var g := s.callers[caller].done.value; 1 <= g <= |s.loops| && s.loops[g - 1].cancelled
  {
    var schedule :| Run(def, Init(def), schedule) == Some(s);
    StopsCancelRun(def, Init(def), schedule);
    assert StopCancels(s.callers[caller], s.loops);
  }

  /** A cancelled loop closes within its own steps, its child having exited or been killed. */
  lemma {:induction false} CancelledCloses(def: Def, s: Sys, g: nat) returns (schedule: seq<Action>, t: Sys)
    requires Inv(def, s) && 1 <= g <= |s.loops| && s.loops[g - 1].cancelled
    ensures |schedule| <= Rank(s.loops[g - 1]) && forall a :: a in schedule ==> a.LoopActs? && a.g == g
    ensures Run(def, s, schedule) == Some(t)
    ensures |t.loops| == |s.loops| && t.loops[g - 1].pc.Closed? && t.callers == s.callers
    decreases Rank(s.loops[g - 1])
  {
    InvGivesLoopOk(def, s, g - 1);
    if s.loops[g - 1].pc.Closed? {
      schedule, t := [], s;
    } else {
      var a := CancelledLoopCanMove(def, s.p, s.loops[g - 1], g);
      CancelledNext(def, s, g, LoopActs(g, a));
      NextKeepsInv(def, s, LoopActs(g, a));
      var rest;
      rest, t := CancelledCloses(def, Next(def, s, LoopActs(g, a)).value, g);
      schedule := [LoopActs(g, a)] + rest;
      assert schedule[1..] == rest;
    }
  }

  lemma RankBound(l: Loop)
    requires l.child == Alive ==> l.pc.Started? || l.pc.Selecting? || l.pc.Killing?
    ensures Rank(l) <= MAX_RANK
  {
  }

  lemma CancelledLoopCloses(def: Def, s: Sys, g: nat) returns (own: seq<Action>, t: Sys)
    requires Reachable(def, s) && 1 <= g <= |s.loops| && s.loops[g - 1].cancelled
    ensures |own| <= MAX_RANK && forall a :: a in own ==> a.LoopActs? && a.g == g
    ensures Run(def, s, own) == Some(t)
    ensures |t.loops| == |s.loops| && t.loops[g - 1].pc.Closed? && t.callers == s.callers
  {
    ReachableInv(def, s);
    InvGivesLoopOk(def, s, g - 1);
    RankBound(s.loops[g - 1]);
    own, t := CancelledCloses(def, s, g);
  }

  lemma ReturnAfter(def: Def, s: Sys, caller: nat, own: seq<Action>, t: Sys)
    requires Run(def, s, own) == Some(t) && caller in t.callers && t.callers[caller].Waits?
    requires var done := t.callers[caller].done; done.Some? ==> 1 <= done.value <= |t.loops| && t.loops[done.value - 1].pc.Closed?
    ensures var u := Run(def, s, own + [CallReturn(caller)]);
            u.Some? && caller in u.value.callers && u.value.callers[caller].Returned?
  {
    RunAppend(def, s, own, [CallReturn(caller)]);
    assert [CallReturn(caller)][1..] == [];
  }

  /** A Stop or StopRunning that waits can always return, after at most 28 steps of the loop it waits
      for, whatever that loop was doing. */
  lemma StopCanReturn(def: Def, s: Sys, caller: nat) returns (own: seq<Action>)
    requires Reachable(def, s) && caller in s.callers && s.callers[caller].Waits?
    ensures |own| <= MAX_RANK && forall a :: a in own ==> a.LoopActs? && s.callers[caller].done == Some(a.g)
    ensures var t := Run(def, s, own + [CallReturn(caller)]);
            t.Some? && caller in t.value.callers && t.value.callers[caller].Returned?
  {
    var done := s.callers[caller].done;
    var t := s;
    own := [];
    if done.Some? {
      StopWaitsForCancelled(def, s, caller);
      own, t := CancelledLoopCloses(def, s, done.value);
    }
    ReturnAfter(def, s, caller, own, t);
  }

  lemma {:induction false} CallerKeepsCapture(def: Def, s: Sys, caller: nat, schedule: seq<Action>)
    requires caller in s.callers && Run(def, s, schedule).Some?
    ensures var t := Run(def, s, schedule).value; caller in t.callers && t.callers[caller].upTo == s.callers[caller].upTo
    decreases |schedule|
  {
    if schedule != [] {
      CallerKeepsCapture(def, Next(def, s, schedule[0]).value, caller, schedule[1..]);
    }
  }

  /** Stop is always possible, StopRunning exactly while the angl is running. When either has
      returned, no loop there was when it was called has a child, or launches ever again. */
  lemma StopEndsAll(def: Def, s: Sys, stop: Action, schedule: seq<Action>, t: Sys, later: seq<Action>, u: Sys)
    requires Reachable(def, s) && (stop.CallStop? || stop.CallStopRunning?) && stop.caller !in s.callers
    ensures Next(def, s, stop).Some? <==> stop.CallStop? || s.p.state == Running
    ensures && Run(def, s, [stop] + schedule) == Some(t) && Run(def, t, later) == Some(u)
            && stop.caller in t.callers && t.callers[stop.caller].Returned? ==>
              forall i :: 0 <= i < |s.loops| ==> Ended(i, t.loops, u.loops)
  {
    if && Run(def, s, [stop] + schedule) == Some(t) && Run(def, t, later) == Some(u)
       && stop.caller in t.callers && t.callers[stop.caller].Returned? {
      assert ([stop] + schedule)[1..] == schedule;
      CallerKeepsCapture(def, Next(def, s, stop).value, stop.caller, schedule);
      ReachableOn(def, s, stop, schedule);
      forall i | 0 <= i < |s.loops|
        ensures Ended(i, t.loops, u.loops)
      {
        StopIsFinal(def, t, stop.caller, i, later);
      }
    }
  }

  /** The loop has no child now, and neither launched nor has one later. */
  predicate Ended(i: nat, now: seq<Loop>, later: seq<Loop>) {
    && i < |now| && i < |later| && now[i].child == NoChild && later[i].child == NoChild
    && later[i].attempts == now[i].attempts
  }

  lemma ReachableOn(def: Def, s: Sys, a: Action, schedule: seq<Action>)
    requires Reachable(def, s) && Next(def, s, a).Some? && Run(def, Next(def, s, a).value, schedule).Some?
    ensures Reachable(def, Run(def, Next(def, s, a).value, schedule).value)
  {
    RunOn(def, s, a);
    var t := Next(def, s, a).value;
    var before :| Run(def, Init(def), before) == Some(t);
    RunAppend(def, Init(def), before, schedule);
    assert Run(def, Init(def), before + schedule) == Run(def, t, schedule);
  }
}
