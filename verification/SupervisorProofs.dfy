/** Safety of the supervisor over every schedule (daemon/process.go). */
module SupervisorProofs {
  import opened Numbers
  import opened Options
  import opened Supervisor

  // ----- One step of one loop -----

  lemma FailureKeepsTied(def: Def, p: Proc, l: Loop)
    requires FieldsOk(def, p) && LoopOk(def, l) && Tied(def, p, l)
    requires l.pc.StartFailed? || l.pc.Counting?
    ensures var (q, m) := AfterFailure(def, p, l);
            FieldsOk(def, q) && LoopOk(def, m) && Tied(def, q, m) && q.generation == p.generation
  {
  }

  lemma EndWaitKeepsTied(def: Def, p: Proc, l: Loop)
    requires FieldsOk(def, p) && LoopOk(def, l) && Tied(def, p, l) && l.pc.Clearing?
    ensures var r := LoopStep(def, p, l, p.generation, EndWait);
            r.Some? && FieldsOk(def, r.value.0) && LoopOk(def, r.value.1) && Tied(def, r.value.0, r.value.1)
  {
    if l.grow {
      NextBackoffCouples(p.restarts - 1);
    }
  }

  ghost predicate KeepsTied(def: Def, p: Proc, l: Loop, a: LoopAct)
    requires LoopStep(def, p, l, p.generation, a).Some?
  {
    var (q, m) := LoopStep(def, p, l, p.generation, a).value;
    && FieldsOk(def, q) && LoopOk(def, m) && Tied(def, q, m)
    && q.generation == p.generation
    && (Past(l.pc) ==> Past(m.pc))
  }

  lemma EnterKeepsTied(def: Def, p: Proc, l: Loop, a: LoopAct)
    requires FieldsOk(def, p) && LoopOk(def, l) && Tied(def, p, l)
    requires a.Enter? || a.MarkRunning?
    requires LoopStep(def, p, l, p.generation, a).Some?
    ensures KeepsTied(def, p, l, a)
  {
  }

  lemma LaunchKeepsTied(def: Def, p: Proc, l: Loop, a: LoopAct)
    requires FieldsOk(def, p) && LoopOk(def, l) && Tied(def, p, l)
    requires a.LaunchFails? || a.LaunchOk?
    requires LoopStep(def, p, l, p.generation, a).Some?
    ensures KeepsTied(def, p, l, a)
  {
  }

  lemma ChildKeepsTied(def: Def, p: Proc, l: Loop, a: LoopAct)
    requires FieldsOk(def, p) && LoopOk(def, l) && Tied(def, p, l)
    requires a.ChildExits? || a.TakeExit? || a.ClearPid?
    requires LoopStep(def, p, l, p.generation, a).Some?
    ensures KeepsTied(def, p, l, a)
  {
  }

  lemma KillKeepsTied(def: Def, p: Proc, l: Loop, a: LoopAct)
    requires FieldsOk(def, p) && LoopOk(def, l) && Tied(def, p, l)
    requires a.SelectCancel? || a.Reap?
    requires LoopStep(def, p, l, p.generation, a).Some?
    ensures KeepsTied(def, p, l, a)
  {
  }

  lemma IntervalKeepsTied(def: Def, p: Proc, l: Loop, a: LoopAct)
    requires FieldsOk(def, p) && LoopOk(def, l) && Tied(def, p, l)
    requires a.BeginInterval?
    requires LoopStep(def, p, l, p.generation, a).Some?
    ensures KeepsTied(def, p, l, a)
  {
  }

  lemma HealthKeepsTied(def: Def, p: Proc, l: Loop, a: LoopAct)
    requires FieldsOk(def, p) && LoopOk(def, l) && Tied(def, p, l)
    requires a.CheckHealth?
    requires LoopStep(def, p, l, p.generation, a).Some?
    ensures KeepsTied(def, p, l, a)
  {
    assert Coupled(0) == INITIAL_BACKOFF;
  }

  lemma DeferredKeepsTied(def: Def, p: Proc, l: Loop, a: LoopAct)
    requires FieldsOk(def, p) && LoopOk(def, l) && Tied(def, p, l)
    requires a.RunDeferred? || a.CloseDone?
    requires LoopStep(def, p, l, p.generation, a).Some?
    ensures KeepsTied(def, p, l, a)
  {
  }

  lemma WaitKeepsTied(def: Def, p: Proc, l: Loop, a: LoopAct)
    requires FieldsOk(def, p) && LoopOk(def, l) && Tied(def, p, l)
    requires a.TimerFires? || a.WakeFires?
    requires LoopStep(def, p, l, p.generation, a).Some?
    ensures KeepsTied(def, p, l, a)
  {
  }

  lemma CtxKeepsTied(def: Def, p: Proc, l: Loop, a: LoopAct)
    requires FieldsOk(def, p) && LoopOk(def, l) && Tied(def, p, l)
    requires a.WaitCancelled? || a.ReadCtxErr?
    requires LoopStep(def, p, l, p.generation, a).Some?
    ensures KeepsTied(def, p, l, a)
  {
  }

  /** The loop of the current generation keeps everything that ties it to the fields. */
  lemma CurrentLoopStep(def: Def, p: Proc, l: Loop, a: LoopAct)
    requires FieldsOk(def, p) && LoopOk(def, l) && Tied(def, p, l)
    requires LoopStep(def, p, l, p.generation, a).Some?
    ensures KeepsTied(def, p, l, a)
  {
    match a
    case Enter | MarkRunning(_) => EnterKeepsTied(def, p, l, a);
    case LaunchFails | LaunchOk => LaunchKeepsTied(def, p, l, a);
    case ChildExits | TakeExit | ClearPid => ChildKeepsTied(def, p, l, a);
    case SelectCancel | Reap => KillKeepsTied(def, p, l, a);
    case BeginInterval => IntervalKeepsTied(def, p, l, a);
    case CheckHealth(_) => HealthKeepsTied(def, p, l, a);
    case RunDeferred | CloseDone => DeferredKeepsTied(def, p, l, a);
    case TimerFires | WakeFires => WaitKeepsTied(def, p, l, a);
    case WaitCancelled | ReadCtxErr => CtxKeepsTied(def, p, l, a);
    case CountExit | CountLaunchFailure => FailureKeepsTied(def, p, l);
    case EndWait => EndWaitKeepsTied(def, p, l);
  }

  /** A loop past its last launch stays there, launches nothing, and, once its generation is
      superseded, changes no field: its deferred section is invisible to the newer one. */
  lemma PastLoopStep(def: Def, p: Proc, l: Loop, g: nat, a: LoopAct)
    requires LoopOk(def, l) && Past(l.pc) && LoopStep(def, p, l, g, a).Some?
    ensures var (q, m) := LoopStep(def, p, l, g, a).value;
            && LoopOk(def, m) && Past(m.pc) && m.attempts == l.attempts && m.child == NoChild
            && (g != p.generation ==> q == p)
  {
  }

  // ----- One step of the system -----

  lemma StartKeepsInv(def: Def, s: Sys)
    requires Inv(def, s) && !Busy(s.p.state)
    ensures Inv(def, Spawn(s, StartLocked(s.p)))
  {
    var t := Spawn(s, StartLocked(s.p));
    assert Coupled(0) == INITIAL_BACKOFF;
    forall i | 0 <= i < |t.loops| - 1
      ensures Past(t.loops[i].pc)
    {
      assert t.loops[i] == s.loops[i];
    }
    forall c | c in t.callers
      ensures CallerOk(t.callers[c], t.loops)
    {
      CallerKept(t.callers[c], s.loops, t.loops);
    }
  }

  lemma CallerKept(k: Caller, before: seq<Loop>, after: seq<Loop>)
    requires CallerOk(k, before) && |before| <= |after|
    requires forall i :: 0 <= i < |before| && Past(before[i].pc) ==> Past(after[i].pc)
    ensures CallerOk(k, after)
  {
  }

  lemma ExecKeepsInv(def: Def, s: Sys)
    requires Inv(def, s)
    ensures Inv(def, Spawn(s, ExecCall(s.p).0))
  {
    if !Busy(s.p.state) {
      StartKeepsInv(def, s);
    } else if s.p.state == Backoff && s.p.wake.Some? {
      var t := Spawn(s, ExecCall(s.p).0);
      var l := s.loops[|s.loops| - 1];
      assert Tied(def, s.p, l);
      assert Tied(def, t.p, l);
    }
  }

  lemma CancelKeepsInv(def: Def, s: Sys, g: nat)
    requires Inv(def, s)
    ensures Inv(def, CancelLoop(s, g))
  {
    var t := CancelLoop(s, g);
    if 1 <= g <= |s.loops| {
      assert LoopOk(def, s.loops[g - 1]);
      assert LoopOk(def, t.loops[g - 1]);
      forall c | c in t.callers
        ensures CallerOk(t.callers[c], t.loops)
      {
        CallerKept(t.callers[c], s.loops, t.loops);
      }
    }
  }

  /** What a loop step leaves behind, seen from the other loops and the callers. */
  lemma LiftLoopStep(def: Def, s: Sys, g: nat, q: Proc, m: Loop)
    requires Inv(def, s) && 1 <= g <= |s.loops|
    requires LoopOk(def, m) && FieldsOk(def, q) && q.generation == s.p.generation
    requires Past(s.loops[g - 1].pc) ==> Past(m.pc)
    requires if g == |s.loops| then Tied(def, q, m) else q == s.p
    ensures Inv(def, s.(p := q, loops := s.loops[g - 1 := m]))
  {
    var t := s.(p := q, loops := s.loops[g - 1 := m]);
    forall c | c in t.callers
      ensures CallerOk(t.callers[c], t.loops)
    {
      CallerKept(t.callers[c], s.loops, t.loops);
    }
  }

  lemma LoopActsKeepInv(def: Def, s: Sys, g: nat, a: LoopAct)
    requires Inv(def, s) && Next(def, s, LoopActs(g, a)).Some?
    ensures Inv(def, Next(def, s, LoopActs(g, a)).value)
  {
    var l := s.loops[g - 1];
    var (q, m) := LoopStep(def, s.p, l, g, a).value;
    if g == |s.loops| {
      assert KeepsTied(def, s.p, l, a) by { CurrentLoopStep(def, s.p, l, a); }
    } else {
      PastLoopStep(def, s.p, l, g, a);
    }
    LiftLoopStep(def, s, g, q, m);
  }

  lemma CaptureIsOk(def: Def, s: Sys)
    requires Inv(def, s)
    ensures CallerOk(Captured(s.p.cancel, s.p.done, |s.loops|), s.loops)
  {
  }

  lemma NextKeepsInv(def: Def, s: Sys, a: Action)
    requires Inv(def, s) && Next(def, s, a).Some?
    ensures Inv(def, Next(def, s, a).value)
  {
    match a
    case CallStart =>
      if !Busy(s.p.state) { StartKeepsInv(def, s); }
    case CallExec => ExecKeepsInv(def, s);
    case CallStop(c) => CaptureIsOk(def, s);
    case CallStopRunning(c) => CaptureIsOk(def, s);
    case CallCancel(c) =>
      var k := s.callers[c];
      if k.cancel.Some? { CancelKeepsInv(def, s, k.cancel.value); }
    case CallReturn(c) =>
      assert CallerOk(s.callers[c], s.loops);
    case ParentCancels(g) => CancelKeepsInv(def, s, g);
    case LoopActs(g, act) => LoopActsKeepInv(def, s, g, act);
  }

  lemma {:induction false} RunKeepsInv(def: Def, s: Sys, schedule: seq<Action>)
    requires Inv(def, s) && Run(def, s, schedule).Some?
    ensures Inv(def, Run(def, s, schedule).value)
    decreases |schedule|
  {
    if schedule != [] {
      NextKeepsInv(def, s, schedule[0]);
      RunKeepsInv(def, Next(def, s, schedule[0]).value, schedule[1..]);
    }
  }

  lemma ReachableInv(def: Def, s: Sys)
    requires Reachable(def, s)
    ensures Inv(def, s)
  {
    var schedule :| Run(def, Init(def), schedule) == Some(s);
    RunKeepsInv(def, Init(def), schedule);
  }

  // ----- At most one child -----

  /** Only the newest generation can own a child, so no two loops ever do. */
  lemma AtMostOneChild(def: Def, s: Sys, i: nat, j: nat)
    requires Reachable(def, s) && i < |s.loops| && j < |s.loops|
    requires HasChild(s.loops[i]) && HasChild(s.loops[j])
    ensures i == j == |s.loops| - 1 && Busy(s.p.state)
  {
    ReachableInv(def, s);
    assert LoopOk(def, s.loops[i]) && LoopOk(def, s.loops[j]);
  }

  /** Whatever a superseded loop still does, also in the window after it published Failed and
      a newer generation began, it touches no field and launches nothing. */
  lemma SupersededLoopIsInert(def: Def, s: Sys, g: nat, a: LoopAct)
    requires Reachable(def, s) && 1 <= g < |s.loops| && Next(def, s, LoopActs(g, a)).Some?
    ensures var t := Next(def, s, LoopActs(g, a)).value;
            && t.p == s.p && Past(t.loops[g - 1].pc)
            && t.loops[g - 1].attempts == s.loops[g - 1].attempts && t.loops[g - 1].child == NoChild
  {
    OlderLoop(def, s, g - 1);
    PastLoopStep(def, s.p, s.loops[g - 1], g, a);
  }

  lemma OlderLoop(def: Def, s: Sys, i: nat)
    requires Reachable(def, s) && i < |s.loops| - 1
    ensures LoopOk(def, s.loops[i]) && Past(s.loops[i].pc) && s.p.generation == |s.loops|
  {
    ReachableInv(def, s);
  }

  /** What a caller sees at rest: stopped or disabled as the definition says, no pid, nothing to
      cancel, wait for or wake, and no loop that could still launch. */
  lemma RestingState(def: Def, s: Sys)
    requires Reachable(def, s) && (s.p.state == Stopped || s.p.state == Disabled)
    ensures s.p.state == if def.enabled then Stopped else Disabled
    ensures s.p.pid == 0 && s.p.cancel == None && s.p.done == None && s.p.wake == None
    ensures forall i :: 0 <= i < |s.loops| ==> Past(s.loops[i].pc)
  {
    ReachableInv(def, s);
  }

  // ----- Backoff and restart limits -----

  /** At the head of the loop the backoff is min(60s, 2s * 2^restarts), for heartbeats too, and
      the wait after failure number k lasts min(60s, 2^k s). */
  lemma BackoffSchedule(def: Def, s: Sys)
    requires Reachable(def, s) && s.loops != []
    ensures var l := s.loops[|s.loops| - 1];
            && (l.pc.Head? ==> l.backoff == Min(MAX_BACKOFF, INITIAL_BACKOFF * Pow2(s.p.restarts)))
            && (InWait(l.pc) && l.grow ==> s.p.restarts > 0 && l.delay == Min(MAX_BACKOFF, Pow2(s.p.restarts)))
  {
    ReachableInv(def, s);
    var l := s.loops[|s.loops| - 1];
    if InWait(l.pc) && l.grow {
      assert Pow2(s.p.restarts) == 2 * Pow2(s.p.restarts - 1);
    }
  }

  /** With a positive limit the counter never passes it, Failed means it was met, and a
      persistent angl without a healthy run makes at most that many launch attempts per
      start, its loop being over once the last of them is counted. */
  lemma RestartLimit(def: Def, s: Sys)
    requires Reachable(def, s) && def.maxRestarts > 0
    ensures s.p.restarts <= def.maxRestarts
    ensures s.p.state == Failed ==> s.p.restarts == def.maxRestarts
    ensures def.interval.None? ==> forall i :: 0 <= i < |s.loops| && !s.loops[i].healthy ==>
              && s.loops[i].attempts <= def.maxRestarts
              && (s.loops[i].attempts == def.maxRestarts && Uncounted(s.loops[i].pc) == 0 ==> Past(s.loops[i].pc))
  {
    ReachableInv(def, s);
    forall i | 0 <= i < |s.loops|
      ensures LoopOk(def, s.loops[i]) && (i < |s.loops| - 1 ==> Past(s.loops[i].pc))
    {
    }
  }

  /** Only a positive limit lets an angl fail. */
  lemma FailedNeedsLimit(def: Def, s: Sys)
    requires Reachable(def, s) && s.p.state == Failed
    ensures def.maxRestarts > 0
  {
    ReachableInv(def, s);
  }

  // ----- Cancellation -----

  /** How far a cancelled loop is from being closed. */
  function Rank(l: Loop): nat {
    (match l.pc
     case Clearing(completed) => if completed then 28 else 8
     case Head => 26
     case Launching => 24
     case Started => 22
     case StartFailed => 18
     case Selecting => 20
     case Exited => 18
     case AfterExit => 16
     case Counting => 14
     case Waiting => 12
     case Selected(_) => 10
     case Killing => 10
     case Returning => 4
     case Closing => 2
     case Closed => 0)
    + if l.child == Alive then 1 else 0
  }

  const MAX_RANK: nat := 28

  lemma CancelledStep(def: Def, p: Proc, l: Loop, g: nat, a: LoopAct)
    requires LoopOk(def, l) && l.cancelled && LoopStep(def, p, l, g, a).Some?
    ensures var m := LoopStep(def, p, l, g, a).value.1;
            && m.cancelled && Rank(m) < Rank(l)
            && m.attempts - l.attempts == m.late - l.late >= 0
  {
  }

  function StepsOf(schedule: seq<Action>, g: nat): nat {
    if schedule == [] then 0
    else OwnStep(schedule[0], g) + StepsOf(schedule[1..], g)
  }

  lemma OtherActionsLeaveLoop(def: Def, s: Sys, g: nat, a: Action)
    requires 1 <= g <= |s.loops| && s.loops[g - 1].cancelled && Next(def, s, a).Some?
    requires !(a.LoopActs? && a.g == g)
    ensures var t := Next(def, s, a).value; g <= |t.loops| && t.loops[g - 1] == s.loops[g - 1]
  {
  }

  function OwnStep(a: Action, g: nat): nat { if a.LoopActs? && a.g == g then 1 else 0 }

  lemma CancelledNext(def: Def, s: Sys, g: nat, a: Action)
    requires 1 <= g <= |s.loops| && LoopOk(def, s.loops[g - 1]) && s.loops[g - 1].cancelled
    requires Next(def, s, a).Some?
    ensures var t := Next(def, s, a).value;
            && g <= |t.loops| && t.loops[g - 1].cancelled
            && OwnStep(a, g) + Rank(t.loops[g - 1]) <= Rank(s.loops[g - 1])
            && t.loops[g - 1].attempts - s.loops[g - 1].attempts == t.loops[g - 1].late - s.loops[g - 1].late
  {
    if a.LoopActs? && a.g == g {
      CancelledStep(def, s.p, s.loops[g - 1], g, a.act);
    } else {
      OtherActionsLeaveLoop(def, s, g, a);
    }
  }

  lemma InvGivesLoopOk(def: Def, s: Sys, i: nat)
    requires Inv(def, s) && i < |s.loops|
    ensures LoopOk(def, s.loops[i])
  {
  }

  lemma {:induction false} CancelledRun(def: Def, s: Sys, g: nat, schedule: seq<Action>)
    requires Inv(def, s) && 1 <= g <= |s.loops| && s.loops[g - 1].cancelled
    requires Run(def, s, schedule).Some?
    ensures var t := Run(def, s, schedule).value;
            && g <= |t.loops| && t.loops[g - 1].cancelled
            && StepsOf(schedule, g) + Rank(t.loops[g - 1]) <= Rank(s.loops[g - 1])
            && t.loops[g - 1].attempts - s.loops[g - 1].attempts == t.loops[g - 1].late - s.loops[g - 1].late
    decreases |schedule|
  {
    if schedule != [] {
      InvGivesLoopOk(def, s, g - 1);
      CancelledNext(def, s, g, schedule[0]);
      NextKeepsInv(def, s, schedule[0]);
      CancelledRun(def, Next(def, s, schedule[0]).value, g, schedule[1..]);
    }
  }

  /** Once its context is cancelled a loop makes at most one more launch attempt, and takes at
      most MAX_RANK further steps, whatever the races between timer, wake, exit and cancel. */
  lemma CancelledLoopEnds(def: Def, s: Sys, g: nat, schedule: seq<Action>)
    requires Reachable(def, s) && 1 <= g <= |s.loops| && s.loops[g - 1].cancelled
    requires Run(def, s, schedule).Some?
    ensures var t := Run(def, s, schedule).value;
            && StepsOf(schedule, g) <= MAX_RANK
            && g <= |t.loops| && t.loops[g - 1].attempts <= s.loops[g - 1].attempts + 1
            && (StepsOf(schedule, g) == MAX_RANK ==> t.loops[g - 1].pc.Closed?)
  {
    ReachableInv(def, s);
    CancelledRun(def, s, g, schedule);
    RunKeepsInv(def, s, schedule);
    InvGivesLoopOk(def, s, g - 1);
    InvGivesLoopOk(def, Run(def, s, schedule).value, g - 1);
  }

  lemma RunFour(def: Def, a: Action, b: Action, c: Action, d: Action, s1: Sys, s2: Sys, s3: Sys, s4: Sys)
    requires Next(def, Init(def), a) == Some(s1) && Next(def, s1, b) == Some(s2)
    requires Next(def, s2, c) == Some(s3) && Next(def, s3, d) == Some(s4)
    ensures Run(def, Init(def), [a, b, c, d]) == Some(s4)
  {
    assert [a, b, c, d][1..] == [b, c, d] && [b, c, d][1..] == [c, d] && [c, d][1..] == [d];
    assert Run(def, s3, [d]) == Some(s4);
    assert Run(def, s2, [c, d]) == Some(s4);
    assert Run(def, s1, [b, c, d]) == Some(s4);
  }

  /** One launch after cancellation does happen: the context is not looked at between the head of
      the loop and the launch. */
  lemma LaunchAfterCancel(def: Def) returns (s: Sys)
    ensures Reachable(def, s) && |s.loops| == 1
    ensures s.loops[0].cancelled && s.loops[0].late == 1 && HasChild(s.loops[0])
  {
    var s1 := Next(def, Init(def), CallStart).value;
    var s2 := Next(def, s1, LoopActs(1, Enter)).value;
    var s3 := Next(def, s2, ParentCancels(1)).value;
    s := Next(def, s3, LoopActs(1, LaunchOk)).value;
    RunFour(def, CallStart, LoopActs(1, Enter), ParentCancels(1), LoopActs(1, LaunchOk), s1, s2, s3, s);
  }

  /** Where a loop still launches although its context is cancelled: it has left the last wait
      that looked at the context, and not launched since. */
  predicate BeforeLaunch(pc: Pc) { pc.Head? || pc.Launching? || pc == Clearing(true) }

  lemma CancelledStaysLaunched(def: Def, p: Proc, l: Loop, g: nat, a: LoopAct)
    requires l.cancelled && !BeforeLaunch(l.pc) && LoopStep(def, p, l, g, a).Some?
    ensures var m := LoopStep(def, p, l, g, a).value.1;
            m.cancelled && !BeforeLaunch(m.pc) && m.attempts == l.attempts
  {
  }

  lemma {:induction false} CancelledNeverLaunches(def: Def, s: Sys, g: nat, schedule: seq<Action>)
    requires 1 <= g <= |s.loops| && s.loops[g - 1].cancelled && !BeforeLaunch(s.loops[g - 1].pc)
    requires Run(def, s, schedule).Some?
    ensures var t := Run(def, s, schedule).value; g <= |t.loops| && t.loops[g - 1].attempts == s.loops[g - 1].attempts
    decreases |schedule|
  {
    if schedule != [] {
      var a := schedule[0];
      if a.LoopActs? && a.g == g {
        CancelledStaysLaunched(def, s.p, s.loops[g - 1], g, a.act);
      } else {
        OtherActionsLeaveLoop(def, s, g, a);
      }
      CancelledNeverLaunches(def, Next(def, s, a).value, g, schedule[1..]);
    }
  }

  /** One way to the next launch attempt. */
  function ToLaunch(pc: Pc, g: nat): seq<Action> {
    if pc.Launching? then [LoopActs(g, LaunchFails)]
    else if pc.Head? then [LoopActs(g, Enter), LoopActs(g, LaunchFails)]
    else [LoopActs(g, EndWait), LoopActs(g, Enter), LoopActs(g, LaunchFails)]
  }

  lemma {:induction false} LaunchReached(def: Def, s: Sys, g: nat)
    requires 1 <= g <= |s.loops| && BeforeLaunch(s.loops[g - 1].pc)
    ensures var t := Run(def, s, ToLaunch(s.loops[g - 1].pc, g));
            t.Some? && g <= |t.value.loops| && t.value.loops[g - 1].attempts == s.loops[g - 1].attempts + 1
    decreases if s.loops[g - 1].pc.Launching? then 0 else if s.loops[g - 1].pc.Head? then 1 else 2
  {
    var schedule := ToLaunch(s.loops[g - 1].pc, g);
    var t := Next(def, s, schedule[0]).value;
    if s.loops[g - 1].pc.Launching? {
      assert schedule[1..] == [];
    } else {
      assert schedule[1..] == ToLaunch(t.loops[g - 1].pc, g);
      LaunchReached(def, t, g);
    }
  }

  /** In some continuation the loop of generation g attempts another launch. */
  ghost predicate MayLaunch(def: Def, s: Sys, g: nat)
    requires 1 <= g <= |s.loops|
  {
    exists schedule :: LaunchesIn(def, s, g, schedule)
  }

  ghost predicate LaunchesIn(def: Def, s: Sys, g: nat, schedule: seq<Action>)
    requires 1 <= g <= |s.loops|
  {
    var t := Run(def, s, schedule);
    t.Some? && g <= |t.value.loops| && t.value.loops[g - 1].attempts > s.loops[g - 1].attempts
  }

  /** A loop whose context is cancelled launches again in some continuation exactly if it is past
      the last look at the context and before the launch that follows it. */
  lemma LaunchAfterCancelExactly(def: Def, s: Sys, g: nat)
    requires 1 <= g <= |s.loops| && s.loops[g - 1].cancelled
    ensures MayLaunch(def, s, g) <==> BeforeLaunch(s.loops[g - 1].pc)
  {
    if BeforeLaunch(s.loops[g - 1].pc) {
      LaunchReached(def, s, g);
      assert LaunchesIn(def, s, g, ToLaunch(s.loops[g - 1].pc, g));
    } else if schedule :| LaunchesIn(def, s, g, schedule) {
      CancelledNeverLaunches(def, s, g, schedule);
    }
  }

  /** A cancelled loop that is not closed can always move, at worst by its child exiting. */
  lemma CancelledLoopCanMove(def: Def, p: Proc, l: Loop, g: nat) returns (a: LoopAct)
    requires LoopOk(def, l) && l.cancelled && !l.pc.Closed?
    ensures LoopStep(def, p, l, g, a).Some?
  {
    match l.pc
    case Head => a := Enter;
    case Launching => a := LaunchFails;
    case StartFailed => a := CountLaunchFailure;
    case Started => a := MarkRunning(1);
    case Selecting => a := SelectCancel;
    case Exited => a := ClearPid;
    case AfterExit => a := if def.interval.Some? then BeginInterval else CheckHealth(0);
    case Counting => a := CountExit;
    case Waiting => a := WaitCancelled;
    case Selected(_) => a := ReadCtxErr;
    case Clearing(_) => a := EndWait;
    case Killing => a := if l.child == Alive then ChildExits else Reap;
    case Returning => a := RunDeferred;
    case Closing => a := CloseDone;
  }

  lemma PastIsForever(def: Def, s: Sys, i: nat, a: Action)
    requires Inv(def, s) && i < |s.loops| && Past(s.loops[i].pc) && Next(def, s, a).Some?
    ensures var t := Next(def, s, a).value;
            i < |t.loops| && Past(t.loops[i].pc) && t.loops[i].attempts == s.loops[i].attempts
  {
    assert LoopOk(def, s.loops[i]);
    if a.LoopActs? && a.g == i + 1 {
      PastLoopStep(def, s.p, s.loops[i], a.g, a.act);
    }
  }

  lemma {:induction false} PastForAllRuns(def: Def, s: Sys, i: nat, schedule: seq<Action>)
    requires Inv(def, s) && i < |s.loops| && Past(s.loops[i].pc) && Run(def, s, schedule).Some?
    ensures var t := Run(def, s, schedule).value;
            && i < |t.loops| && Past(t.loops[i].pc)
            && t.loops[i].attempts == s.loops[i].attempts && t.loops[i].child == NoChild
    decreases |schedule|
  {
    assert LoopOk(def, s.loops[i]);
    if schedule != [] {
      PastIsForever(def, s, i, schedule[0]);
      NextKeepsInv(def, s, schedule[0]);
      PastForAllRuns(def, Next(def, s, schedule[0]).value, i, schedule[1..]);
    }
  }

  /** When Stop or StopRunning returns, no generation that existed when it took the lock has a
      child or will ever launch one again, whichever done channel, if any, it waited for. */
  lemma StopIsFinal(def: Def, s: Sys, caller: nat, i: nat, schedule: seq<Action>)
    requires Reachable(def, s) && caller in s.callers && s.callers[caller].Returned?
    requires i < s.callers[caller].upTo && Run(def, s, schedule).Some?
    ensures var t := Run(def, s, schedule).value;
            && i < |s.loops| <= |t.loops|
            && s.loops[i].child == NoChild && t.loops[i].child == NoChild
            && t.loops[i].attempts == s.loops[i].attempts
  {
    ReachableInv(def, s);
    assert CallerOk(s.callers[caller], s.loops);
    assert LoopOk(def, s.loops[i]);
    PastForAllRuns(def, s, i, schedule);
    RunKeepsLoops(def, s, schedule);
  }

  lemma {:induction false} RunKeepsLoops(def: Def, s: Sys, schedule: seq<Action>)
    requires Run(def, s, schedule).Some?
    ensures |s.loops| <= |Run(def, s, schedule).value.loops|
    decreases |schedule|
  {
    if schedule != [] {
      RunKeepsLoops(def, Next(def, s, schedule[0]).value, schedule[1..]);
    }
  }

  // ----- Channels -----

  /** A non-nil wake is the open channel of the wait in progress; every wake channel is closed
      at most once; each done channel is closed once, by the loop that owns it, at its end. */
  lemma ChannelDiscipline(def: Def, s: Sys)
    requires Reachable(def, s)
    ensures forall w :: 0 <= w < |s.p.closes| ==> s.p.closes[w] <= 1
    ensures forall i :: 0 <= i < |s.loops| ==> s.loops[i].doneCloses == if s.loops[i].pc.Closed? then 1 else 0
    ensures s.p.wake.Some? ==>
              && s.p.state == Backoff && s.loops != [] && InWait(s.loops[|s.loops| - 1].pc)
              && s.p.wake.value == s.loops[|s.loops| - 1].wake < |s.p.closes|
              && s.p.closes[s.p.wake.value] == 0
  {
    ReachableInv(def, s);
    forall i | 0 <= i < |s.loops|
      ensures LoopOk(def, s.loops[i])
    {
    }
  }

  /** Exec reports success exactly when it started a generation or closed the channel of the
      wait in progress, and it closes no other. */
  lemma ExecOutcome(def: Def, s: Sys)
    requires Reachable(def, s)
    ensures var (q, r) := ExecCall(s.p);
            && (r == AlreadyRunning <==> s.p.state == Running || s.p.state == Starting)
            && (r == ChangingState <==> s.p.state == Backoff && s.p.wake == None)
            && (r == ExecOk && s.p.state == Backoff ==>
                  && s.loops != [] && InWait(s.loops[|s.loops| - 1].pc)
                  && s.loops[|s.loops| - 1].wake < |s.p.closes|
                  && q == s.p.(wake := None, closes := s.p.closes[s.loops[|s.loops| - 1].wake := 1]))
            && (r == ExecOk && s.p.state != Backoff ==> q == StartLocked(s.p))
  {
    ReachableInv(def, s);
  }

  /** Every wait begins on a channel no earlier wait had, and it begins open. */
  lemma WaitsAreFresh(def: Def, p: Proc, l: Loop, g: nat, a: LoopAct)
    requires LoopStep(def, p, l, g, a).Some?
    ensures var (q, m) := LoopStep(def, p, l, g, a).value;
            m.pc.Waiting? && !l.pc.Waiting? ==>
              m.wake == |p.closes| && q.closes == p.closes + [0] && q.wake == Some(m.wake)
  {
  }

  /** A forced exec cannot leak into a later wait: a channel made after `s` stays open through
      every run from `s` on in which no further exec happens. */
  lemma {:induction false} ForcedExecDoesNotLeak(def: Def, s: Sys, n: nat, schedule: seq<Action>)
    requires n <= |s.p.closes| && forall w :: n <= w < |s.p.closes| ==> s.p.closes[w] == 0
    requires Run(def, s, schedule).Some? && CallExec !in schedule
    ensures var t := Run(def, s, schedule).value;
            && n <= |t.p.closes| && (forall w :: n <= w < |t.p.closes| ==> t.p.closes[w] == 0)
            && forall i :: 0 <= i < |t.loops| && t.loops[i].wake >= n ==>
                 LoopStep(def, t.p, t.loops[i], i + 1, WakeFires).None?
    decreases |schedule|
  {
    if schedule != [] {
      assert CallExec !in schedule[1..];
      assert schedule[0] in schedule;
      ForcedExecDoesNotLeak(def, Next(def, s, schedule[0]).value, n, schedule[1..]);
    }
  }
}
