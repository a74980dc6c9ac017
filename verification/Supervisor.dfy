/** The supervisor of one angl (daemon/process.go): the fields guarded by the mutex,
    the run loops as program counters, and every interleaving of callers, loops,
    children, timers and cancellations. */
module Supervisor {
  import opened Numbers
  import opened Options

  const INITIAL_BACKOFF: nat := 2
  const MAX_BACKOFF: nat := 60
  const BACKOFF_FACTOR: nat := 2
  const HEALTHY_THRESHOLD: nat := 120

  datatype State = Disabled | Stopped | Starting | Running | Backoff | Failed

  /** The part of an angl's definition the supervisor reads; `interval` makes it a heartbeat. */
  datatype Def = Def(enabled: bool, maxRestarts: int, interval: Option<nat>)

  function NextBackoff(current: nat): nat {
    var next := current * BACKOFF_FACTOR;
    if next > MAX_BACKOFF then MAX_BACKOFF else next
  }

  // ----- The lock-protected fields -----

  /** `cancel` and `done` are named by the generation they belong to. A wake channel is an
      index into `closes`, which counts how often each channel was closed. */
  datatype Proc = Proc(
    state: State, pid: nat, restarts: nat, generation: nat,
    cancel: Option<nat>, done: Option<nat>,
    wake: Option<nat>, closes: seq<nat>)

  function NewProc(def: Def): Proc {
    Proc(if def.enabled then Stopped else Disabled, 0, 0, 0, None, None, None, [])
  }

  function StartLocked(p: Proc): Proc {
    var g := p.generation + 1;
    p.(restarts := 0, state := Starting, cancel := Some(g), done := Some(g), generation := g)
  }

  predicate Busy(s: State) { s == Running || s == Starting || s == Backoff }

  function StartCall(p: Proc): Proc {
    if Busy(p.state) then p else StartLocked(p)
  }

  datatype ExecResult = ExecOk | AlreadyRunning | ChangingState

  function ExecCall(p: Proc): (Proc, ExecResult) {
    match p.state
    case Running => (p, AlreadyRunning)
    case Starting => (p, AlreadyRunning)
    case Backoff =>
      if p.wake.None? || p.wake.value >= |p.closes| then (p, ChangingState)
      else
        var w := p.wake.value;
        (p.(wake := None, closes := p.closes[w := p.closes[w] + 1]), ExecOk)
    case _ => (StartLocked(p), ExecOk)
  }

  function BeginBackoff(p: Proc): (Proc, nat) {
    var w := |p.closes|;
    (p.(state := Backoff, wake := Some(w), closes := p.closes + [0]), w)
  }

  /** The failure accounting shared by a failed launch and a persistent exit: either the
      angl gives up, or a new wait begins on the returned channel. */
  function CountFailure(def: Def, p: Proc): (Proc, Option<nat>) {
    var q := p.(restarts := p.restarts + 1);
    if def.maxRestarts > 0 && q.restarts >= def.maxRestarts then (q.(state := Failed), None)
    else
      var (r, w) := BeginBackoff(q);
      (r, Some(w))
  }

  function ClearWake(p: Proc, w: nat): Proc {
    if p.wake == Some(w) then p.(wake := None) else p
  }

  function Cleanup(def: Def, p: Proc, g: nat): Proc {
    if p.generation != g then p
    else
      p.(state := if p.state == Failed then Failed else if def.enabled then Stopped else Disabled,
         pid := 0, done := None, cancel := None, wake := None)
  }

  /** The mutable object: each critical section of the source is one method, proved equal to
      the function above that the interleaving model uses. */
  class Process {
    const def: Def
    var state: State
    var pid: nat
    var restarts: nat
    var generation: nat
    var cancel: Option<nat>
    var done: Option<nat>
    var wake: Option<nat>
    var closes: seq<nat>

    function View(): Proc
      reads this
    {
      Proc(state, pid, restarts, generation, cancel, done, wake, closes)
    }

    predicate Valid()
      reads this
    {
      wake.Some? ==> wake.value < |closes|
    }

    constructor (def: Def)
      ensures this.def == def && Valid() && View() == NewProc(def)
    {
      this.def := def;
      state := if def.enabled then Stopped else Disabled;
      pid, restarts, generation := 0, 0, 0;
      cancel, done, wake := None, None, None;
      closes := [];
    }

    method Start()
      requires Valid()
      modifies this
      ensures Valid() && View() == StartCall(old(View()))
    {
      if state == Running || state == Starting || state == Backoff {
        return;
      }
      StartAngl();
    }

    method Exec() returns (result: ExecResult)
      requires Valid()
      modifies this
      ensures Valid() && (View(), result) == ExecCall(old(View()))
    {
      match state {
        case Running => result := AlreadyRunning;
        case Starting => result := AlreadyRunning;
        case Backoff =>
          if wake == None {
            result := ChangingState;
          } else {
            closes := closes[wake.value := closes[wake.value] + 1];
            wake := None;
            result := ExecOk;
          }
        case _ =>
          StartAngl();
          result := ExecOk;
      }
    }

    method StartAngl()
      requires Valid()
      modifies this
      ensures Valid() && View() == StartLocked(old(View()))
    {
      restarts := 0;
      state := Starting;
      generation := generation + 1;
      cancel, done := Some(generation), Some(generation);
    }

    method BeginBackoffLocked() returns (w: nat)
      requires Valid()
      modifies this
      ensures Valid() && (View(), w) == BeginBackoff(old(View()))
    {
      w := |closes|;
      closes := closes + [0];
      state := Backoff;
      wake := Some(w);
    }

    method RecordFailure() returns (w: Option<nat>)
      requires Valid()
      modifies this
      ensures Valid() && (View(), w) == CountFailure(def, old(View()))
    {
      restarts := restarts + 1;
      if def.maxRestarts > 0 && restarts >= def.maxRestarts {
        state := Failed;
        w := None;
      } else {
        var channel := BeginBackoffLocked();
        w := Some(channel);
      }
    }

    method EndWait(w: nat)
      requires Valid()
      modifies this
      ensures Valid() && View() == ClearWake(old(View()), w)
    {
      if wake == Some(w) {
        wake := None;
      }
    }

    method Deferred(g: nat)
      requires Valid()
      modifies this
      ensures Valid() && View() == Cleanup(def, old(View()), g)
    {
      if generation == g {
        if state != Failed {
          state := if def.enabled then Stopped else Disabled;
        }
        pid := 0;
        done, cancel, wake := None, None, None;
      }
    }
  }

  // ----- One run loop -----

  /** Where a run loop is between two critical sections. */
  datatype Pc =
    | Head          // top of the for loop
    | Launching     // state set to starting, cmd.Start not yet decided
    | StartFailed   // cmd.Start returned an error
    | Started       // cmd.Start succeeded, state not yet running
    | Selecting     // select on exitCh and ctx.Done
    | Exited        // the exit was received
    | AfterExit     // pid cleared
    | Counting      // persistent angl, healthy check done
    | Waiting       // select in wait
    | Selected(fired: bool)   // the select in wait resolved
    | Clearing(completed: bool) // ctx.Err was read
    | Killing       // ctx.Done was selected; the child is being reaped
    | Returning     // return executed, deferred section pending
    | Closing       // deferred section done, close(done) pending
    | Closed

  datatype Child = NoChild | Alive | Dead  // Dead: exited, not yet received

  /** Locals of one runLoop call. `attempts`, `late`, `healthy` and `doneCloses` only record
      history: launch attempts, attempts made after cancellation, whether some run was
      healthy, and how often this generation's done channel was closed. */
  datatype Loop = Loop(
    pc: Pc, backoff: nat, cancelled: bool, child: Child,
    delay: nat, wake: nat, grow: bool,
    attempts: nat, late: nat, healthy: bool, doneCloses: nat)

  const NEW_LOOP := Loop(Head, INITIAL_BACKOFF, false, NoChild, 0, 0, false, 0, 0, false, 0)

  datatype LoopAct =
    | Enter | LaunchFails | LaunchOk | MarkRunning(pid: nat) | ChildExits
    | TakeExit | SelectCancel | Reap | ClearPid
    | BeginInterval | CheckHealth(elapsed: nat) | CountExit | CountLaunchFailure
    | TimerFires | WakeFires | WaitCancelled | ReadCtxErr | EndWait
    | RunDeferred | CloseDone

  predicate InWait(pc: Pc) { pc.Waiting? || pc.Selected? || pc.Clearing? }

  predicate Past(pc: Pc) { pc.Returning? || pc.Closing? || pc.Closed? }

  predicate HasChild(l: Loop) { l.child == Alive }

  function Attempt(l: Loop, pc: Pc, child: Child): Loop {
    l.(pc := pc, child := child, attempts := l.attempts + 1,
       late := if l.cancelled then l.late + 1 else l.late)
  }

  function AfterFailure(def: Def, p: Proc, l: Loop): (Proc, Loop) {
    var (q, w) := CountFailure(def, p);
    if w.None? then (q, l.(pc := Returning))
    else (q, l.(pc := Waiting, delay := l.backoff, wake := w.value, grow := true))
  }

  /** One step of the loop of generation `g`; None when the step is not enabled. */
  function LoopStep(def: Def, p: Proc, l: Loop, g: nat, a: LoopAct): Option<(Proc, Loop)> {
    match a
    case Enter =>
      if l.pc.Head? then Some((p.(state := Starting), l.(pc := Launching))) else None
    case LaunchFails =>
      if l.pc.Launching? then Some((p, Attempt(l, StartFailed, NoChild))) else None
    case LaunchOk =>
      if l.pc.Launching? then Some((p, Attempt(l, Started, Alive))) else None
    case MarkRunning(pid) =>
      if l.pc.Started? then Some((p.(state := Running, pid := pid), l.(pc := Selecting))) else None
    case ChildExits =>
      if l.child == Alive then Some((p, l.(child := Dead))) else None
    case TakeExit =>
      if l.pc.Selecting? && l.child == Dead then Some((p, l.(pc := Exited, child := NoChild))) else None
    case SelectCancel =>
      if l.pc.Selecting? && l.cancelled then Some((p, l.(pc := Killing))) else None
    case Reap =>
      if l.pc.Killing? && l.child == Dead then Some((p, l.(pc := Returning, child := NoChild))) else None
    case ClearPid =>
      if l.pc.Exited? then Some((p.(pid := 0), l.(pc := AfterExit))) else None
    case BeginInterval =>
      if l.pc.AfterExit? && def.interval.Some? then
        var (q, w) := BeginBackoff(p);
        Some((q, l.(pc := Waiting, delay := def.interval.value, wake := w, grow := false)))
      else None
    case CheckHealth(elapsed) =>
      if l.pc.AfterExit? && def.interval.None? then
        if elapsed > HEALTHY_THRESHOLD then
          Some((p.(restarts := 0), l.(pc := Counting, backoff := INITIAL_BACKOFF, healthy := true)))
        else Some((p, l.(pc := Counting)))
      else None
    case CountExit =>
      if l.pc.Counting? then Some(AfterFailure(def, p, l)) else None
    case CountLaunchFailure =>
      if l.pc.StartFailed? then Some(AfterFailure(def, p, l)) else None
    case TimerFires =>
      if l.pc.Waiting? then Some((p, l.(pc := Selected(true)))) else None
    case WakeFires =>
      if l.pc.Waiting? && l.wake < |p.closes| && p.closes[l.wake] > 0
      then Some((p, l.(pc := Selected(true)))) else None
    case WaitCancelled =>
      if l.pc.Waiting? && l.cancelled then Some((p, l.(pc := Selected(false)))) else None
    case ReadCtxErr =>
      if l.pc.Selected? then Some((p, l.(pc := Clearing(l.pc.fired && !l.cancelled)))) else None
    case EndWait =>
      if l.pc.Clearing? then
        var next := if l.grow then NextBackoff(l.backoff) else l.backoff;
        Some((ClearWake(p, l.wake),
              if l.pc.completed then l.(pc := Head, backoff := next) else l.(pc := Returning)))
      else None
    case RunDeferred =>
      if l.pc.Returning? then Some((Cleanup(def, p, g), l.(pc := Closing))) else None
    case CloseDone =>
      if l.pc.Closing? then Some((p, l.(pc := Closed, doneCloses := l.doneCloses + 1))) else None
  }

  // ----- The whole system -----

  /** A Stop or StopRunning call after its critical section: what it captured, and how many
      generations existed at that moment. */
  datatype Caller =
    | Captured(cancel: Option<nat>, done: Option<nat>, upTo: nat)
    | Waits(done: Option<nat>, upTo: nat)
    | Returned(upTo: nat)

  /** `loops[g - 1]` is the run loop of generation g. */
  datatype Sys = Sys(p: Proc, loops: seq<Loop>, callers: map<nat, Caller>)

  datatype Action =
    | CallStart
    | CallExec
    | CallStop(caller: nat)
    | CallStopRunning(caller: nat)
    | CallCancel(caller: nat)
    | CallReturn(caller: nat)
    | ParentCancels(g: nat)
    | LoopActs(g: nat, act: LoopAct)

  function Spawn(s: Sys, q: Proc): Sys {
    if q.generation > s.p.generation then s.(p := q, loops := s.loops + [NEW_LOOP]) else s.(p := q)
  }

  function CancelLoop(s: Sys, g: nat): Sys {
    if 1 <= g <= |s.loops| then s.(loops := s.loops[g - 1 := s.loops[g - 1].(cancelled := true)]) else s
  }

  function Next(def: Def, s: Sys, a: Action): Option<Sys> {
    match a
    case CallStart => Some(Spawn(s, StartCall(s.p)))
    case CallExec => Some(Spawn(s, ExecCall(s.p).0))
    case CallStop(c) =>
      if c in s.callers then None
      else Some(s.(callers := s.callers[c := Captured(s.p.cancel, s.p.done, |s.loops|)]))
    case CallStopRunning(c) =>
      if c in s.callers || s.p.state != Running then None
      else Some(s.(callers := s.callers[c := Captured(s.p.cancel, s.p.done, |s.loops|)]))
    case CallCancel(c) =>
      if c in s.callers && s.callers[c].Captured? then
        var k := s.callers[c];
        var t := if k.cancel.Some? then CancelLoop(s, k.cancel.value) else s;
        Some(t.(callers := s.callers[c := Waits(k.done, k.upTo)]))
      else None
    case CallReturn(c) =>
      if c in s.callers && s.callers[c].Waits? then
        var k := s.callers[c];
        if k.done.Some? && !(1 <= k.done.value <= |s.loops| && s.loops[k.done.value - 1].pc.Closed?) then None
        else Some(s.(callers := s.callers[c := Returned(k.upTo)]))
      else None
    case ParentCancels(g) => Some(CancelLoop(s, g))
    case LoopActs(g, act) =>
      if 1 <= g <= |s.loops| then
        var r := LoopStep(def, s.p, s.loops[g - 1], g, act);
        if r.None? then None
        else Some(s.(p := r.value.0, loops := s.loops[g - 1 := r.value.1]))
      else None
  }

  function Init(def: Def): Sys { Sys(NewProc(def), [], map[]) }

  /** The state after a schedule, None if some step of it was not enabled. */
  function Run(def: Def, s: Sys, schedule: seq<Action>): Option<Sys>
    decreases |schedule|
  {
    if schedule == [] then Some(s)
    else
      var t := Next(def, s, schedule[0]);
      if t.None? then None else Run(def, t.value, schedule[1..])
  }

  ghost predicate Reachable(def: Def, s: Sys) {
    exists schedule :: Run(def, Init(def), schedule) == Some(s)
  }

  // ----- The invariant -----

  function Pow2(n: nat): nat { if n == 0 then 1 else 2 * Pow2(n - 1) }

  /** The backoff a loop holds at failure count `restarts`. */
  function Coupled(restarts: nat): nat { Min(MAX_BACKOFF, INITIAL_BACKOFF * Pow2(restarts)) }

  lemma NextBackoffCouples(restarts: nat)
    ensures NextBackoff(Coupled(restarts)) == Coupled(restarts + 1)
  {
    assert Pow2(restarts + 1) == 2 * Pow2(restarts);
  }

  /** An attempt that has not been counted as a failure yet. */
  function Uncounted(pc: Pc): nat {
    match pc
    case StartFailed | Started | Selecting | Exited | AfterExit | Counting | Killing => 1
    case _ => 0
  }

  predicate StateMatches(pc: Pc, s: State) {
    match pc
    case Head => s == Starting || s == Backoff
    case Launching | StartFailed | Started => s == Starting
    case Selecting | Exited | AfterExit | Counting | Killing => s == Running
    case Waiting | Selected(_) | Clearing(_) => s == Backoff
    case Returning => s == Running || s == Backoff || s == Failed
    case Closing | Closed => s == Stopped || s == Disabled || s == Failed
  }

  /** What holds of every run loop by itself. */
  predicate LoopOk(def: Def, l: Loop) {
    && (l.child != NoChild ==> l.pc.Started? || l.pc.Selecting? || l.pc.Killing?)
    && (l.pc.Started? || l.pc.Selecting? || l.pc.Killing? ==> l.child != NoChild)
    && l.doneCloses == (if l.pc.Closed? then 1 else 0)
    && l.late <= 1
    && (l.late == 1 ==> l.cancelled && !l.pc.Head? && !l.pc.Launching? && l.pc != Clearing(true))
    && (l.pc == Selected(false) || l.pc == Clearing(false) || l.pc.Killing? ==> l.cancelled)
    && (def.maxRestarts > 0 && def.interval.None? && !l.healthy ==> l.attempts <= def.maxRestarts)
  }

  /** Between marking a child running and clearing it, or dying with it. */
  predicate ShowsPid(pc: Pc, s: State) {
    pc.Selecting? || pc.Exited? || pc.Killing? || (pc.Returning? && s == Running)
  }

  /** What ties the guarded fields to the loop of the current generation. */
  predicate Tied(def: Def, p: Proc, l: Loop) {
    && StateMatches(l.pc, p.state)
    && (p.pid != 0 ==> ShowsPid(l.pc, p.state))
    && (if l.pc.Closing? || l.pc.Closed? then p.done == None && p.cancel == None
        else p.done == Some(p.generation) && p.cancel == Some(p.generation))
    && (p.wake.Some? ==> InWait(l.pc) && p.wake == Some(l.wake) && l.wake < |p.closes| && p.closes[l.wake] == 0)
    && (InWait(l.pc) ==> l.wake < |p.closes| && (p.closes[l.wake] == 0 ==> p.wake == Some(l.wake)))
    && (!Past(l.pc) ==>
          && (def.maxRestarts > 0 ==> p.restarts < def.maxRestarts)
          && (if InWait(l.pc) && l.grow then p.restarts > 0 && l.backoff == Coupled(p.restarts - 1) && l.delay == l.backoff
              else l.backoff == Coupled(p.restarts))
          && (def.interval.None? && !l.healthy ==> l.attempts == p.restarts + Uncounted(l.pc)))
  }

  /** What holds of the guarded fields alone. */
  predicate FieldsOk(def: Def, p: Proc) {
    && (forall w :: 0 <= w < |p.closes| ==> p.closes[w] <= 1)
    && (def.maxRestarts > 0 ==> p.restarts <= def.maxRestarts)
    && (p.state == Failed ==> def.maxRestarts > 0 && p.restarts == def.maxRestarts)
    && (p.wake.Some? ==> p.state == Backoff)
    && (p.state == Stopped ==> def.enabled)
    && (p.state == Disabled ==> !def.enabled)
  }

  /** The current generation is either absent or tied to the fields. */
  ghost predicate CurrentOk(def: Def, p: Proc, loops: seq<Loop>) {
    && p.generation == |loops|
    && (if loops == [] then !Busy(p.state) && p.state != Failed && p.done == None && p.cancel == None && p.wake == None && p.pid == 0
        else Tied(def, p, loops[|loops| - 1]))
  }

  ghost predicate LoopsOk(def: Def, loops: seq<Loop>) {
    && (forall i :: 0 <= i < |loops| ==> LoopOk(def, loops[i]))
    && (forall i :: 0 <= i < |loops| - 1 ==> Past(loops[i].pc))
  }

  /** Every generation a Stop call may not have waited for is already past its last launch. */
  ghost predicate CallerOk(k: Caller, loops: seq<Loop>) {
    && k.upTo <= |loops|
    && forall i :: 0 <= i < k.upTo && (k.Returned? || k.done != Some(i + 1)) ==> Past(loops[i].pc)
  }

  ghost predicate Inv(def: Def, s: Sys) {
    && FieldsOk(def, s.p)
    && CurrentOk(def, s.p, s.loops)
    && LoopsOk(def, s.loops)
    && forall c :: c in s.callers ==> CallerOk(s.callers[c], s.loops)
  }
}
