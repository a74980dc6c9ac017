/** The daemon's registry: the configuration, the processes that must agree with it, and the
    operations that change both (daemon/daemon.go), one call after another. */
module Reconcile {
  import opened Options
  import opened Ordering
  import Selector
  import SelectorMeaning
  import Catalog
  import opened Supervisor

  datatype AnglDef = AnglDef(
    command: string, args: seq<string>, enabled: Option<bool>, endpoint: Option<string>, interval: string,
    maxRestarts: int, killExisting: bool, charge: string, createdAt: string)

  type Config = map<string, AnglDef>

  const ZERO_DEF := AnglDef("", [], None, None, "", 0, false, "", "")

  predicate IsEnabled(def: AnglDef) { def.enabled != Some(false) }

  function SetEnabled(def: AnglDef, enabled: bool): AnglDef { def.(enabled := Some(enabled)) }

  /** What a definition means to the supervisor: an absent `enabled` is true, and the creation
      time is a label. */
  function Meaning(def: AnglDef): AnglDef { def.(enabled := Some(IsEnabled(def)), createdAt := "") }

  /** Two definitions mean the same exactly if they agree in all but the creation time, and both or
      neither say that the angl is not enabled. */
  lemma SameMeaning(a: AnglDef, b: AnglDef)
    ensures Meaning(a) == Meaning(b) <==>
              && a.command == b.command && a.args == b.args && a.endpoint == b.endpoint && a.interval == b.interval
              && a.maxRestarts == b.maxRestarts && a.killExisting == b.killExisting && a.charge == b.charge
              && (a.enabled == Some(false) <==> b.enabled == Some(false))
  {
    if Meaning(a) == Meaning(b) {
      assert Meaning(a).command == Meaning(b).command && Meaning(a).args == Meaning(b).args;
      assert Meaning(a).endpoint == Meaning(b).endpoint && Meaning(a).interval == Meaning(b).interval;
      assert Meaning(a).maxRestarts == Meaning(b).maxRestarts && Meaning(a).killExisting == Meaning(b).killExisting;
      assert Meaning(a).charge == Meaning(b).charge && Meaning(a).enabled == Meaning(b).enabled;
    }
  }

  method EndpointsEqual(a: Option<string>, b: Option<string>) returns (equal: bool)
    ensures equal <==> a == b
  {
    if a == None || b == None {
      return a == None && b == None;
    }
    equal := a.value == b.value;
  }

  /** Two definitions differ exactly when they mean different things. */
  method DefChanged(a: AnglDef, b: AnglDef) returns (changed: bool)
    ensures changed <==> Meaning(a) != Meaning(b)
  {
    var sameEndpoint := EndpointsEqual(a.endpoint, b.endpoint);
    if a.command != b.command || a.interval != b.interval || IsEnabled(a) != IsEnabled(b) ||
       a.maxRestarts != b.maxRestarts || a.killExisting != b.killExisting ||
       a.charge != b.charge || !sameEndpoint
    {
      return true;
    }
    if |a.args| != |b.args| {
      return true;
    }
    for i := 0 to |a.args|
      invariant forall j :: 0 <= j < i ==> a.args[j] == b.args[j]
    {
      if a.args[i] != b.args[i] {
        return true;
      }
    }
    assert a.args == b.args;
    changed := false;
  }

  /** A process object as the daemon sees it between calls; its serial number tells it from
      every other object ever registered under the same name. */
  datatype Process = Process(serial: nat, def: AnglDef, state: State)

  /** The run loop of the object with this name and serial number. */
  datatype RunLoop = RunLoop(name: string, serial: nat)

  function NewProcess(serial: nat, def: AnglDef): Process {
    Process(serial, def, if IsEnabled(def) then Stopped else Disabled)
  }

  /** A new process as its definition wants it: started if it is enabled, otherwise at rest. */
  predicate AsDefined(p: Process, name: string, def: AnglDef, live: set<RunLoop>) {
    && p.def == def
    && (if IsEnabled(def) then p.state == Starting && RunLoop(name, p.serial) in live
        else p.state == Disabled && RunLoop(name, p.serial) !in live)
  }

  /** A process that is as its definition wants it is starting with a run loop of its own, unless the
      definition says that it is not enabled; a new one is in the state the supervisor begins in. */
  lemma DefinedRuns(serial: nat, name: string, def: AnglDef, p: Process, live: set<RunLoop>)
    ensures AsDefined(p, name, def, live) ==>
              if def.enabled == Some(false) then p.state == Disabled && RunLoop(name, p.serial) !in live
              else p.state == Starting && RunLoop(name, p.serial) in live
    ensures NewProcess(serial, def).state == NewProc(Def(def.enabled != Some(false), def.maxRestarts, None)).state
  {
  }

  datatype Failure = BadName | BadDef | UnknownAngl | AlreadyExists | SaveFailed | LoadFailed

  /** AnglDef.Validate; parsing a duration is a parameter. */
  predicate ValidDef(def: AnglDef, positiveDuration: string -> bool) {
    !Selector.Blank(def.command) && def.maxRestarts >= 0 && (def.interval != "" ==> positiveDuration(def.interval))
  }

  /** A definition is accepted exactly if its command is not all spaces, its limit not negative, and its
      interval, if it has one, a positive duration. */
  lemma DefAccepted(def: AnglDef, positiveDuration: string -> bool)
    ensures ValidDef(def, positiveDuration) <==>
              && (exists i :: 0 <= i < |def.command| && !Selector.IsSpace(def.command[i]))
              && def.maxRestarts >= 0 && (def.interval == "" || positiveDuration(def.interval))
  {
    SelectorMeaning.BlankIsSpaces(def.command);
  }

  datatype Outcome = Added | Restarted | Kept

  /** What a reload does with a name of the new file. */
  function OutcomeOf(before: set<string>, config: Config, name: string, def: AnglDef): Outcome {
    if name !in before then Added
    else if Meaning(if name in config then config[name] else ZERO_DEF) != Meaning(def) then Restarted
    else Kept
  }

  datatype ReloadResult = ReloadResult(added: seq<string>, removed: seq<string>, restarted: seq<string>, kept: seq<string>)

  const NO_RESULT := ReloadResult([], [], [], [])

  ghost predicate Lists(s: seq<string>, names: set<string>) { Distinct(s) && forall n :: n in s <==> n in names }

  /** The names of the new file, apart from those left to do, that a reload reports under `outcome`. */
  ghost predicate ListsOutcome(s: seq<string>, left: set<string>, before: set<string>, config: Config, file: Config, outcome: Outcome) {
    Distinct(s) && forall n :: n in s <==> n in file && n !in left && OutcomeOf(before, config, n, file[n]) == outcome
  }

  lemma DistinctMore(s: seq<string>, name: string)
    requires Distinct(s) && name !in s
    ensures Distinct(s + [name]) && forall n :: n in s + [name] <==> n in s || n == name
  {
  }

  lemma ListsNext(s: seq<string>, left: set<string>, before: set<string>, config: Config, file: Config, outcome: Outcome, name: string)
    requires ListsOutcome(s, left, before, config, file, outcome) && name in left && name in file
    ensures ListsOutcome(if OutcomeOf(before, config, name, file[name]) == outcome then s + [name] else s,
                         left - {name}, before, config, file, outcome)
  {
    if OutcomeOf(before, config, name, file[name]) == outcome { DistinctMore(s, name); }
  }

  /** The reload's report: a partition of the old and the new names. */
  ghost predicate Reports(r: ReloadResult, before: set<string>, config: Config, file: Config) {
    && Lists(r.removed, before - file.Keys)
    && ListsOutcome(r.added, {}, before, config, file, Added)
    && ListsOutcome(r.restarted, {}, before, config, file, Restarted)
    && ListsOutcome(r.kept, {}, before, config, file, Kept)
  }

  // ----- One step of a reload, on values -----

  datatype Registry = Registry(processes: map<string, Process>, live: set<RunLoop>, serials: nat)

  /** Every run loop belongs to the process registered under its name, and serial numbers are
      not reused. */
  ghost predicate OwnedBy(r: Registry) {
    && (forall l :: l in r.live ==> l.name in r.processes && r.processes[l.name].serial == l.serial)
    && (forall n :: n in r.processes ==> r.processes[n].serial < r.serials)
  }

  /** What a reload leaves of one name: the very same process in the same state if it is kept,
      otherwise a new one as the new definition wants it. */
  ghost predicate Settled(before: Registry, after: Registry, config: Config, name: string, def: AnglDef) {
    && name in after.processes
    && if OutcomeOf(before.processes.Keys, config, name, def) == Kept then
         && name in before.processes && after.processes[name] == before.processes[name]
         && forall l: RunLoop :: l.name == name ==> (l in after.live <==> l in before.live)
       else after.processes[name].serial >= before.serials && AsDefined(after.processes[name], name, def, after.live)
  }

  /** Nothing about the other names changes. */
  ghost predicate OthersKept(before: Registry, after: Registry, name: string) {
    && (forall n :: n in after.processes <==> n in before.processes || n == name)
    && (forall n :: n in before.processes && n != name ==> after.processes[n] == before.processes[n])
    && (forall l: RunLoop :: l.name != name ==> (l in after.live <==> l in before.live))
  }

  /** A reload with only `todo` left to do. */
  ghost predicate Applied(before: Registry, now: Registry, config: Config, cfg: Config, todo: set<string>) {
    && OwnedBy(now) && before.serials <= now.serials
    && (forall n :: n in todo ==> n in cfg)
    && (forall n :: n in now.processes <==> n in before.processes || (n in cfg && n !in todo))
    && (forall n :: n in before.processes && n in todo ==> now.processes[n] == before.processes[n])
    && (forall l: RunLoop :: l.name in todo ==> (l in now.live <==> l in before.live))
    && (forall n :: n in cfg && n !in todo ==> Settled(before, now, config, n, cfg[n]))
  }

  lemma AppliedNext(before: Registry, now: Registry, next: Registry, config: Config, cfg: Config, todo: set<string>, name: string)
    requires Applied(before, now, config, cfg, todo) && name in todo
    requires OthersKept(now, next, name) && OwnedBy(next) && now.serials <= next.serials
    requires Settled(now, next, config, name, cfg[name])
    ensures Applied(before, next, config, cfg, todo - {name})
    ensures OutcomeOf(before.processes.Keys, config, name, cfg[name]) == OutcomeOf(now.processes.Keys, config, name, cfg[name])
  {
    forall n | n in cfg && n !in todo
      ensures Settled(before, next, config, n, cfg[n])
    {
      assert Settled(before, now, config, n, cfg[n]);
    }
  }

  /** Dropping the processes missing from the new file, with only `todo` left to look at. */
  ghost predicate Dropped(before: Registry, now: Registry, cfg: Config, todo: set<string>, removed: seq<string>) {
    && OwnedBy(now) && (forall n :: n in todo ==> n in now.processes)
    && (forall n :: n in before.processes <==> n in now.processes || n in removed)
    && (forall n :: n in now.processes ==> now.processes[n] == before.processes[n] && (n in todo || n in cfg))
    && (forall n :: n in removed ==> n !in cfg && n !in now.processes)
    && (forall l :: l in now.live <==> l in before.live && l.name !in removed)
    && Distinct(removed)
  }

  lemma DroppedNext(before: Registry, now: Registry, next: Registry, cfg: Config, todo: set<string>, removed: seq<string>, name: string)
    requires Dropped(before, now, cfg, todo, removed) && name in todo && name !in cfg
    requires next == Registry(now.processes - {name}, now.live - {RunLoop(name, now.processes[name].serial)}, now.serials)
    ensures Dropped(before, next, cfg, todo - {name}, removed + [name])
  {
    DistinctMore(removed, name);
  }

  /** The start of the daemon, with only `todo` left to start. */
  ghost predicate Populated(now: Registry, config: Config, todo: set<string>) {
    && OwnedBy(now) && (forall n :: n in todo ==> n in config)
    && (forall n :: n in now.processes <==> n in config && n !in todo)
    && (forall n :: n in now.processes ==> AsDefined(now.processes[n], n, config[n], now.live))
  }

  lemma PopulatedNext(now: Registry, next: Registry, config: Config, todo: set<string>, name: string)
    requires Populated(now, config, todo) && name in todo
    requires OwnedBy(next) && OthersKept(now, next, name)
    requires name in next.processes && AsDefined(next.processes[name], name, config[name], next.live)
    ensures Populated(next, config, todo - {name})
  {
  }

  /** A reload as a whole. */
  ghost predicate Reloaded(before: Registry, after: Registry, config: Config, file: Config, r: ReloadResult) {
    && OwnedBy(after) && (forall n :: n in after.processes <==> n in file)
    && Reports(r, before.processes.Keys, config, file)
    && (forall n :: n in file ==> Settled(before, after, config, n, file[n]))
  }

  lemma DropThenApply(before: Registry, mid: Registry, after: Registry, config: Config, cfg: Config, r: ReloadResult)
    requires OwnedBy(before) && Dropped(before, mid, cfg, {}, r.removed) && Applied(mid, after, config, cfg, {})
    requires before.serials == mid.serials
    requires ListsOutcome(r.added, {}, mid.processes.Keys, config, cfg, Added)
    requires ListsOutcome(r.restarted, {}, mid.processes.Keys, config, cfg, Restarted)
    requires ListsOutcome(r.kept, {}, mid.processes.Keys, config, cfg, Kept)
    ensures Reloaded(before, after, config, cfg, r)
  {
    forall n | n in cfg
      ensures OutcomeOf(before.processes.Keys, config, n, cfg[n]) == OutcomeOf(mid.processes.Keys, config, n, cfg[n])
      ensures Settled(before, after, config, n, cfg[n])
    {
      assert n in before.processes <==> n in mid.processes;
      assert Settled(mid, after, config, n, cfg[n]);
    }
  }

  /** Processes and configuration entries that mean the same. */
  ghost predicate Agree(processes: map<string, Process>, config: Config) {
    && (forall n :: n in processes <==> n in config)
    && (forall n :: n in processes ==> Meaning(processes[n].def) == Meaning(config[n]))
  }

  /** Agreement everywhere but at one name is agreement exactly if that name agrees. */
  lemma AgreeBut(processes: map<string, Process>, config: Config, name: string, p: Process, def: AnglDef)
    requires Agree(processes, config) && name in config
    ensures Agree(processes[name := p], config[name := def]) <==> Meaning(p.def) == Meaning(def)
    ensures processes[name := processes[name]] == processes
  {
    var updated := processes[name := p];
    assert name in updated && updated[name] == p;
  }

  /** What an Enable whose save fails leaves behind: an entry that says enabled beside a process
      that does not, which a reload of a file that says enabled takes for unchanged. */
  lemma FailedEnableIsKeptByReload(config: Config, processes: map<string, Process>, name: string)
    requires Agree(processes, config) && name in config && !IsEnabled(config[name])
    ensures var left := config[name := SetEnabled(config[name], true)];
            && !Agree(processes, left)
            && OutcomeOf(processes.Keys, left, name, SetEnabled(config[name], true)) == Kept
            && !IsEnabled(processes[name].def)
  {
    AgreeBut(processes, config, name, processes[name], SetEnabled(config[name], true));
    assert Meaning(processes[name].def).enabled == Meaning(config[name]).enabled;
  }

  /** After a reload the registry agrees with the file exactly if every process it kept agreed
      with the configuration in memory. */
  lemma ReloadedAgrees(before: Registry, after: Registry, config: Config, file: Config, r: ReloadResult)
    requires Reloaded(before, after, config, file, r) && forall n :: n in before.processes <==> n in config
    ensures Agree(after.processes, file) <==> forall n :: n in r.kept ==> Meaning(before.processes[n].def) == Meaning(config[n])
  {
    forall n | n in file
      ensures n in r.kept ==> n in before.processes && after.processes[n] == before.processes[n] && Meaning(config[n]) == Meaning(file[n])
      ensures n !in r.kept ==> after.processes[n].def == file[n]
    {
      assert Settled(before, after, config, n, file[n]);
    }
  }

  /** Reloading a file that is already loaded reports every name as unchanged, and changes nothing. */
  lemma SecondReloadChangesNothing(before: Registry, after: Registry, file: Config, r: ReloadResult)
    requires OwnedBy(before) && Reloaded(before, after, file, file, r) && forall n :: n in before.processes <==> n in file
    ensures r.added == r.removed == r.restarted == [] && Lists(r.kept, file.Keys)
    ensures after.processes == before.processes && after.live == before.live
  {
    NothingListed(r.added);
    NothingListed(r.removed);
    NothingListed(r.restarted);
    forall n | n in file
      ensures after.processes[n] == before.processes[n]
      ensures forall l: RunLoop :: l.name == n ==> (l in after.live <==> l in before.live)
    {
      assert Settled(before, after, file, n, file[n]);
    }
  }

  lemma NothingListed(s: seq<string>)
    ensures (forall n :: n !in s) ==> s == []
  {
    if s != [] { assert s[0] in s; }
  }

  class Daemon {
    const positiveDuration: string -> bool
    var config: Config
    var processes: map<string, Process>
    /** The configuration file; anyone may edit it between two calls. */
    var file: Config
    /** The run loops that have not ended. */
    var live: set<RunLoop>
    var serials: nat

    /** Every run loop belongs to the process registered under its name, and serial numbers are
        not reused. */
    ghost predicate Owned()
      reads this
    {
      OwnedBy(Registry(processes, live, serials))
    }

    ghost predicate Valid()
      reads this
    {
      Owned() && forall n :: n in processes <==> n in config
    }

    /** Every process runs what its configuration entry means. */
    ghost predicate Consistent()
      reads this
    {
      Owned() && Agree(processes, config)
    }

    function View(): Registry
      reads this
    {
      Registry(processes, live, serials)
    }

    constructor (file: Config, positiveDuration: string -> bool)
      ensures config == file == this.file && processes == map[] && live == {} && Owned()
      ensures this.positiveDuration == positiveDuration
    {
      this.positiveDuration := positiveDuration;
      this.file, config, processes, live, serials := file, file, map[], {}, 0;
    }

    // ----- One process -----

    /** Process.Start. */
    method Start(name: string)
      requires Owned() && name in processes
      modifies this`processes, this`live
      ensures Owned() && name in processes && processes == old(processes)[name := processes[name]]
      ensures processes[name].serial == old(processes)[name].serial && processes[name].def == old(processes)[name].def
      ensures if Busy(old(processes)[name].state) then processes == old(processes) && live == old(live)
              else processes[name].state == Starting && live == old(live) + {RunLoop(name, processes[name].serial)}
    {
      var p := processes[name];
      if p.state == Running || p.state == Starting || p.state == Backoff {
        assert processes[name := p] == processes;
        return;
      }
      processes := processes[name := p.(state := Starting)];
      live := live + {RunLoop(name, p.serial)};
    }

    /** Process.Stop: returns once the run loop, if there is one, has cleaned up, having shown
        Failed if it gave up meanwhile. */
    method Stop(name: string)
      requires Owned() && name in processes
      modifies this`processes, this`live
      ensures Owned() && name in processes && processes == old(processes)[name := processes[name]]
      ensures processes[name].serial == old(processes)[name].serial && processes[name].def == old(processes)[name].def
      ensures live == old(live) - {RunLoop(name, processes[name].serial)}
      ensures RunLoop(name, processes[name].serial) !in old(live) || old(processes)[name].state == Failed ==>
                processes[name].state == old(processes)[name].state
      ensures RunLoop(name, processes[name].serial) in old(live) ==>
                processes[name].state == Failed || processes[name].state == NewProcess(0, processes[name].def).state
    {
      var p := processes[name];
      if RunLoop(name, p.serial) in live && p.state != Failed {
        var gaveUp: bool := *;
        p := p.(state := if gaveUp then Failed else if IsEnabled(p.def) then Stopped else Disabled);
      }
      processes := processes[name := p];
      live := live - {RunLoop(name, p.serial)};
    }

    method StartWith(name: string, def: AnglDef)
      requires Owned() && name in processes
      modifies this`processes, this`live
      ensures Owned() && name in processes && processes == old(processes)[name := processes[name]]
      ensures processes[name].def == def && Busy(processes[name].state)
      ensures processes[name].serial == old(processes)[name].serial
      ensures Busy(old(processes)[name].state) ==> live == old(live) && processes[name].state == old(processes)[name].state
      ensures !Busy(old(processes)[name].state) ==> live == old(live) + {RunLoop(name, processes[name].serial)}
    {
      processes := processes[name := processes[name].(def := def)];
      Start(name);
    }

    method StopWith(name: string, def: AnglDef)
      requires Owned() && name in processes
      modifies this`processes, this`live
      ensures Owned() && name in processes && processes == old(processes)[name := processes[name]]
      ensures processes[name] == Process(old(processes)[name].serial, def, Disabled)
      ensures live == old(live) - {RunLoop(name, processes[name].serial)}
    {
      Stop(name);
      processes := processes[name := processes[name].(def := def, state := Disabled)];
    }

    /** NewProcess in place of whatever ended under the name, and Start if it is enabled. */
    method Launch(name: string, def: AnglDef)
      requires Owned() && forall l :: l in live ==> l.name != name
      modifies this`processes, this`live, this`serials
      ensures Owned() && serials == old(serials) + 1
      ensures name in processes && processes == old(processes)[name := processes[name]] && processes[name].serial == old(serials)
      ensures AsDefined(processes[name], name, def, live)
      ensures live == old(live) + if IsEnabled(def) then {RunLoop(name, old(serials))} else {}
    {
      processes := processes[name := NewProcess(serials, def)];
      serials := serials + 1;
      if IsEnabled(def) {
        Start(name);
      }
    }

    // ----- Calls on one angl -----

    /** An atomic replace: a failed save leaves the file as it was. */
    method SaveConfig(works: bool) returns (ok: bool)
      modifies this`file
      ensures ok == works && file == if works then config else old(file)
    {
      if works {
        file := config;
      }
      ok := works;
    }

    /** Put an entry in the configuration and save it. Memory and processes then agree as before
        about the other names. */
    method SetEntry(name: string, def: AnglDef, works: bool) returns (ok: bool)
      requires Valid() && name in config
      modifies this`config, this`file
      ensures config == old(config)[name := def] && Valid()
      ensures ok == works && file == if works then config else old(file)
      ensures Agree(processes, old(config)) ==>
                && (Agree(processes, config) <==> Meaning(processes[name].def) == Meaning(def))
                && forall p: Process :: p.def == def ==> Agree(processes[name := p], config)
    {
      if Agree(processes, config) {
        AgreeBut(processes, config, name, processes[name], def);
        forall p: Process | p.def == def
          ensures Agree(processes[name := p], config[name := def])
        {
          AgreeBut(processes, config, name, p, def);
        }
      }
      config := config[name := def];
      ok := SaveConfig(works);
    }

    /** A failure of any kind changes nothing. */
    method Register(name: string, def: AnglDef, works: bool) returns (failure: Option<Failure>)
      requires Valid()
      modifies this
      ensures failure == if !Catalog.ValidName(name) then Some(BadName)
                         else if !ValidDef(def, positiveDuration) then Some(BadDef)
                         else if name in old(config) then Some(AlreadyExists)
                         else if !works then Some(SaveFailed) else None
      ensures failure != None ==> config == old(config) && processes == old(processes) && file == old(file)
      ensures failure == None ==>
                && config == old(config)[name := SetEnabled(def, false)] && file == config
                && name in processes && processes == old(processes)[name := processes[name]]
                && AsDefined(processes[name], name, SetEnabled(def, false), live)
      ensures live == old(live) && Valid() && (old(Consistent()) ==> Consistent())
    {
      if !Catalog.ValidName(name) {
        return Some(BadName);
      }
      if !ValidDef(def, positiveDuration) {
        return Some(BadDef);
      }
      if name in config {
        return Some(AlreadyExists);
      }
      var disabled := SetEnabled(def, false);
      config := config[name := disabled];
      var ok := SaveConfig(works);
      if !ok {
        config := config - {name};
        return Some(SaveFailed);
      }
      Launch(name, disabled);
      failure := None;
    }

    /** A failed save changes nothing. */
    method Delete(name: string, works: bool) returns (failure: Option<Failure>)
      requires Valid()
      modifies this
      ensures failure == if name !in old(config) then Some(UnknownAngl) else if !works then Some(SaveFailed) else None
      ensures failure != None ==> config == old(config) && processes == old(processes) && file == old(file) && live == old(live)
      ensures failure == None ==>
                && config == old(config) - {name} && file == config && processes == old(processes) - {name}
                && live == old(live) - {RunLoop(name, old(processes)[name].serial)}
      ensures Valid() && (old(Consistent()) ==> Consistent())
    {
      if name !in config {
        return Some(UnknownAngl);
      }
      var def := config[name];
      config := config - {name};
      var ok := SaveConfig(works);
      if !ok {
        config := config[name := def];
        return Some(SaveFailed);
      }
      if name in processes {
        Stop(name);
        processes := processes - {name};
      }
      failure := None;
    }

    /** A failed save leaves the memory changed and the process unchanged: they then still agree
        exactly if the angl was enabled before. */
    method Enable(name: string, works: bool) returns (failure: Option<Failure>)
      requires Valid()
      modifies this
      ensures failure == if name !in old(config) then Some(UnknownAngl) else if !works then Some(SaveFailed) else None
      ensures config == if name in old(config) then old(config)[name := SetEnabled(old(config)[name], true)] else old(config)
      ensures file == if failure == None then config else old(file)
      ensures failure != None ==> processes == old(processes) && live == old(live)
      ensures failure == None ==>
                && name in processes && processes == old(processes)[name := processes[name]]
                && processes[name].def == config[name] && Busy(processes[name].state)
                && processes[name].serial == old(processes)[name].serial
                && live == old(live) + if Busy(old(processes)[name].state) then {} else {RunLoop(name, processes[name].serial)}
      ensures Valid()
      ensures old(Consistent()) ==> (Consistent() <==> failure != Some(SaveFailed) || IsEnabled(old(config)[name]))
    {
      if name !in config {
        return Some(UnknownAngl);
      }
      var def := SetEnabled(config[name], true);
      var ok := SetEntry(name, def, works);
      if !ok {
        return Some(SaveFailed);
      }
      if name in processes {
        StartWith(name, def);
      }
      failure := None;
    }

    /** As for Enable: after a failed save the two agree exactly if the angl was disabled before. */
    method Disable(name: string, works: bool) returns (failure: Option<Failure>)
      requires Valid()
      modifies this
      ensures failure == if name !in old(config) then Some(UnknownAngl) else if !works then Some(SaveFailed) else None
      ensures config == if name in old(config) then old(config)[name := SetEnabled(old(config)[name], false)] else old(config)
      ensures file == if failure == None then config else old(file)
      ensures failure != None ==> processes == old(processes) && live == old(live)
      ensures failure == None ==>
                && name in processes && processes == old(processes)[name := processes[name]]
                && processes[name] == Process(old(processes)[name].serial, config[name], Disabled)
                && live == old(live) - {RunLoop(name, processes[name].serial)}
      ensures Valid()
      ensures old(Consistent()) ==> (Consistent() <==> failure != Some(SaveFailed) || !IsEnabled(old(config)[name]))
    {
      if name !in config {
        return Some(UnknownAngl);
      }
      var def := SetEnabled(config[name], false);
      var ok := SetEntry(name, def, works);
      if !ok {
        return Some(SaveFailed);
      }
      if name in processes {
        StopWith(name, def);
      }
      failure := None;
    }

    // ----- The whole registry -----

    /** The first part of Run: one process an entry, the enabled ones started. */
    method Run()
      requires Owned() && processes == map[]
      modifies this`processes, this`live, this`serials
      ensures Consistent()
      ensures forall n :: n in processes ==> AsDefined(processes[n], n, config[n], live)
    {
      var todo := config.Keys;
      while todo != {}
        invariant Populated(View(), config, todo)
        decreases |todo|
      {
        var name :| name in todo;
        ghost var now := View();
        Launch(name, config[name]);
        PopulatedNext(now, View(), config, todo, name);
        todo := todo - {name};
      }
    }

    method Drop(name: string)
      requires Owned() && name in processes
      modifies this`processes, this`live
      ensures View() == Registry(old(processes) - {name}, old(live) - {RunLoop(name, old(processes)[name].serial)}, serials)
    {
      Stop(name);
      processes := processes - {name};
    }

    /** The processes that are not in the new file are stopped and dropped. */
    method DropRemoved(cfg: Config) returns (removed: seq<string>)
      requires Owned()
      modifies this`processes, this`live
      ensures Dropped(old(View()), View(), cfg, {}, removed)
    {
      removed := [];
      var todo := processes.Keys;
      ghost var before := View();
      while todo != {}
        invariant Dropped(before, View(), cfg, todo, removed) && serials == old(serials)
        decreases |todo|
      {
        var name :| name in todo;
        if name !in cfg {
          ghost var now := View();
          Drop(name);
          DroppedNext(before, now, View(), cfg, todo, removed, name);
          removed := removed + [name];
        }
        todo := todo - {name};
      }
    }

    method ReconcileOne(name: string, def: AnglDef) returns (outcome: Outcome)
      requires Owned()
      modifies this`processes, this`live, this`serials
      ensures Owned() && old(serials) <= serials
      ensures outcome == OutcomeOf(old(processes).Keys, config, name, def)
      ensures OthersKept(old(View()), View(), name)
      ensures Settled(old(View()), View(), config, name, def)
    {
      if name in processes {
        var changed := DefChanged(if name in config then config[name] else ZERO_DEF, def);
        if !changed {
          assert processes[name := processes[name]] == processes;
          return Kept;
        }
        Stop(name);
        outcome := Restarted;
      } else {
        outcome := Added;
      }
      Launch(name, def);
    }

    method ApplyFile(cfg: Config) returns (added: seq<string>, restarted: seq<string>, kept: seq<string>)
      requires Owned() && forall n :: n in processes ==> n in cfg
      modifies this`processes, this`live, this`serials
      ensures Applied(old(View()), View(), config, cfg, {})
      ensures ListsOutcome(added, {}, old(processes).Keys, config, cfg, Added)
      ensures ListsOutcome(restarted, {}, old(processes).Keys, config, cfg, Restarted)
      ensures ListsOutcome(kept, {}, old(processes).Keys, config, cfg, Kept)
    {
      added, restarted, kept := [], [], [];
      var todo := cfg.Keys;
      ghost var before, names := View(), processes.Keys;
      while todo != {}
        invariant Applied(before, View(), config, cfg, todo)
        invariant ListsOutcome(added, todo, names, config, cfg, Added)
        invariant ListsOutcome(restarted, todo, names, config, cfg, Restarted)
        invariant ListsOutcome(kept, todo, names, config, cfg, Kept)
        decreases |todo|
      {
        var name :| name in todo;
        ghost var now := View();
        var outcome := ReconcileOne(name, cfg[name]);
        AppliedNext(before, now, View(), config, cfg, todo, name);
        ListsNext(added, todo, names, config, cfg, Added, name);
        ListsNext(restarted, todo, names, config, cfg, Restarted, name);
        ListsNext(kept, todo, names, config, cfg, Kept, name);
        match outcome {
          case Added => added := added + [name];
          case Restarted => restarted := restarted + [name];
          case Kept => kept := kept + [name];
        }
        todo := todo - {name};
      }
    }

    /** Both loops of a reload. */
    method ReloadProcesses(cfg: Config) returns (result: ReloadResult)
      requires Owned()
      modifies this`processes, this`live, this`serials
      ensures Reloaded(old(View()), View(), config, cfg, result)
    {
      ghost var before := View();
      var removed := DropRemoved(cfg);
      ghost var mid := View();
      var added, restarted, kept := ApplyFile(cfg);
      result := ReloadResult(added, removed, restarted, kept);
      DropThenApply(before, mid, View(), config, cfg, result);
    }

    /** The names of both maps become those of the file; the reported lists partition them. */
    method Reload(readable: bool) returns (failure: Option<Failure>, result: ReloadResult)
      requires Valid()
      modifies this
      ensures Valid() && file == old(file) && failure == if readable then None else Some(LoadFailed)
      ensures failure != None ==> View() == old(View()) && config == old(config)
      ensures failure == None ==> config == file && Reloaded(old(View()), View(), old(config), file, result)
      ensures failure == None ==>
                (Consistent() <==> forall n :: n in result.kept ==> Meaning(old(processes)[n].def) == Meaning(old(config)[n]))
      ensures old(Consistent()) ==> Consistent()
    {
      if !readable {
        return Some(LoadFailed), NO_RESULT;
      }
      var cfg := file;
      ghost var before := View();
      result := ReloadProcesses(cfg);
      ReloadedAgrees(before, View(), config, cfg, result);
      config := cfg;
      failure := None;
    }
  }
}
