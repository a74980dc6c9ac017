/** The versioned inventory stream: publisher, capacity-one channels, wire and client
    (daemon/listen.go, daemon/server.go, the apply side of listen.go). */
module Replication {
  import opened Options
  import opened Inventory

  datatype Snapshot = Snapshot(version: nat, items: seq<Item>)

  datatype Update = Update(kind: string, snapshot: Option<Snapshot>, patch: Option<Patch>)

  function SnapshotUpdate(version: nat, items: seq<Item>): Update {
    Update("snapshot", Some(Snapshot(version, items)), None)
  }

  /** The cheaper encoding; which one is smaller is left to `preferSnapshot`. */
  function CompactUpdate(patch: Patch, snapshot: Snapshot, preferSnapshot: bool): Update {
    if preferSnapshot then Update("snapshot", Some(snapshot), None) else Update("patch", None, Some(patch))
  }

  // ----- The client's side -----

  datatype Client = Client(version: nat, items: map<string, Item>)

  datatype ApplyError = EmptySnapshot | EmptyPatch | Gap(have: nat, starts: nat) | UnknownType

  datatype Applied = Ok(client: Client) | Err(error: ApplyError)

  function ApplySnapshot(s: Snapshot): Client { Client(s.version, ByName(s.items)) }

  function ApplyUpdate(c: Client, u: Update): Applied {
    if u.kind == "snapshot" then
      if u.snapshot.None? then Err(EmptySnapshot) else Ok(ApplySnapshot(u.snapshot.value))
    else if u.kind == "patch" then
      if u.patch.None? then Err(EmptyPatch)
      else if u.patch.value.baseVersion != c.version then Err(Gap(c.version, u.patch.value.baseVersion))
      else Ok(Client(u.patch.value.version, PatchItems(c.items, u.patch.value)))
    else Err(UnknownType)
  }

  /** The registration reply comes first on the wire, updates follow in order. */
  datatype Message = Registered(snapshot: Snapshot) | Updated(update: Update)

  function Apply(c: Client, m: Message): Applied {
    match m
    case Registered(s) => Ok(ApplySnapshot(s))
    case Updated(u) => ApplyUpdate(c, u)
  }

  function Fold(c: Client, messages: seq<Message>): Applied
    decreases |messages|
  {
    if messages == [] then Ok(c)
    else
      var r := Apply(c, messages[0]);
      if r.Err? then r else Fold(r.client, messages[1..])
  }

  /** New values for the elapsed fields of some items. */
  datatype Elapsed = Elapsed(uptime: string, nextRunIn: string, lifetime: string)

  function RefreshElapsed(c: Client, ticks: map<string, Elapsed>): Client {
    c.(items := map k | k in c.items ::
      if k in ticks
      then c.items[k].(uptime := ticks[k].uptime, nextRunIn := ticks[k].nextRunIn, lifetime := ticks[k].lifetime)
      else c.items[k])
  }

  // ----- The publisher's fields -----

  /** What a refresh leaves in a channel when no receive happens in between. */
  function Reached(channel: Option<Update>, update: Update, version: nat, items: seq<Item>): Option<Update> {
    Some(if channel == None then update else SnapshotUpdate(version, items))
  }

  /** inventoryStream under its mutex, run without interference from the senders. Each channel
      has capacity one and is modelled by its content. */
  class InventoryStream {
    var version: nat
    var items: seq<Item>
    var nextID: nat
    var listeners: map<nat, Option<Update>>

    constructor (items: seq<Item>)
      ensures version == 1 && this.items == items && nextID == 0 && listeners == map[]
    {
      version, this.items, nextID, listeners := 1, items, 0, map[];
    }

    method RefreshInventory(next: seq<Item>, preferSnapshot: bool)
      modifies this
      ensures nextID == old(nextID)
      ensures SameInventory(old(items), next) ==>
                version == old(version) && items == old(items) && listeners == old(listeners)
      ensures !SameInventory(old(items), next) ==>
                && version == old(version) + 1 && items == next
                && var update := CompactUpdate(Diff(old(version), version, old(items), next), Snapshot(version, next), preferSnapshot);
                   listeners == map id | id in old(listeners) :: Reached(old(listeners)[id], update, version, next)
    {
      var same := InventoryEqual(items, next);
      if same {
        return;
      }
      var base := version;
      version := version + 1;
      var patch := DiffInventory(base, version, items, next);
      items := next;
      PublishUpdate(CompactUpdate(patch, Snapshot(version, next), preferSnapshot));
    }

    /** Every listener gets the update if its channel was empty, a full snapshot otherwise. */
    method PublishUpdate(update: Update)
      modifies this`listeners
      ensures listeners == map id | id in old(listeners) :: Reached(old(listeners)[id], update, version, items)
    {
      var todo := listeners.Keys;
      while todo != {}
        invariant todo <= listeners.Keys == old(listeners).Keys
        invariant forall id :: id in listeners ==>
                    listeners[id] == if id in todo then old(listeners)[id]
                                     else Reached(old(listeners)[id], update, version, items)
        decreases |todo|
      {
        var id :| id in todo;
        todo := todo - {id};
        if listeners[id] == None {
          Send(id, update);
        } else {
          listeners := listeners[id := None];
          Send(id, SnapshotUpdate(version, items));
        }
      }
    }

    /** A send on a full channel would block with the mutex held. */
    method Send(id: nat, update: Update)
      requires id in listeners && listeners[id] == None
      modifies this`listeners
      ensures listeners == old(listeners)[id := Some(update)]
    {
      listeners := listeners[id := Some(update)];
    }

    /** The second critical section of SubscribeInventory, after its refresh. */
    method Subscribe() returns (id: nat, snapshot: Snapshot)
      modifies this`nextID, this`listeners
      ensures id == nextID == old(nextID) + 1 && snapshot == Snapshot(version, items)
      ensures listeners == old(listeners)[id := None]
    {
      nextID := nextID + 1;
      id := nextID;
      listeners := listeners[id := None];
      snapshot := Snapshot(version, items);
    }

    method Unsubscribe(id: nat)
      modifies this`listeners
      ensures listeners == old(listeners) - {id}
    {
      listeners := listeners - {id};
    }
  }

  // ----- The whole system, senders running beside the publisher -----

  /** One connection: messages taken from the channel but not yet applied, and the client. */
  datatype Conn = Conn(wire: seq<Message>, client: Client, failed: bool)

  /** What one refresh sends; `before` is the inventory it replaced. */
  datatype Broadcast = Broadcast(update: Update, before: seq<Item>)

  /** Where a refresh is inside the critical section. */
  datatype Stage =
    | Idle
    | Publishing(todo: set<nat>, cast: Broadcast)
    | Draining(id: nat, todo: set<nat>, cast: Broadcast)  // the first send found the channel full
    | Sending(id: nat, todo: set<nat>, cast: Broadcast)   // drained, replacement not sent yet

  datatype Sys = Sys(
    version: nat, items: seq<Item>, nextID: nat, channels: map<nat, Option<Update>>,
    stage: Stage, conns: map<nat, Conn>)

  datatype Action =
    | BeginRefresh(next: seq<Item>, preferSnapshot: bool)
    | Offer(id: nat)
    | Drain
    | SendReplacement
    | EndRefresh
    | SubscribeConn
    | UnsubscribeConn(id: nat)
    | Pump(id: nat)      // the connection's goroutine receives from its channel
    | Deliver(id: nat)   // the client applies the next message
    | Tick(id: nat, ticks: map<string, Elapsed>)

  /** None when the action is not possible: the mutex is held, a channel operation would block,
      or there is nothing to do. */
  ghost function Next(s: Sys, a: Action): Option<Sys> {
    match a
    case BeginRefresh(next, preferSnapshot) =>
      if s.stage != Idle || !NameSorted(next) then None
      else if SameInventory(s.items, next) then Some(s)
      else
        var v := s.version + 1;
        var update := CompactUpdate(Diff(s.version, v, s.items, next), Snapshot(v, next), preferSnapshot);
        Some(s.(version := v, items := next, stage := Publishing(s.channels.Keys, Broadcast(update, s.items))))
    case Offer(id) =>
      if !s.stage.Publishing? || id !in s.stage.todo || id !in s.channels then None
      else if s.channels[id] == None then
        Some(s.(channels := s.channels[id := Some(s.stage.cast.update)],
                stage := Publishing(s.stage.todo - {id}, s.stage.cast)))
      else Some(s.(stage := Draining(id, s.stage.todo - {id}, s.stage.cast)))
    case Drain =>
      if !s.stage.Draining? then None
      else Some(s.(channels := s.channels[s.stage.id := None],
                   stage := Sending(s.stage.id, s.stage.todo, s.stage.cast)))
    case SendReplacement =>
      if !s.stage.Sending? || s.stage.id !in s.channels || s.channels[s.stage.id] != None then None
      else Some(s.(channels := s.channels[s.stage.id := Some(SnapshotUpdate(s.version, s.items))],
                   stage := Publishing(s.stage.todo, s.stage.cast)))
    case EndRefresh =>
      if s.stage.Publishing? && s.stage.todo == {} then Some(s.(stage := Idle)) else None
    case SubscribeConn =>
      if s.stage != Idle then None
      else
        var id := s.nextID + 1;
        var first := [Registered(Snapshot(s.version, s.items))];
        Some(s.(nextID := id, channels := s.channels[id := None],
                conns := s.conns[id := Conn(first, Client(0, map[]), false)]))
    case UnsubscribeConn(id) =>
      if s.stage != Idle then None else Some(s.(channels := s.channels - {id}))
    case Pump(id) =>
      if id !in s.channels || id !in s.conns || s.channels[id] == None then None
      else
        var c := s.conns[id];
        Some(s.(channels := s.channels[id := None],
                conns := s.conns[id := c.(wire := c.wire + [Updated(s.channels[id].value)])]))
    case Deliver(id) =>
      if id !in s.conns || s.conns[id].failed || s.conns[id].wire == [] then None
      else Some(s.(conns := s.conns[id := Delivered(s.conns[id])]))
    case Tick(id, ticks) =>
      if id !in s.conns then None
      else
        var c := s.conns[id];
        Some(s.(conns := s.conns[id := c.(client := RefreshElapsed(c.client, ticks))]))
  }

  function Delivered(c: Conn): Conn
    requires c.wire != []
  {
    var r := Apply(c.client, c.wire[0]);
    if r.Err? then c.(failed := true) else c.(wire := c.wire[1..], client := r.client)
  }

  function Init(items: seq<Item>): Sys { Sys(1, items, 0, map[], Idle, map[]) }

  ghost function Run(s: Sys, schedule: seq<Action>): Option<Sys>
    decreases |schedule|
  {
    if schedule == [] then Some(s)
    else
      var t := Next(s, schedule[0]);
      if t.None? then None else Run(t.value, schedule[1..])
  }

  ghost predicate Reachable(s: Sys) {
    exists items, schedule :: NameSorted(items) && Run(Init(items), schedule) == Some(s)
  }

  // ----- The invariant -----

  function StableClient(c: Client): Client { Client(c.version, StableMap(c.items)) }

  function StableResult(r: Applied): Applied { if r.Ok? then Ok(StableClient(r.client)) else r }

  function Pending(channel: Option<Update>): seq<Message> {
    if channel.None? then [] else [Updated(channel.value)]
  }

  function Ideal(version: nat, items: seq<Item>): Client { Client(version, StableMap(ByName(items))) }

  /** Applying the wire and then the channel never fails. */
  predicate BacklogOk(c: Conn, channel: Option<Update>) {
    !c.failed && Fold(c.client, c.wire + Pending(channel)).Ok?
  }

  /** Applying the wire and then the channel ends exactly at the given version and items. */
  predicate Converges(c: Conn, channel: Option<Update>, version: nat, items: seq<Item>) {
    && !c.failed
    && StableResult(Fold(c.client, c.wire + Pending(channel))) == Ok(Ideal(version, items))
  }

  /** Listeners this refresh has not reached yet are still owed the previous version. */
  predicate Waiting(stage: Stage, id: nat) { !stage.Idle? && id in stage.todo }

  predicate InProgress(stage: Stage, id: nat) { (stage.Draining? || stage.Sending?) && id == stage.id }

  /** The update is one that publishes `items` as `version`, over `before`. */
  ghost predicate Carries(update: Update, version: nat, before: seq<Item>, items: seq<Item>) {
    && version >= 1
    && (update == SnapshotUpdate(version, items)
        || update == Update("patch", None, Some(Diff(version - 1, version, before, items))))
  }

  ghost predicate CastOk(s: Sys) {
    && s.version >= 1 && NameSorted(s.items)
    && (!s.stage.Idle? ==>
          && s.stage.todo <= s.channels.Keys
          && Carries(s.stage.cast.update, s.version, s.stage.cast.before, s.items))
    && (s.stage.Draining? || s.stage.Sending? ==> s.stage.id in s.channels && s.stage.id !in s.stage.todo)
    && (s.stage.Sending? ==> s.channels[s.stage.id] == None)
  }

  /** The version and inventory a listener is owed; none while its channel is being replaced. */
  function Target(version: nat, items: seq<Item>, stage: Stage, id: nat): Option<(nat, seq<Item>)> {
    if InProgress(stage, id) then None
    else if Waiting(stage, id) && version >= 1 then Some((version - 1, stage.cast.before))
    else Some((version, items))
  }

  predicate ConnOk(c: Conn, channel: Option<Update>, target: Option<(nat, seq<Item>)>) {
    && BacklogOk(c, channel)
    && (target.Some? ==> Converges(c, channel, target.value.0, target.value.1))
  }

  /** `ok` holds of every connection, and of every listener with its channel and what it is owed. */
  ghost predicate ListenersHold(ok: (Conn, Option<Update>, Option<(nat, seq<Item>)>) -> bool, s: Sys) {
    && (forall id :: id in s.conns ==> id <= s.nextID && ok(s.conns[id], None, None))
    && (forall id :: id in s.channels ==>
          id in s.conns && ok(s.conns[id], s.channels[id], Target(s.version, s.items, s.stage, id)))
  }

  ghost predicate Inv(s: Sys) { CastOk(s) && ListenersHold(ConnOk, s) }
}
