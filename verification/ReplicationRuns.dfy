/** What listeners show in the end: the daemon's latest inventory (daemon/listen.go, listen.go). */
module ReplicationRuns {
  import opened Options
  import opened Inventory
  import opened Replication
  import opened ReplicationProofs

  lemma {:induction false} RunAppend(s: Sys, a: seq<Action>, b: seq<Action>)
    ensures Run(s, a + b) == if Run(s, a).None? then None else Run(Run(s, a).value, b)
    decreases |a|
  {
    if a == [] {
      assert a + b == b;
    } else {
      assert (a + b)[1..] == a[1..] + b;
      var t := Next(s, a[0]);
      if t.Some? { RunAppend(t.value, a[1..], b); }
    }
  }

  lemma ReachableOn(s: Sys, schedule: seq<Action>)
    requires Reachable(s) && Run(s, schedule).Some?
    ensures Reachable(Run(s, schedule).value)
  {
    var items, before :| NameSorted(items) && Run(Init(items), before) == Some(s);
    RunAppend(Init(items), before, schedule);
    assert NameSorted(items) && Run(Init(items), before + schedule) == Run(s, schedule);
  }

  lemma RunOne(s: Sys, a: Action)
    ensures Run(s, [a]) == Next(s, a)
  {
    assert [a][1..] == [];
    assert Next(s, a).Some? ==> Run(Next(s, a).value, []) == Next(s, a);
  }

  // ----- Refreshing -----

  /** Two items are the same to a refresh if they agree in the name and in everything recorded. */
  lemma SameItem(a: Item, b: Item)
    ensures ItemEqual(a, b) <==> a.name == b.name && a.record == b.record
  {
    assert Stable(a).record == a.record && Stable(b).record == b.record;
  }

  /** A refresh takes over the new inventory: nothing changes if it is the same as the old one, and
      otherwise the version grows by one and every listener is about to be told. */
  lemma RefreshTakesOver(s: Sys, next: seq<Item>, preferSnapshot: bool)
    requires s.stage == Idle && NameSorted(next)
    ensures var t := Next(s, BeginRefresh(next, preferSnapshot));
            && t.Some? && SameInventory(t.value.items, next)
            && t.value.channels == s.channels && t.value.conns == s.conns && t.value.nextID == s.nextID
            && (if SameInventory(s.items, next) then t.value == s
                else && t.value.version == s.version + 1
                     && t.value.stage.Publishing? && t.value.stage.todo == s.channels.Keys)
  {
  }

  /** The inventory the daemon last listed. */
  function Latest(known: seq<Item>, schedule: seq<Action>): seq<Item>
    decreases |schedule|
  {
    if schedule == [] then known
    else Latest(if schedule[0].BeginRefresh? then schedule[0].next else known, schedule[1..])
  }

  lemma LatestStep(s: Sys, known: seq<Item>, a: Action)
    requires SameInventory(s.items, known) && Next(s, a).Some?
    ensures SameInventory(Next(s, a).value.items, if a.BeginRefresh? then a.next else known)
  {
    if a.BeginRefresh? { RefreshTakesOver(s, a.next, a.preferSnapshot); }
  }

  lemma {:induction false} LatestRun(s: Sys, known: seq<Item>, schedule: seq<Action>)
    requires SameInventory(s.items, known) && Run(s, schedule).Some?
    ensures SameInventory(Run(s, schedule).value.items, Latest(known, schedule))
    decreases |schedule|
  {
    if schedule != [] {
      var a := schedule[0];
      LatestStep(s, known, a);
      LatestRun(Next(s, a).value, if a.BeginRefresh? then a.next else known, schedule[1..]);
    }
  }

  lemma StableMapMore(m: map<string, Item>, item: Item)
    ensures StableMap(m[item.name := item]) == StableMap(m)[item.name := Stable(item)]
  {
  }

  lemma {:induction false} SameByName(a: seq<Item>, b: seq<Item>)
    requires SameInventory(a, b)
    ensures StableMap(ByName(a)) == StableMap(ByName(b))
  {
    if a == [] {
      assert b == [];
    } else {
      var n := |a| - 1;
      SameByName(a[..n], b[..n]);
      assert ItemEqual(a[n], b[n]);
      SameItem(a[n], b[n]);
      StableMapMore(ByName(a[..n]), a[n]);
      StableMapMore(ByName(b[..n]), b[n]);
    }
  }

  /** A subscribed client with nothing left to apply shows the inventory the daemon last listed, each
      item with everything recorded of it. */
  lemma ListenersShowLatest(items: seq<Item>, schedule: seq<Action>, s: Sys, id: nat)
    requires NameSorted(items) && Run(Init(items), schedule) == Some(s)
    requires s.stage == Idle && id in s.channels && s.channels[id] == None && id in s.conns && s.conns[id].wire == []
    ensures var shown, listed := s.conns[id].client.items, ByName(Latest(items, schedule));
            shown.Keys == listed.Keys && forall n :: n in shown ==> shown[n].name == listed[n].name && shown[n].record == listed[n].record
  {
    assert Reachable(s);
    CaughtUpClientIsCurrent(s, id);
    assert forall i :: 0 <= i < |items| ==> ItemEqual(items[i], items[i]);
    LatestRun(Init(items), items, schedule);
    SameByName(s.items, Latest(items, schedule));
    var shown, listed := s.conns[id].client.items, ByName(Latest(items, schedule));
    assert shown.Keys == StableMap(shown).Keys == StableMap(listed).Keys == listed.Keys;
    forall n | n in shown
      ensures shown[n].name == listed[n].name && shown[n].record == listed[n].record
    {
      assert StableMap(shown)[n] == StableMap(listed)[n];
      SameItem(shown[n], listed[n]);
    }
  }

  // ----- A refresh without interference -----

  /** The channels after the publisher has served some listeners. */
  function Served(channels: map<nat, Option<Update>>, ids: set<nat>, update: Update, version: nat, items: seq<Item>)
    : map<nat, Option<Update>>
  {
    map id | id in channels :: if id in ids then Reached(channels[id], update, version, items) else channels[id]
  }

  function Done(s: Sys): Sys
    requires s.stage.Publishing?
  {
    s.(channels := Served(s.channels, s.stage.todo, s.stage.cast.update, s.version, s.items), stage := Idle)
  }

  lemma RunThree(s: Sys, a: Action, b: Action, c: Action, t: Sys, u: Sys)
    requires Next(s, a) == Some(t) && Next(t, b) == Some(u)
    ensures Run(s, [a, b, c]) == Next(u, c)
  {
    assert [a, b, c][1..] == [b, c] && [b, c][1..] == [c];
    RunOne(u, c);
    assert Run(t, [b, c]) == Run(u, [c]);
  }

  lemma ServeOne(s: Sys, id: nat) returns (acts: seq<Action>, t: Sys)
    requires s.stage.Publishing? && id in s.stage.todo && id in s.channels
    ensures t == s.(channels := s.channels[id := Reached(s.channels[id], s.stage.cast.update, s.version, s.items)],
                    stage := Publishing(s.stage.todo - {id}, s.stage.cast))
    ensures Run(s, acts) == Some(t)
  {
    UndisturbedSteps(s, id);
    t := s.(channels := s.channels[id := Reached(s.channels[id], s.stage.cast.update, s.version, s.items)],
            stage := Publishing(s.stage.todo - {id}, s.stage.cast));
    if s.channels[id] == None {
      acts := [Offer(id)];
      RunOne(s, Offer(id));
    } else {
      acts := [Offer(id), Drain, SendReplacement];
      var u := Next(s, Offer(id)).value;
      RunThree(s, Offer(id), Drain, SendReplacement, u, Next(u, Drain).value);
    }
  }

  lemma {:induction false} ServeAll(s: Sys) returns (acts: seq<Action>)
    requires s.stage.Publishing? && s.stage.todo <= s.channels.Keys
    ensures Run(s, acts) == Some(Done(s))
    decreases |s.stage.todo|
  {
    if s.stage.todo == {} {
      acts := [EndRefresh];
      RunOne(s, EndRefresh);
      assert Done(s).channels == s.channels;
    } else {
      var id :| id in s.stage.todo;
      var first, t := ServeOne(s, id);
      var rest := ServeAll(t);
      acts := first + rest;
      RunAppend(s, first, rest);
      assert Done(t).channels == Done(s).channels;
    }
  }

  /** What the publisher's method leaves when the inventories differ. */
  ghost function Published(s: Sys, next: seq<Item>, preferSnapshot: bool): Sys {
    var update := CompactUpdate(Diff(s.version, s.version + 1, s.items, next), Snapshot(s.version + 1, next), preferSnapshot);
    s.(version := s.version + 1, items := next,
       channels := map id | id in s.channels :: Reached(s.channels[id], update, s.version + 1, next))
  }

  lemma PublishedWhenDone(s: Sys, next: seq<Item>, preferSnapshot: bool)
    requires s.stage == Idle && NameSorted(next) && !SameInventory(s.items, next)
    ensures var t := Next(s, BeginRefresh(next, preferSnapshot)).value;
            && t.stage.Publishing? && t.stage.todo <= t.channels.Keys && Done(t) == Published(s, next, preferSnapshot)
  {
    var t := Next(s, BeginRefresh(next, preferSnapshot)).value;
    assert Done(t).channels == Published(s, next, preferSnapshot).channels;
  }

  /** Taken without interference, the steps of a refresh do exactly what the method of the publisher
      does in its critical section. */
  lemma UndisturbedRefresh(s: Sys, next: seq<Item>, preferSnapshot: bool) returns (acts: seq<Action>)
    requires s.stage == Idle && NameSorted(next)
    ensures Run(s, [BeginRefresh(next, preferSnapshot)] + acts) ==
            Some(if SameInventory(s.items, next) then s else Published(s, next, preferSnapshot))
  {
    var a := BeginRefresh(next, preferSnapshot);
    RunOne(s, a);
    if SameInventory(s.items, next) {
      acts := [];
      assert [a] + acts == [a];
    } else {
      PublishedWhenDone(s, next, preferSnapshot);
      acts := ServeAll(Next(s, a).value);
      RunAppend(s, [a], acts);
    }
  }

  // ----- Subscribing -----

  /** A new listener has an id of its own, an empty channel, and the snapshot of the moment on its wire. */
  lemma SubscribeBegins(s: Sys)
    requires Reachable(s) && s.stage == Idle
    ensures var id, t := s.nextID + 1, Next(s, SubscribeConn);
            && id !in s.channels && id !in s.conns && t.Some? && t.value.version == s.version && t.value.items == s.items
            && t.value.channels == s.channels[id := None] && id in t.value.conns && t.value.conns == s.conns[id := t.value.conns[id]]
            && t.value.conns[id].wire == [Registered(Snapshot(s.version, s.items))]
  {
    ReachableInv(s);
  }

  lemma SubscribedStep(s: Sys, id: nat, a: Action)
    requires id in s.channels && id in s.conns && id <= s.nextID && Next(s, a).Some? && a != UnsubscribeConn(id)
    ensures var t := Next(s, a).value; id in t.channels && id in t.conns && id <= t.nextID
  {
  }

  lemma {:induction false} SubscribedStays(s: Sys, id: nat, schedule: seq<Action>)
    requires id in s.channels && id in s.conns && id <= s.nextID
    requires Run(s, schedule).Some? && UnsubscribeConn(id) !in schedule
    ensures var t := Run(s, schedule).value; id in t.channels && id in t.conns
    decreases |schedule|
  {
    if schedule != [] {
      assert schedule[0] in schedule;
      SubscribedStep(s, id, schedule[0]);
      SubscribedStays(Next(s, schedule[0]).value, id, schedule[1..]);
    }
  }

  /** From its subscription until it leaves, a listener is owed exactly what leads to the daemon's
      inventory, whatever happens in between. */
  lemma SubscriberConverges(s: Sys, schedule: seq<Action>)
    requires Reachable(s) && s.stage == Idle && Run(Next(s, SubscribeConn).value, schedule).Some?
    requires UnsubscribeConn(s.nextID + 1) !in schedule && Run(Next(s, SubscribeConn).value, schedule).value.stage == Idle
    ensures var id, t := s.nextID + 1, Run(Next(s, SubscribeConn).value, schedule).value;
            && id in t.channels && id in t.conns && !t.conns[id].failed
            && StableResult(Fold(t.conns[id].client, t.conns[id].wire + Pending(t.channels[id]))) == Ok(Ideal(t.version, t.items))
  {
    var id, t := s.nextID + 1, Next(s, SubscribeConn).value;
    SubscribedStays(t, id, schedule);
    RunOne(s, SubscribeConn);
    ReachableOn(s, [SubscribeConn]);
    ReachableOn(t, schedule);
    EveryListenerConverges(Run(t, schedule).value, id);
  }

  /** Nothing is sent any more to a listener that left. */
  lemma LeftStep(s: Sys, id: nat, a: Action)
    requires CastOk(s) && id !in s.channels && id <= s.nextID && Next(s, a).Some?
    ensures var t := Next(s, a).value;
            && id !in t.channels && id <= t.nextID
            && (id in s.conns ==> id in t.conns && |t.conns[id].wire| <= |s.conns[id].wire|)
  {
  }

  lemma {:induction false} LeftStaysQuiet(s: Sys, id: nat, schedule: seq<Action>)
    requires Inv(s) && id !in s.channels && id <= s.nextID && Run(s, schedule).Some?
    ensures var t := Run(s, schedule).value;
            id !in t.channels && (id in s.conns ==> id in t.conns && |t.conns[id].wire| <= |s.conns[id].wire|)
    decreases |schedule|
  {
    if schedule != [] {
      LeftStep(s, id, schedule[0]);
      NextKeepsInv(s, schedule[0]);
      LeftStaysQuiet(Next(s, schedule[0]).value, id, schedule[1..]);
    }
  }

  lemma UnsubscribeLeaves(s: Sys, id: nat)
    requires s.stage == Idle
    ensures Next(s, UnsubscribeConn(id)) == Some(s.(channels := s.channels - {id}))
  {
  }

  // ----- Catching up -----

  lemma {:induction false} DeliverAll(s: Sys, id: nat) returns (acts: seq<Action>, t: Sys)
    requires Inv(s) && id in s.conns
    ensures Run(s, acts) == Some(t) && Inv(t)
    ensures t.version == s.version && t.items == s.items && t.stage == s.stage && t.channels == s.channels
    ensures id in t.conns && t.conns[id].wire == []
    decreases |s.conns[id].wire|
  {
    ListenerHolds(s, id);
    if s.conns[id].wire == [] {
      acts, t := [], s;
    } else {
      var u := Next(s, Deliver(id)).value;
      NextKeepsInv(s, Deliver(id));
      DeliverKeeps(s.conns[id], None);
      var rest;
      rest, t := DeliverAll(u, id);
      acts := [Deliver(id)] + rest;
      assert acts[1..] == rest;
    }
  }

  lemma ReceiveAll(s: Sys, id: nat) returns (acts: seq<Action>, t: Sys)
    requires Inv(s) && id in s.channels
    ensures Run(s, acts) == Some(t) && Inv(t)
    ensures t.version == s.version && t.items == s.items && t.stage == s.stage
    ensures id in t.channels && t.channels[id] == None && id in t.conns
  {
    ListenerHolds(s, id);
    if s.channels[id] == None {
      acts, t := [], s;
    } else {
      acts, t := [Pump(id)], Next(s, Pump(id)).value;
      RunOne(s, Pump(id));
      NextKeepsInv(s, Pump(id));
    }
  }

  lemma NothingLeft(s: Sys, id: nat)
    requires Inv(s) && s.stage == Idle && id in s.channels && s.channels[id] == None && id in s.conns && s.conns[id].wire == []
    ensures StableClient(s.conns[id].client) == Ideal(s.version, s.items)
  {
    ListenerHolds(s, id);
    assert s.conns[id].wire + Pending(None) == [];
  }

  /** A listener can always catch up by receiving and applying alone, and then shows the daemon's
      inventory. */
  lemma CanCatchUp(s: Sys, id: nat) returns (acts: seq<Action>, t: Sys)
    requires Reachable(s) && s.stage == Idle && id in s.channels
    ensures Run(s, acts) == Some(t) && t.version == s.version && t.items == s.items
    ensures id in t.conns && t.conns[id].wire == [] && StableClient(t.conns[id].client) == Ideal(s.version, s.items)
  {
    ReachableInv(s);
    var first, u := ReceiveAll(s, id);
    var rest;
    rest, t := DeliverAll(u, id);
    acts := first + rest;
    RunAppend(s, first, rest);
    NothingLeft(t, id);
  }

  /** A client that missed a patch notices at the next one. */
  lemma GapIsNoticed(c: Client, missed: Patch, patch: Patch)
    requires missed.baseVersion == c.version && missed.version == patch.baseVersion != c.version
    ensures ApplyUpdate(c, Update("patch", None, Some(missed))).Ok?
    ensures ApplyUpdate(c, Update("patch", None, Some(patch))) == Err(Gap(c.version, patch.baseVersion))
  {
  }

  /** An update is refused exactly if it is malformed or a patch for another version. */
  lemma RefusedExactly(c: Client, u: Update)
    ensures ApplyUpdate(c, u).Ok? <==>
              || (u.kind == "snapshot" && u.snapshot.Some?)
              || (u.kind == "patch" && u.patch.Some? && u.patch.value.baseVersion == c.version)
  {
  }

  /** The first message that is refused ends the connection: the client stays as it was, and applies
      nothing more. */
  lemma RefusalEndsConnection(s: Sys, id: nat)
    requires id in s.conns && Next(s, Deliver(id)).Some? && Apply(s.conns[id].client, s.conns[id].wire[0]).Err?
    ensures var t := Next(s, Deliver(id)).value;
            && id in t.conns && t.conns[id].failed && t.conns[id].client == s.conns[id].client
            && Next(t, Deliver(id)) == None
  {
  }

  /** A published snapshot can be applied by every client, a published patch exactly by one that shows
      the version before. */
  lemma EncodingsApply(c: Client, patch: Patch, snapshot: Snapshot, preferSnapshot: bool)
    ensures ApplyUpdate(c, CompactUpdate(patch, snapshot, preferSnapshot)).Ok? <==> preferSnapshot || c.version == patch.baseVersion
  {
  }

  /** A tick brings new elapsed fields and leaves everything else. */
  lemma TickShows(s: Sys, id: nat, ticks: map<string, Elapsed>, n: string)
    requires id in s.conns && n in s.conns[id].client.items
    ensures var t := Next(s, Tick(id, ticks));
            && t.Some? && id in t.value.conns && n in t.value.conns[id].client.items
            && var before, item := s.conns[id].client.items[n], t.value.conns[id].client.items[n];
               && ItemEqual(item, before)
               && Elapsed(item.uptime, item.nextRunIn, item.lifetime)
                  == if n in ticks then ticks[n] else Elapsed(before.uptime, before.nextRunIn, before.lifetime)
  {
  }
}
