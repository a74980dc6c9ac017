/** Convergence of the inventory stream under every interleaving. */
module ReplicationProofs {
  import opened Options
  import opened Ordering
  import opened Inventory
  import opened Replication

  // ----- Folding messages -----

  lemma {:induction false} FoldAppend(c: Client, a: seq<Message>, b: seq<Message>)
    ensures Fold(c, a + b) == if Fold(c, a).Err? then Fold(c, a) else Fold(Fold(c, a).client, b)
    decreases |a|
  {
    if a == [] {
      assert a + b == b;
    } else {
      assert (a + b)[1..] == a[1..] + b;
      var r := Apply(c, a[0]);
      if r.Ok? { FoldAppend(r.client, a[1..], b); }
    }
  }

  /** Clients that agree up to the elapsed fields react alike. */
  lemma ApplyStable(c: Client, d: Client, m: Message)
    requires StableClient(c) == StableClient(d)
    ensures StableResult(Apply(c, m)) == StableResult(Apply(d, m))
  {
    if m.Updated? && m.update.kind == "patch" && m.update.patch.Some? {
      var p := m.update.patch.value;
      assert c.items.Keys == StableMap(c.items).Keys == d.items.Keys;
      forall k | k in PatchItems(c.items, p)
        ensures Stable(PatchItems(c.items, p)[k]) == Stable(PatchItems(d.items, p)[k])
      {
        if k in c.items {
          assert Stable(c.items[k]) == StableMap(c.items)[k] == Stable(d.items[k]);
        }
      }
      assert StableMap(PatchItems(c.items, p)) == StableMap(PatchItems(d.items, p));
    }
  }

  lemma {:induction false} FoldStable(c: Client, d: Client, messages: seq<Message>)
    requires StableClient(c) == StableClient(d)
    ensures StableResult(Fold(c, messages)) == StableResult(Fold(d, messages))
    decreases |messages|
  {
    if messages != [] {
      ApplyStable(c, d, messages[0]);
      var r, q := Apply(c, messages[0]), Apply(d, messages[0]);
      if r.Ok? && q.Ok? {
        FoldStable(r.client, q.client, messages[1..]);
      }
    }
  }

  lemma TickStable(c: Client, ticks: map<string, Elapsed>)
    ensures StableClient(RefreshElapsed(c, ticks)) == StableClient(c)
  {
    assert StableMap(RefreshElapsed(c, ticks).items) == StableMap(c.items);
  }

  // ----- One connection -----

  lemma DeliverKeeps(c: Conn, channel: Option<Update>)
    requires BacklogOk(c, channel) && c.wire != []
    ensures !Delivered(c).failed
    ensures Fold(Delivered(c).client, Delivered(c).wire + Pending(channel)) == Fold(c.client, c.wire + Pending(channel))
  {
    assert (c.wire + Pending(channel))[1..] == c.wire[1..] + Pending(channel);
    assert (c.wire + Pending(channel))[0] == c.wire[0];
  }

  lemma TickKeeps(c: Conn, channel: Option<Update>, ticks: map<string, Elapsed>)
    ensures var d := c.(client := RefreshElapsed(c.client, ticks));
            StableResult(Fold(d.client, d.wire + Pending(channel))) == StableResult(Fold(c.client, c.wire + Pending(channel)))
  {
    TickStable(c.client, ticks);
    FoldStable(RefreshElapsed(c.client, ticks), c.client, c.wire + Pending(channel));
  }

  /** A full snapshot brings any working connection to the published state. */
  lemma RecoveryConverges(c: Conn, version: nat, items: seq<Item>)
    requires BacklogOk(c, None)
    ensures Converges(c, Some(SnapshotUpdate(version, items)), version, items)
  {
    var u := Updated(SnapshotUpdate(version, items));
    assert c.wire + Pending(None) == c.wire;
    FoldAppend(c.client, c.wire, [u]);
    var d := Fold(c.client, c.wire).client;
    assert Fold(d, [u]) == Ok(ApplySnapshot(Snapshot(version, items)));
  }

  /** The published difference carries a connection from the previous version to the new one. */
  lemma PatchConverges(c: Conn, version: nat, before: seq<Item>, items: seq<Item>)
    requires Converges(c, None, version, before) && Distinct(Names(items))
    ensures Converges(c, Some(Update("patch", None, Some(Diff(version, version + 1, before, items)))), version + 1, items)
  {
    var p := Diff(version, version + 1, before, items);
    var u := Updated(Update("patch", None, Some(p)));
    assert c.wire + Pending(None) == c.wire;
    FoldAppend(c.client, c.wire, [u]);
    var d := Fold(c.client, c.wire).client;
    DiffApplies(version, version + 1, before, items, d.items);
    assert Fold(d, [u]) == Ok(Client(version + 1, PatchItems(d.items, p)));
  }

  // ----- One step of the system, for any per-connection property -----

  type ConnInv = (Conn, Option<Update>, Option<(nat, seq<Item>)>) -> bool

  /** A listener whose channel is being replaced is owed nothing in particular. */
  ghost predicate Weakens(ok: ConnInv) {
    forall c, channel, target :: ok(c, channel, target) ==> ok(c, channel, None)
  }

  lemma BeginStep(ok: ConnInv, s: Sys, next: seq<Item>, preferSnapshot: bool)
    requires CastOk(s) && ListenersHold(ok, s) && Next(s, BeginRefresh(next, preferSnapshot)).Some?
    ensures var t := Next(s, BeginRefresh(next, preferSnapshot)).value;
            CastOk(t) && ListenersHold(ok, t)
  {
    var t := Next(s, BeginRefresh(next, preferSnapshot)).value;
    assert t != s ==> forall id :: id in t.channels ==>
      Target(t.version, t.items, t.stage, id) == Target(s.version, s.items, s.stage, id);
  }

  lemma OfferStep(ok: ConnInv, s: Sys, id: nat)
    requires Weakens(ok) && CastOk(s) && ListenersHold(ok, s) && Next(s, Offer(id)).Some?
    requires s.channels[id] == None ==> ok(s.conns[id], Some(s.stage.cast.update), Some((s.version, s.items)))
    ensures var t := Next(s, Offer(id)).value;
            CastOk(t) && ListenersHold(ok, t)
  {
    var t := Next(s, Offer(id)).value;
    forall k | k in t.channels
      ensures ok(t.conns[k], t.channels[k], Target(t.version, t.items, t.stage, k))
    {
      assert ok(s.conns[k], s.channels[k], Target(s.version, s.items, s.stage, k));
    }
  }

  lemma DrainStep(ok: ConnInv, s: Sys)
    requires CastOk(s) && ListenersHold(ok, s) && Next(s, Drain).Some?
    ensures var t := Next(s, Drain).value;
            CastOk(t) && ListenersHold(ok, t)
  {
    var t := Next(s, Drain).value;
    forall k | k in t.channels
      ensures ok(t.conns[k], t.channels[k], Target(t.version, t.items, t.stage, k))
    {
      assert ok(s.conns[k], s.channels[k], Target(s.version, s.items, s.stage, k));
      assert ok(s.conns[k], None, None);
    }
  }

  lemma ReplacementStep(ok: ConnInv, s: Sys)
    requires CastOk(s) && ListenersHold(ok, s) && Next(s, SendReplacement).Some?
    requires ok(s.conns[s.stage.id], Some(SnapshotUpdate(s.version, s.items)), Some((s.version, s.items)))
    ensures var t := Next(s, SendReplacement).value;
            CastOk(t) && ListenersHold(ok, t)
  {
    var t := Next(s, SendReplacement).value;
    forall k | k in t.channels
      ensures ok(t.conns[k], t.channels[k], Target(t.version, t.items, t.stage, k))
    {
      assert ok(s.conns[k], s.channels[k], Target(s.version, s.items, s.stage, k));
    }
  }

  lemma SubscribeStep(ok: ConnInv, s: Sys)
    requires CastOk(s) && ListenersHold(ok, s) && Next(s, SubscribeConn).Some?
    requires var c := Conn([Registered(Snapshot(s.version, s.items))], Client(0, map[]), false);
             ok(c, None, None) && ok(c, None, Some((s.version, s.items)))
    ensures var t := Next(s, SubscribeConn).value;
            CastOk(t) && ListenersHold(ok, t)
  {
  }

  /** A step of one connection: its goroutine or its client moved. */
  lemma ConnStep(ok: ConnInv, s: Sys, id: nat, c: Conn, channel: Option<Update>, t: Sys)
    requires CastOk(s) && ListenersHold(ok, s) && id in s.conns && ok(c, None, None)
    requires id in s.channels ==>
               && ok(c, channel, Target(s.version, s.items, s.stage, id))
               && (s.channels[id] == None ==> channel == None)
    requires t == s.(conns := s.conns[id := c],
                     channels := if id in s.channels then s.channels[id := channel] else s.channels)
    ensures CastOk(t) && ListenersHold(ok, t)
  {
  }

  lemma EndStep(ok: ConnInv, s: Sys, a: Action)
    requires CastOk(s) && ListenersHold(ok, s) && Next(s, a).Some? && (a.EndRefresh? || a.UnsubscribeConn?)
    ensures CastOk(Next(s, a).value) && ListenersHold(ok, Next(s, a).value)
  {
  }

  // ----- One step of the system -----

  lemma OfferConverges(c: Conn, update: Update, version: nat, before: seq<Item>, items: seq<Item>)
    requires Carries(update, version, before, items) && ConnOk(c, None, Some((version - 1, before))) && NameSorted(items)
    ensures ConnOk(c, Some(update), Some((version, items)))
  {
    if update == SnapshotUpdate(version, items) {
      RecoveryConverges(c, version, items);
    } else {
      PatchConverges(c, version - 1, before, items);
    }
  }

  lemma FreshConverges(version: nat, items: seq<Item>)
    ensures ConnOk(Conn([Registered(Snapshot(version, items))], Client(0, map[]), false), None, Some((version, items)))
  {
    var first := [Registered(Snapshot(version, items))];
    assert Fold(Client(0, map[]), first) == Ok(ApplySnapshot(Snapshot(version, items)));
    assert first + Pending(None) == first;
  }

  lemma SameBacklog(c: Conn, channel: Option<Update>, d: Conn, next: Option<Update>, target: Option<(nat, seq<Item>)>)
    requires ConnOk(c, channel, target) && !d.failed
    requires StableResult(Fold(d.client, d.wire + Pending(next))) == StableResult(Fold(c.client, c.wire + Pending(channel)))
    ensures ConnOk(d, next, target)
  {
  }

  lemma PumpedOk(c: Conn, update: Update, target: Option<(nat, seq<Item>)>)
    requires ConnOk(c, Some(update), target)
    ensures var d := c.(wire := c.wire + [Updated(update)]);
            ConnOk(d, None, None) && ConnOk(d, None, target)
  {
    var d := c.(wire := c.wire + [Updated(update)]);
    assert d.wire + Pending(None) == d.wire == c.wire + Pending(Some(update));
    SameBacklog(c, Some(update), d, None, target);
  }

  lemma DeliveredOk(c: Conn, channel: Option<Update>, target: Option<(nat, seq<Item>)>)
    requires ConnOk(c, channel, target) && c.wire != []
    ensures ConnOk(Delivered(c), channel, target)
  {
    DeliverKeeps(c, channel);
    SameBacklog(c, channel, Delivered(c), channel, target);
  }

  lemma TickedOk(c: Conn, channel: Option<Update>, target: Option<(nat, seq<Item>)>, ticks: map<string, Elapsed>)
    requires ConnOk(c, channel, target)
    ensures ConnOk(c.(client := RefreshElapsed(c.client, ticks)), channel, target)
  {
    TickKeeps(c, channel, ticks);
    SameBacklog(c, channel, c.(client := RefreshElapsed(c.client, ticks)), channel, target);
  }

  lemma ListenerHolds(s: Sys, id: nat)
    requires ListenersHold(ConnOk, s)
    ensures id in s.conns ==> ConnOk(s.conns[id], None, None)
    ensures id in s.channels ==> id in s.conns && ConnOk(s.conns[id], s.channels[id], Target(s.version, s.items, s.stage, id))
  {
  }

  lemma ConnOkWeakens()
    ensures Weakens(ConnOk)
  {
  }

  lemma OfferedOk(s: Sys, id: nat)
    requires Inv(s) && s.stage.Publishing? && id in s.stage.todo && id in s.channels && s.channels[id] == None
    ensures id in s.conns && ConnOk(s.conns[id], Some(s.stage.cast.update), Some((s.version, s.items)))
  {
    ListenerHolds(s, id);
    OfferConverges(s.conns[id], s.stage.cast.update, s.version, s.stage.cast.before, s.items);
  }

  lemma OfferKeepsInv(s: Sys, id: nat)
    requires Inv(s) && Next(s, Offer(id)).Some?
    ensures Inv(Next(s, Offer(id)).value)
  {
    ConnOkWeakens();
    if s.channels[id] == None {
      OfferedOk(s, id);
    }
    OfferStep(ConnOk, s, id);
  }

  lemma ReplacementKeepsInv(s: Sys)
    requires Inv(s) && Next(s, SendReplacement).Some?
    ensures Inv(Next(s, SendReplacement).value)
  {
    ListenerHolds(s, s.stage.id);
    RecoveryConverges(s.conns[s.stage.id], s.version, s.items);
    ReplacementStep(ConnOk, s);
  }

  lemma ConnKeepsInv(s: Sys, a: Action)
    requires Inv(s) && Next(s, a).Some? && (a.Pump? || a.Deliver? || a.Tick?)
    ensures Inv(Next(s, a).value)
  {
    var t := Next(s, a).value;
    var c := s.conns[a.id];
    var channel := if a.id in s.channels then s.channels[a.id] else None;
    var target := if a.id in s.channels then Target(s.version, s.items, s.stage, a.id) else None;
    ListenerHolds(s, a.id);
    match a
    case Pump(id) =>
      PumpedOk(c, channel.value, target);
      ConnStep(ConnOk, s, id, t.conns[id], None, t);
    case Deliver(id) =>
      DeliveredOk(c, None, None);
      DeliveredOk(c, channel, target);
      assert id in s.channels ==> s.channels[id := channel] == s.channels;
      ConnStep(ConnOk, s, id, Delivered(c), channel, t);
    case Tick(id, ticks) =>
      TickedOk(c, None, None, ticks);
      TickedOk(c, channel, target, ticks);
      assert id in s.channels ==> s.channels[id := channel] == s.channels;
      ConnStep(ConnOk, s, id, t.conns[id], channel, t);
  }

  lemma NextKeepsInv(s: Sys, a: Action)
    requires Inv(s) && Next(s, a).Some?
    ensures Inv(Next(s, a).value)
  {
    match a
    case BeginRefresh(next, preferSnapshot) => BeginStep(ConnOk, s, next, preferSnapshot);
    case Drain => DrainStep(ConnOk, s);
    case EndRefresh => EndStep(ConnOk, s, a);
    case UnsubscribeConn(id) => EndStep(ConnOk, s, a);
    case Offer(id) => OfferKeepsInv(s, id);
    case SendReplacement => ReplacementKeepsInv(s);
    case SubscribeConn =>
      FreshConverges(s.version, s.items);
      SubscribeStep(ConnOk, s);
    case Pump(_) | Deliver(_) | Tick(_, _) => ConnKeepsInv(s, a);
  }

  lemma {:induction false} RunKeepsInv(s: Sys, schedule: seq<Action>)
    requires Inv(s) && Run(s, schedule).Some?
    ensures Inv(Run(s, schedule).value)
    decreases |schedule|
  {
    if schedule != [] {
      NextKeepsInv(s, schedule[0]);
      RunKeepsInv(Next(s, schedule[0]).value, schedule[1..]);
    }
  }

  lemma ReachableInv(s: Sys)
    requires Reachable(s)
    ensures Inv(s)
  {
    var items, schedule :| NameSorted(items) && Run(Init(items), schedule) == Some(s);
    RunKeepsInv(Init(items), schedule);
  }

  // ----- The main results -----

  /** Whatever happened before, no client ever meets a version gap or any other apply error, and
      between refreshes everything a subscribed client still has to apply ends at exactly the
      daemon's version and inventory, up to the elapsed fields, even if patches were dropped. */
  lemma EveryListenerConverges(s: Sys, id: nat)
    requires Reachable(s) && id in s.conns
    ensures !s.conns[id].failed && Fold(s.conns[id].client, s.conns[id].wire).Ok?
    ensures id in s.channels ==> Fold(s.conns[id].client, s.conns[id].wire + Pending(s.channels[id])).Ok?
    ensures id in s.channels && s.stage == Idle ==>
              StableResult(Fold(s.conns[id].client, s.conns[id].wire + Pending(s.channels[id]))) == Ok(Ideal(s.version, s.items))
  {
    ReachableInv(s);
    assert s.conns[id].wire + Pending(None) == s.conns[id].wire;
    ListenerHolds(s, id);
  }

  /** A subscribed client with nothing left to apply shows the daemon's inventory. */
  lemma CaughtUpClientIsCurrent(s: Sys, id: nat)
    requires Reachable(s) && s.stage == Idle && id in s.channels && s.channels[id] == None
    requires id in s.conns && s.conns[id].wire == []
    ensures s.conns[id].client.version == s.version
    ensures StableMap(s.conns[id].client.items) == StableMap(ByName(s.items))
  {
    EveryListenerConverges(s, id);
    assert s.conns[id].wire + Pending(s.channels[id]) == [];
  }

  /** The replacement is sent into an empty channel, whatever the receivers did meanwhile: the
      send never blocks with the mutex held. */
  lemma ReplacementNeverBlocks(s: Sys)
    requires Reachable(s) && s.stage.Sending?
    ensures Next(s, SendReplacement).Some?
  {
    ReachableInv(s);
  }

  lemma ReachableCastOk(s: Sys)
    requires Reachable(s)
    ensures CastOk(s)
  {
    ReachableInv(s);
  }

  /** A refresh that began can always go on and finish. */
  lemma RefreshCanProceed(s: Sys) returns (a: Action)
    requires Reachable(s) && s.stage != Idle
    ensures (a.Offer? || a.Drain? || a.SendReplacement? || a.EndRefresh?) && Next(s, a).Some?
  {
    ReachableCastOk(s);
    if s.stage.Draining? {
      a := Drain;
    } else if s.stage.Sending? {
      a := SendReplacement;
    } else if s.stage.todo == {} {
      a := EndRefresh;
    } else {
      var id :| id in s.stage.todo;
      a := Offer(id);
    }
  }

  /** Undisturbed, the steps for one listener do what the loop of the publisher does. */
  lemma UndisturbedSteps(s: Sys, id: nat)
    requires s.stage.Publishing? && id in s.stage.todo && id in s.channels
    ensures var done := s.(
              channels := s.channels[id := Reached(s.channels[id], s.stage.cast.update, s.version, s.items)],
              stage := Publishing(s.stage.todo - {id}, s.stage.cast));
            var t := Next(s, Offer(id));
            if s.channels[id] == None then t == Some(done)
            else t.Some? && var u := Next(t.value, Drain); u.Some? && Next(u.value, SendReplacement) == Some(done)
  {
    if s.channels[id] != None {
      var u := Next(Next(s, Offer(id)).value, Drain).value;
      var v := Next(u, SendReplacement).value;
      assert v.channels == s.channels[id := Some(SnapshotUpdate(s.version, s.items))];
    }
  }
}
