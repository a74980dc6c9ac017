/** What the keys, the ticks and the updates of the interactive listener do, field by field
    (listen.go). */
module ListenKeys {
  import opened Options
  import opened Ordering
  import opened Inventory
  import opened Replication
  import opened ListenModel
  import Supervisor

  // ----- Keys -----

  /** Neither a confirmation nor the help page takes the key. */
  predicate Plain(mode: Mode) { mode.confirm == None && !mode.screen.help }

  /** The screen a key leads to: q and ctrl+c quit, `?` shows the help, which `?`, Esc and q hide, Left
      and Right fold and unfold the details, Enter toggles them, and g waits for a second one. */
  predicate Leads(mode: Mode, key: Key, some: bool, after: Screen) {
    var before := mode.screen;
    && (after.quitting <==> before.quitting || (Plain(mode) && key in {Q, CtrlC}))
    && (after.help <==> if Plain(mode) then key == Question
                        else before.help && (mode.confirm.Some? || key !in {Question, Esc, Q}))
    && (after.expanded <==>
          if Plain(mode) && key == Left then false
          else if Plain(mode) && key == Right && some then true
          else if Plain(mode) && key == Enter && some then !before.expanded
          else before.expanded)
    && (after.gPending <==> if Plain(mode) then key == G && !before.gPending else before.gPending)
    && after.width == before.width && after.height == before.height
  }

  lemma ScreenAfter(mode: Mode, key: Key, some: bool, targets: seq<string>)
    ensures Leads(mode, key, some, Pressed(mode, key, some, targets).0.screen)
  {
    if mode.confirm.Some? {
      ScreenKept(mode, key);
    } else if !mode.screen.help {
      var pending := mode.(screen := mode.screen.(gPending := key == G && !mode.screen.gPending));
      PlainScreen(pending, key, some, targets);
      PlainLeads(mode, key, some);
    }
  }

  lemma PlainLeads(mode: Mode, key: Key, some: bool)
    requires Plain(mode)
    ensures Leads(mode, key, some, Glanced(mode.screen.(gPending := key == G && !mode.screen.gPending), key, some))
  {
  }

  lemma PlainScreen(mode: Mode, key: Key, some: bool, targets: seq<string>)
    ensures PlainKey(mode, key, some, targets).0.screen == Glanced(mode.screen, key, some)
  {
  }

  lemma ScreenKept(mode: Mode, key: Key)
    requires mode.confirm.Some?
    ensures UpdateConfirm(mode, key).0.screen == mode.screen
  {
  }

  /** Which action a key launches, and on what: the four action keys on the targets of the moment, and
      Enter on what a confirmed deletion named. */
  lemma LaunchedBy(mode: Mode, key: Key, some: bool, targets: seq<string>)
    requires ConfirmsDelete(mode)
    ensures var command := Pressed(mode, key, some, targets).1;
            && (Plain(mode) && mode.action == None && targets != [] ==>
                  command == if key == E then Some(Command(Exec, targets)) else if key == S then Some(Command(Stop, targets))
                             else if key == Plus then Some(Command(Enable, targets))
                             else if key == Minus then Some(Command(Disable, targets)) else None)
            && (Plain(mode) && (mode.action.Some? || targets == []) ==> command == None)
            && (mode.confirm.Some? ==>
                  command == if key == Enter && mode.confirm.value.yes && mode.action == None
                             then Some(Command(Delete, mode.confirm.value.names)) else None)
            && (!Plain(mode) && mode.confirm == None ==> command == None)
  {
    if mode.confirm.Some? { ConfirmLaunch(mode, key); }
  }

  lemma ConfirmLaunch(mode: Mode, key: Key)
    requires ConfirmsDelete(mode) && mode.confirm.Some?
    ensures UpdateConfirm(mode, key).1 ==
            if key == Enter && mode.confirm.value.yes && mode.action == None
            then Some(Command(Delete, mode.confirm.value.names)) else None
  {
  }

  /** The confirmation after a key: Remove asks for one, and asks for the names to be deleted again; Esc,
      n and Enter end it; Left and y choose yes, Right chooses no, Tab the other. */
  lemma ConfirmationAfter(mode: Mode, key: Key, some: bool, targets: seq<string>)
    ensures var before, after := mode.confirm, Pressed(mode, key, some, targets).0.confirm;
            && (before == None ==>
                  after == if Plain(mode) && key == Remove && targets != [] && mode.action == None
                           then Some(Confirm(Delete, targets, false)) else None)
            && (before.Some? ==>
                  if key in {Esc, No, Enter} then after == None
                  else && after.Some? && after.value.action == before.value.action && after.value.names == before.value.names
                       && (after.value.yes <==> if key in {Left, Yes} then true else if key == Right then false
                                                else if key == Tab then !before.value.yes else before.value.yes))
  {
    if mode.confirm.Some? { ConfirmationStep(mode, key); }
  }

  lemma ConfirmationStep(mode: Mode, key: Key)
    requires mode.confirm.Some?
    ensures var before, after := mode.confirm, UpdateConfirm(mode, key).0.confirm;
            if key in {Esc, No, Enter} then after == None
            else && after.Some? && after.value.action == before.value.action && after.value.names == before.value.names
                 && (after.value.yes <==> if key in {Left, Yes} then true else if key == Right then false
                                          else if key == Tab then !before.value.yes else before.value.yes)
  {
  }

  /** The keys that move the cursor or change marks: in plain use, and g only as the second of two. */
  lemma NavigationKeys(mode: Mode, key: Key)
    ensures Navigates(mode, key) <==>
              && Plain(mode)
              && (key in {Up, Down, Home, End, Esc, Space, V} || (key == G && mode.screen.gPending))
  {
  }

  /** A key moves the cursor by one row, or to the first or the last one, and never out of the list. */
  lemma CursorAfter(key: Key, selected: nat, count: nat)
    requires selected < count
    ensures key == Up ==> MovedTo(key, selected, count) == if selected == 0 then 0 else selected - 1
    ensures key == Down ==> MovedTo(key, selected, count) == if selected == count - 1 then selected else selected + 1
    ensures key == End ==> MovedTo(key, selected, count) == count - 1
    ensures key == Home || key == G ==> MovedTo(key, selected, count) == 0
    ensures 0 <= Clamp(selected, count) < count
  {
  }

  lemma ClampStays(selected: int, count: nat)
    ensures 0 <= Clamp(selected, count) && (count > 0 ==> Clamp(selected, count) < count)
    ensures 0 <= selected < count ==> Clamp(selected, count) == selected
    ensures selected < 0 ==> Clamp(selected, count) == 0
    ensures selected >= count > 0 ==> Clamp(selected, count) == count - 1
  {
  }

  lemma InSlice(sorted: seq<string>, lo: nat, hi: nat, name: string)
    requires lo <= hi <= |sorted|
    ensures name in Elements(sorted[lo..hi]) <==> exists i :: lo <= i < hi && sorted[i] == name
  {
    var part := sorted[lo..hi];
    assert name in Elements(part) <==> name in part;
    if name in part {
      var k :| 0 <= k < |part| && part[k] == name;
      assert sorted[lo + k] == name;
    }
    if i :| lo <= i < hi && sorted[i] == name {
      assert part[i - lo] == name;
    }
  }

  /** A range is exactly the names on the rows from the anchor to the cursor, in either direction. */
  lemma RangeMarks(sorted: seq<string>, a: int, b: int, name: string)
    ensures name in Between(sorted, a, b) <==>
            exists i :: 0 <= i < |sorted| && sorted[i] == name && (a <= i <= b || b <= i <= a)
  {
    var lo, hi := if a <= b then a else b, if a <= b then b else a;
    lo, hi := if lo < 0 then 0 else lo, if hi >= |sorted| then |sorted| - 1 else hi;
    if lo <= hi {
      InSlice(sorted, lo, hi + 1, name);
    }
  }

  /** Space changes the mark of one name. */
  lemma FlippedMarks(marked: set<string>, name: string, other: string)
    ensures other in Flipped(marked, name) <==> if other == name then other !in marked else other in marked
  {
  }

  /** The targets of an action: every marked name, or else the one under the cursor; in order, each once. */
  lemma TargetNames(listener: Listener, name: string)
    ensures name in listener.Targets() <==>
            if listener.marked != {} then name in listener.marked else name == listener.Cursor() && name != ""
    ensures Sorted(listener.Targets()) && Distinct(listener.Targets())
  {
    assert name in Elements(Listing(listener.marked)) <==> name in Listing(listener.marked);
  }

  // ----- Ticks -----

  /** The elapsed fields of an item: how long it runs, if it does and its start is known; how long it
      exists, if its creation is known; and how long it still waits, if it does, which is "imminent"
      when no time is left. What is not known stays as it was. */
  lemma ElapsedFields(item: Item, now: int, clock: Clock)
    ensures var r, d := item.record, Derived(item, now, clock);
            && d.record == item.record && d.name == item.name
            && (forall t :: r.state == Supervisor.Running && r.started != "" && clock.parse(r.started) == Some(t) ==>
                  d.uptime == clock.text(clock.round(now - t)))
            && (r.state != Supervisor.Running || r.started == "" || clock.parse(r.started) == None ==> d.uptime == item.uptime)
            && (forall t :: r.createdAt != "" && clock.parse(r.createdAt) == Some(t) ==>
                  d.lifetime == clock.text(clock.round(now - t)))
            && (r.createdAt == "" || clock.parse(r.createdAt) == None ==> d.lifetime == item.lifetime)
            && (forall t :: r.state == Supervisor.Backoff && r.nextRun != "" && clock.parse(r.nextRun) == Some(t) ==>
                  d.nextRunIn == if clock.round(t - now) <= 0 then "imminent" else clock.text(clock.round(t - now)))
            && (r.state != Supervisor.Backoff || r.nextRun == "" || clock.parse(r.nextRun) == None ==> d.nextRunIn == item.nextRunIn)
  {
  }

  // ----- Change marks -----

  lemma {:induction false} DifferingNames(before: map<string, Item>, items: seq<Item>, n: nat, name: string)
    requires n <= |items|
    ensures name in Differing(before, items, n) <==> exists i :: 0 <= i < n && items[i].name == name && !Unchanged(before, items[i])
  {
    if n > 0 { DifferingNames(before, items, n - 1, name); }
  }

  /** After a snapshot exactly those existing names are marked that were before or differ; the mark of
      a name that does not differ keeps its time. */
  lemma SnapshotMarksExactly(before: map<string, Item>, changed: map<string, int>, items: seq<Item>, now: int, name: string)
    ensures var marks := SnapshotMarks(before, changed, items, now);
            var differs := exists i :: 0 <= i < |items| && items[i].name == name && !Unchanged(before, items[i]);
            && (name in marks <==> name in ByName(items) && (name in changed || differs))
            && (name in marks ==> marks[name] == if differs then now else changed[name])
  {
    DifferingNames(before, items, |items|, name);
  }

  /** After a patch exactly those names are marked that were before and were not removed, or differ from
      what the removals left; the mark of a name that does not differ keeps its time. */
  lemma PatchMarksExactly(before: map<string, Item>, changed: map<string, int>, patch: Patch, now: int, name: string)
    ensures var marks := PatchMarks(before, changed, patch, now);
            var differs := exists i :: 0 <= i < |patch.upsert| && patch.upsert[i].name == name
                                       && (name in patch.removed || !Unchanged(before, patch.upsert[i]));
            && (name in marks <==> (name in changed && name !in patch.removed) || differs)
            && (name in marks ==> marks[name] == if differs then now else changed[name])
  {
    var base := before - Elements(patch.removed);
    DifferingNames(base, patch.upsert, |patch.upsert|, name);
    forall i | 0 <= i < |patch.upsert| && patch.upsert[i].name == name
      ensures Unchanged(base, patch.upsert[i]) <==> name !in patch.removed && Unchanged(before, patch.upsert[i])
    {
      assert name in Elements(patch.removed) <==> name in patch.removed;
    }
  }
}
