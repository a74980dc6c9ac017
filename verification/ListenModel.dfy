/** The interactive listener: its copy of the inventory, the cursor, and the marked names
    (listen.go). */
module ListenModel {
  import opened Numbers
  import opened Options
  import opened Ordering
  import opened Inventory
  import opened Replication
  import Supervisor

  const CHANGED_HIGHLIGHT: int := 3000

  datatype Action = Exec | Stop | Enable | Disable | Delete

  /** What the keys mean at the moment, and the connection. `action` is the action under way; the
      registration arrives once, before every update. */
  datatype Mode = Mode(screen: Screen, confirm: Option<Confirm>, action: Option<Action>, registered: bool, connected: bool)

  datatype Screen = Screen(gPending: bool, help: bool, expanded: bool, quitting: bool, width: int, height: int)

  predicate ConfirmsDelete(mode: Mode) {
    mode.confirm.Some? ==> mode.confirm.value.action == Delete && mode.confirm.value.names != []
  }

  datatype Confirm = Confirm(action: Action, names: seq<string>, yes: bool)

  /** The keys that mean something, keys of one meaning together: k is Up, j Down, h Left,
      l Right, G End, = Plus, d Remove; y and Y are Yes, n and N are No. */
  datatype Key =
    | Q | CtrlC | Esc | Up | Down | Left | Right | Home | End | G | Enter | Space | V | Question
    | E | S | Plus | Minus | Remove | Yes | No | Tab | Other

  /** An action launched on some names. */
  datatype Command = Command(action: Action, names: seq<string>)

  function Clamp(selected: int, count: nat): int {
    if selected < 0 then 0 else if selected >= count then Max(0, count - 1) else selected
  }

  /** The name under the cursor; none is "". */
  ghost function CursorName(names: set<string>, selected: int): string {
    if 0 <= selected < |Listing(names)| then Listing(names)[selected] else ""
  }

  /** The names at the positions between two, those outside the list left out. */
  function Between(sorted: seq<string>, a: int, b: int): set<string> {
    var lo, hi := Max(0, Min(a, b)), Min(|sorted| - 1, Max(a, b));
    if lo <= hi then Elements(sorted[lo..hi + 1]) else {}
  }

  /** The marks after the mark of one name was taken away, or else set. */
  function Flipped(marked: set<string>, name: string): set<string> {
    if name in marked then marked - {name} else marked + {name}
  }

  lemma FlippedInside(marked: set<string>, name: string, names: set<string>)
    requires marked <= names && name in names
    ensures Flipped(marked, name) <= names
  {
  }

  lemma ListingAt(names: set<string>, i: nat)
    requires i < |Listing(names)|
    ensures Listing(names)[i] in names
  {
    assert Listing(names)[i] in Elements(Listing(names));
  }

  lemma BetweenInside(sorted: seq<string>, a: int, b: int)
    ensures Between(sorted, a, b) <= Elements(sorted)
    ensures 0 <= b < |sorted| ==> sorted[b] in Between(sorted, a, b)
  {
    var lo, hi := Max(0, Min(a, b)), Min(|sorted| - 1, Max(a, b));
    if 0 <= b < |sorted| {
      assert sorted[lo..hi + 1][b - lo] == sorted[b];
    }
  }

  lemma CursorExists(names: set<string>, selected: int)
    ensures CursorName(names, selected) != "" ==> CursorName(names, selected) in names
    ensures |Listing(names)| == |names|
  {
    ListingLength(names);
    if 0 <= selected < |Listing(names)| { ListingAt(names, selected); }
  }

  /** The range loop. */
  method MarkRange(base: set<string>, sorted: seq<string>, a: int, b: int) returns (marked: set<string>)
    ensures marked == base + Between(sorted, a, b)
  {
    marked := base;
    var lo, hi := a, b;
    if lo > hi {
      lo, hi := hi, lo;
    }
    lo := Max(0, lo);
    hi := Min(|sorted| - 1, hi);
    if lo > hi {
      return;
    }
    for index := lo to hi + 1
      invariant marked == base + Elements(sorted[lo..index])
    {
      assert sorted[lo..index + 1] == sorted[lo..index] + [sorted[index]];
      Appended(sorted[lo..index], sorted[index]);
      marked := marked + {sorted[index]};
    }
  }

  /** The search loop. */
  method IndexOf(sorted: seq<string>, name: string) returns (index: int)
    ensures if name in sorted then 0 <= index < |sorted| && sorted[index] == name else index == -1
  {
    for i := 0 to |sorted|
      invariant forall j :: 0 <= j < i ==> sorted[j] != name
    {
      if sorted[i] == name {
        return i;
      }
    }
    index := -1;
  }

  // ----- The cursor and the marks -----

  class Listener {
    var version: nat
    var items: map<string, Item>
    /** When each recently changed item changed. */
    var changed: map<string, int>
    var selected: int
    var marked: set<string>
    var visual: bool
    var visualAnchor: int
    var visualBase: set<string>
    var mode: Mode

    /** The cursor is on an item if there is any, and nothing is marked that does not exist. */
    ghost predicate Valid()
      reads this
    {
      && 0 <= selected && (selected == 0 || selected < |items.Keys|)
      && marked <= items.Keys && visualBase <= items.Keys && changed.Keys <= items.Keys
      && (visual ==> items.Keys != {}) && (!visual ==> visualBase == {})
    }

    /** Nothing has changed before the registration arrives. */
    ghost predicate Ready()
      reads this
    {
      Valid() && (!mode.registered ==> changed == map[]) && ConfirmsDelete(mode)
    }

    ghost function Cursor(): string
      reads this
    {
      CursorName(items.Keys, selected)
    }

    constructor ()
      ensures Ready() && View() == Client(0, map[]) && marked == {} && !visual && !mode.registered
    {
      mode := Mode(Screen(false, false, false, false, 0, 0), None, None, false, false);
      version, items, changed := 0, map[], map[];
      selected, marked, visual, visualAnchor, visualBase := 0, {}, false, 0, {};
    }

    /** While a range is being marked: the marks are those from before it and the range from the
        anchor to the cursor, which includes the cursor. */
    ghost predicate MarksFollow()
      reads this
    {
      visual ==> marked == visualBase + Between(Listing(items.Keys), visualAnchor, selected) && Cursor() in marked
    }

    method SelectedName() returns (name: string)
      ensures name == Cursor()
    {
      var sorted := SortedNames(items.Keys);
      if 0 <= selected < |sorted| {
        return sorted[selected];
      }
      name := "";
    }

    ghost function Targets(): seq<string>
      reads this
    {
      if marked != {} then Listing(marked) else if Cursor() != "" then [Cursor()] else []
    }

    /** The marked names in order, or the one under the cursor if none is marked. */
    method TargetNames() returns (targets: seq<string>)
      ensures targets == Targets()
    {
      targets := SortedNames(marked);
      ListingLength(marked);
      if |targets| == 0 {
        var name := SelectedName();
        if name != "" {
          targets := [name];
        }
      }
    }

    method ClearSelection()
      requires Valid()
      modifies `marked, `visual, `visualBase
      ensures Valid() && marked == {} && !visual
    {
      marked, visual, visualBase := {}, false, {};
    }

    method ToggleCurrentSelection()
      requires Valid()
      modifies `marked, `visual, `visualBase
      ensures Valid()
      ensures Cursor() == "" ==> marked == old(marked) && visual == old(visual)
      ensures Cursor() != "" ==> !visual
      ensures Cursor() != "" ==> marked == Flipped(old(marked), Cursor())
    {
      var name := SelectedName();
      if name == "" {
        return;
      }
      CursorExists(items.Keys, selected);
      Flip(name);
    }

    method Flip(name: string)
      requires Valid() && name in items
      modifies `marked, `visual, `visualBase
      ensures Valid() && !visual && marked == Flipped(old(marked), name)
    {
      FlippedInside(marked, name, items.Keys);
      if name in marked {
        marked := marked - {name};
      } else {
        marked := marked + {name};
      }
      visual, visualBase := false, {};
    }

    method ToggleVisualSelection()
      requires Valid()
      modifies `marked, `visual, `visualAnchor, `visualBase
      ensures Valid()
      ensures visual <==> !old(visual) && items.Keys != {}
      ensures !visual ==> marked == old(marked)
      ensures visual ==> visualAnchor == selected && visualBase == old(marked) && MarksFollow()
    {
      ListingLength(items.Keys);
      if |items.Keys| == 0 {
        return;
      }
      if visual {
        visual, visualBase := false, {};
        return;
      }
      BeginVisual();
    }

    method BeginVisual()
      requires Valid() && items.Keys != {}
      modifies `marked, `visual, `visualAnchor, `visualBase
      ensures Valid() && visual && visualAnchor == selected && visualBase == old(marked) && MarksFollow()
    {
      visual, visualAnchor, visualBase := true, selected, marked;
      UpdateVisualSelection();
    }

    method UpdateVisualSelection()
      requires Valid()
      modifies `marked
      ensures Valid()
      ensures !visual ==> marked == old(marked)
      ensures MarksFollow()
    {
      if !visual {
        return;
      }
      var sorted := SortedNames(items.Keys);
      ListingLength(items.Keys);
      if |sorted| == 0 {
        return;
      }
      marked := MarkRange(visualBase, sorted, visualAnchor, selected);
      BetweenInside(sorted, visualAnchor, selected);
    }

    method ClampSelection()
      modifies `selected
      ensures selected == Clamp(old(selected), |items.Keys|)
    {
      if selected < 0 {
        selected := 0;
      }
      if selected >= |items.Keys| {
        selected := Max(0, |items.Keys| - 1);
      }
    }

    method MoveCursor(delta: int)
      requires Valid()
      modifies `selected, `marked
      ensures Valid() && selected == Clamp(old(selected) + delta, |items.Keys|)
      ensures !visual ==> marked == old(marked)
      ensures MarksFollow()
    {
      selected := selected + delta;
      ClampSelection();
      UpdateVisualSelection();
    }

    /** To the first or the last name; moving past the end of no names leaves the cursor alone. */
    method Jump(last: bool)
      requires Valid()
      modifies `selected, `marked
      ensures Valid()
      ensures selected == if last && items.Keys != {} then |items.Keys| - 1 else if last then old(selected) else 0
      ensures !visual ==> marked == old(marked)
      ensures MarksFollow()
    {
      if !last {
        selected := 0;
        UpdateVisualSelection();
      } else if |items.Keys| > 0 {
        selected := |items.Keys| - 1;
        UpdateVisualSelection();
      }
    }

    /** The cursor stays on the name it was on if that still exists. */
    method RestoreSelection(name: string)
      modifies `selected
      ensures if name != "" && name in items.Keys then CursorName(items.Keys, selected) == name && 0 <= selected < |items.Keys|
              else selected == Clamp(old(selected), |items.Keys|)
    {
      if name != "" {
        var sorted := SortedNames(items.Keys);
        ListingLength(items.Keys);
        assert name in Elements(sorted) <==> name in sorted;
        var index := IndexOf(sorted, name);
        if index >= 0 {
          selected := index;
          return;
        }
      }
      ClampSelection();
    }

    method PruneSelection()
      modifies `marked, `visual, `visualBase
      ensures marked == old(marked) * items.Keys && visualBase == old(visualBase) * items.Keys
      ensures visual <==> old(visual) && items.Keys != {}
    {
      marked := marked * items.Keys;
      visualBase := visualBase * items.Keys;
      if |items.Keys| == 0 {
        visual := false;
      }
    }

    /** What every update ends with. */
    method Settle(name: string)
      requires 0 <= selected && (!visual ==> visualBase == {})
      modifies `selected, `marked, `visual, `visualBase
      ensures 0 <= selected && (selected == 0 || selected < |items.Keys|)
      ensures name != "" && name in items ==> Cursor() == name
      ensures name == "" || name !in items ==> selected == Clamp(old(selected), |items.Keys|)
      ensures marked == old(marked) * items.Keys && visualBase == old(visualBase) * items.Keys
      ensures visual <==> old(visual) && items.Keys != {}
      ensures !visual ==> visualBase == {}
    {
      RestoreSelection(name);
      PruneSelection();
    }

    // ----- Updates -----

    function View(): Client
      reads this
    {
      Client(version, items)
    }

    /** The cursor stays on a name that survives; marks stay on what survives. */
    twostate predicate Follows()
      reads this
    {
      && (old(Cursor()) != "" && old(Cursor()) in items ==> Cursor() == old(Cursor()))
      && (old(Cursor()) == "" || old(Cursor()) !in items ==> selected == Clamp(old(selected), |items.Keys|))
      && marked == old(marked) * items.Keys
      && visualBase == old(visualBase) * items.Keys
      && (visual <==> old(visual) && items.Keys != {})
    }

    method Adopt(selectedName: string, next: Client, marks: map<string, int>)
      requires Valid() && selectedName == Cursor()
      modifies this`version, this`items, this`changed, this`selected, this`marked, this`visual, this`visualBase
      ensures View() == next && changed == marks && Follows()
      ensures Valid() <==> marks.Keys <= items.Keys
    {
      version, items, changed := next.version, next.items, marks;
      Settle(selectedName);
    }

    /** The items that differ are marked as changed now, and the old marks on other items that still
        exist keep their time. The registration's snapshot marks nothing as changed, and leaves the old
        marks: they are still on existing items exactly if the snapshot has all of them. */
    method ApplySnapshot(snapshot: Snapshot, markChanges: bool, now: int)
      requires Valid()
      modifies this`version, this`items, this`changed, this`selected, this`marked, this`visual, this`visualBase
      ensures View() == Replication.ApplySnapshot(snapshot) && Follows()
      ensures markChanges ==> Valid()
      ensures markChanges ==> AllNoticed(old(items), items, changed, now)
      ensures markChanges ==> changed == SnapshotMarks(old(items), old(changed), snapshot.items, now)
      ensures !markChanges ==> changed == old(changed) && (Valid() <==> old(changed).Keys <= items.Keys)
    {
      var selectedName := SelectedName();
      var next, marks := NoticeSnapshot(items, snapshot.items, changed, markChanges, now);
      Adopt(selectedName, Client(snapshot.version, next), marks);
    }

    method ApplyPatch(patch: Patch, now: int)
      requires Valid()
      modifies this`version, this`items, this`changed, this`selected, this`marked, this`visual, this`visualBase
      ensures View() == Client(patch.version, PatchItems(old(items), patch)) && Follows()
      ensures Valid() && AllNoticed(old(items), items, changed, now)
      ensures changed == PatchMarks(old(items), old(changed), patch, now)
    {
      var selectedName := SelectedName();
      var next, marks := NoticePatch(items, changed, patch, now);
      Adopt(selectedName, Client(patch.version, next), marks);
    }

    method ApplyUpdate(update: Update, now: int) returns (failure: Option<ApplyError>)
      requires Valid()
      modifies this`version, this`items, this`changed, this`selected, this`marked, this`visual, this`visualBase
      ensures var applied := Replication.ApplyUpdate(old(View()), update);
              if applied.Err? then failure == Some(applied.error) && unchanged(this)
              else && failure == None && View() == applied.client && Follows()
                   && AllNoticed(old(items), items, changed, now)
                   && changed == MarksAfter(old(items), old(changed), update, now)
      ensures Valid()
    {
      if update.kind == "snapshot" {
        if update.snapshot == None {
          return Some(EmptySnapshot);
        }
        ApplySnapshot(update.snapshot.value, true, now);
        return None;
      }
      if update.kind == "patch" {
        if update.patch == None {
          return Some(EmptyPatch);
        }
        if update.patch.value.baseVersion != version {
          return Some(Gap(version, update.patch.value.baseVersion));
        }
        ApplyPatch(update.patch.value, now);
        return None;
      }
      failure := Some(UnknownType);
    }

    // ----- Ticks -----

    method RefreshElapsed(now: int, clock: Clock)
      modifies `items
      ensures items.Keys == old(items).Keys
      ensures forall k :: k in items ==> items[k] == Derived(old(items)[k], now, clock)
    {
      var todo := items.Keys;
      while todo != {}
        invariant todo <= items.Keys == old(items).Keys
        invariant forall k :: k in items ==> items[k] == if k in todo then old(items)[k] else Derived(old(items)[k], now, clock)
        decreases |todo|
      {
        var name :| name in todo;
        items := items[name := Derived(items[name], now, clock)];
        todo := todo - {name};
      }
    }

    method ExpireChanged(now: int)
      modifies `changed
      ensures changed == map n | n in old(changed) && now - old(changed)[n] < CHANGED_HIGHLIGHT :: old(changed)[n]
    {
      var todo := changed.Keys;
      while todo != {}
        invariant todo <= changed.Keys <= old(changed).Keys
        invariant forall n :: n in changed ==> changed[n] == old(changed)[n] && (n in todo || now - changed[n] < CHANGED_HIGHLIGHT)
        invariant forall n :: n in old(changed) && now - old(changed)[n] < CHANGED_HIGHLIGHT ==> n in changed
        decreases |todo|
      {
        var name :| name in todo;
        if now - changed[name] >= CHANGED_HIGHLIGHT {
          changed := changed - {name};
        }
        todo := todo - {name};
      }
    }

    /** A tick only rewrites the elapsed fields and forgets old changes; the others keep their time. */
    method Tick(now: int, clock: Clock)
      requires Valid()
      modifies `items, `changed
      ensures Valid() && items.Keys == old(items).Keys && Cursor() == old(Cursor())
      ensures forall k :: k in items ==> items[k] == Derived(old(items)[k], now, clock)
      ensures forall n :: n in changed <==> n in old(changed) && now - old(changed)[n] < 3000
      ensures forall n :: n in changed ==> changed[n] == old(changed)[n]
    {
      RefreshElapsed(now, clock);
      ExpireChanged(now);
    }

    // ----- Keys -----

    /** A key that moves the cursor; the marks of a range follow. */
    method Move(key: Key)
      requires Valid()
      modifies `selected, `marked
      ensures Valid() && selected == MovedTo(key, old(selected), |items.Keys|)
      ensures if visual then MarksFollow() else marked == old(marked)
    {
      if key == Up {
        MoveCursor(-1);
      } else if key == Down {
        MoveCursor(1);
      } else {
        Jump(key == End);
      }
    }

    /** What a key that moves the cursor or changes the marks leaves. */
    twostate predicate Navigated(key: Key)
      reads this
    {
      if key == Esc then selected == old(selected) && marked == {} && !visual
      else if key == Space then selected == old(selected) && Toggled()
      else if key == V then
        && selected == old(selected)
        && (visual <==> !old(visual) && items.Keys != {})
        && (if visual then visualAnchor == selected && visualBase == old(marked) && MarksFollow() else marked == old(marked))
      else
        && selected == MovedTo(key, old(selected), |items.Keys|) && visual == old(visual)
        && (if visual then visualAnchor == old(visualAnchor) && visualBase == old(visualBase) && MarksFollow()
            else marked == old(marked))
    }

    /** The mark of the name under the cursor changed, which ends the marking of a range. */
    twostate predicate Toggled()
      reads this
    {
      if Cursor() == "" then marked == old(marked) && visual == old(visual)
      else !visual && marked == Flipped(old(marked), Cursor())
    }

    /** A key that moves the cursor or changes the marks. */
    method Navigate(key: Key)
      requires Valid()
      modifies `selected, `marked, `visual, `visualAnchor, `visualBase
      ensures Valid() && Navigated(key)
    {
      if key == Esc {
        ClearSelection();
      } else if key == Space {
        ToggleCurrentSelection();
      } else if key == V {
        ToggleVisualSelection();
      } else {
        Move(key);
      }
    }

    /** A key changes the mode, and it moves the cursor or the marks exactly if nothing swallows
        it and it is a key for that. */
    method HandleKey(key: Key) returns (command: Option<Command>)
      requires Ready()
      modifies `selected, `marked, `visual, `visualAnchor, `visualBase, `mode
      ensures Ready()
      ensures (mode, command) == Pressed(old(mode), key, items.Keys != {}, old(Targets()))
      ensures if Navigates(old(mode), key) then Navigated(key)
              else && selected == old(selected) && marked == old(marked) && visual == old(visual)
                   && visualAnchor == old(visualAnchor) && visualBase == old(visualBase)
    {
      var targets := TargetNames();
      var navigates := Navigates(mode, key);
      PressedKeeps(mode, key, |items.Keys| > 0, targets);
      var r := Pressed(mode, key, |items.Keys| > 0, targets);
      mode, command := r.0, r.1;
      if navigates {
        Navigate(key);
      }
    }

    /** The results of an action; the marks are cleared if all succeeded. */
    method ActionDone(allSucceeded: bool)
      requires Ready()
      modifies `mode, `marked, `visual, `visualBase
      ensures Ready() && mode == old(mode).(action := None)
      ensures if allSucceeded then marked == {} && !visual else marked == old(marked) && visual == old(visual)
    {
      mode := mode.(action := None);
      if allSucceeded {
        ClearSelection();
      }
    }

    // ----- The event loop -----

    method Register(snapshot: Snapshot, now: int)
      requires Ready() && !mode.registered
      modifies this
      ensures Ready() && mode == old(mode).(registered := true, connected := true)
      ensures View() == Replication.ApplySnapshot(snapshot)
    {
      mode := mode.(registered := true, connected := true);
      ApplySnapshot(snapshot, false, now);
    }

    /** An update that does not apply ends the connection and changes nothing else. */
    method Notify(update: Replication.Update, now: int)
      requires Ready() && mode.registered
      modifies this
      ensures Ready()
      ensures mode == if Replication.ApplyUpdate(old(View()), update).Err? then old(mode).(connected := false) else old(mode)
      ensures Replication.ApplyUpdate(old(View()), update).Err? ==>
                View() == old(View()) && Cursor() == old(Cursor()) && marked == old(marked)
      ensures Replication.ApplyUpdate(old(View()), update).Ok? ==> Replication.ApplyUpdate(old(View()), update) == Ok(View())
    {
      var failure := ApplyUpdate(update, now);
      if failure.Some? {
        mode := mode.(connected := false);
      }
    }

    /** An error of the connection, unless the listener is quitting anyway. */
    method Lose()
      requires Ready()
      modifies `mode
      ensures Ready() && mode == if old(mode).screen.quitting then old(mode) else old(mode).(connected := false)
    {
      if !mode.screen.quitting {
        mode := mode.(connected := false);
      }
    }

    method Resize(width: int, height: int)
      requires Ready()
      modifies `mode
      ensures Ready() && mode == old(mode).(screen := old(mode).screen.(width := width, height := height))
    {
      mode := mode.(screen := mode.screen.(width := width, height := height));
    }

    method Press(key: Key)
      requires Ready()
      modifies this
      ensures Ready() && mode.registered == old(mode).registered && View() == old(View())
      ensures mode == Pressed(old(mode), key, old(items).Keys != {}, old(Targets())).0
    {
      PressedKeeps(mode, key, items.Keys != {}, Targets());
      var _ := HandleKey(key);
    }

    method PassTime(now: int, clock: Clock)
      requires Ready()
      modifies this
      ensures Ready() && mode == old(mode) && version == old(version) && items.Keys == old(items).Keys
      ensures forall k :: k in items ==> items[k] == Derived(old(items)[k], now, clock)
    {
      Tick(now, clock);
    }

    /** What a message is for. */
    twostate predicate Answers(message: Event, clock: Clock)
      requires ConfirmsDelete(old(mode))
      reads this
    {
      match message
      case KeyPress(key) =>
        mode == Pressed(old(mode), key, old(items).Keys != {}, old(Targets())).0 && View() == old(View())
      case Registration(snapshot, _) => View() == Replication.ApplySnapshot(snapshot) && mode.connected
      case Notification(update, _) =>
        var applied := Replication.ApplyUpdate(old(View()), update);
        if applied.Ok? then View() == applied.client && mode == old(mode) else View() == old(View()) && !mode.connected
      case Done(_) => mode == old(mode).(action := None) && View() == old(View())
      case TimePasses(now) =>
        && mode == old(mode) && version == old(version) && items.Keys == old(items).Keys
        && forall k :: k in items ==> items[k] == Derived(old(items)[k], now, clock)
      case Lost => View() == old(View()) && (mode.connected <==> old(mode).connected && old(mode).screen.quitting)
      case Resized(width, height) =>
        View() == old(View()) && mode == old(mode).(screen := old(mode).screen.(width := width, height := height))
    }

    /** Every message does what it is for, and keeps the cursor in range and the marks on existing items. */
    method Update(message: Event, clock: Clock)
      requires Ready() && (message.Registration? ==> !mode.registered) && (message.Notification? ==> mode.registered)
      modifies this
      ensures Ready() && (mode.registered <==> old(mode).registered || message.Registration?)
      ensures Answers(message, clock)
    {
      match message {
        case KeyPress(key) => Press(key);
        case Registration(snapshot, now) => Register(snapshot, now);
        case Notification(update, now) => Notify(update, now);
        case Done(allSucceeded) => ActionDone(allSucceeded);
        case TimePasses(now) => PassTime(now, clock);
        case Lost => Lose();
        case Resized(width, height) => Resize(width, height);
      }
    }
  }

  predicate Moves(key: Key) { key in {Up, Down, Home, G, End, Esc, Space, V} }

  /** The second of two g's goes home, the first does nothing yet. */
  predicate Navigates(mode: Mode, key: Key) { !Swallows(mode) && Moves(key) && (key == G ==> mode.screen.gPending) }

  /** Where the cursor goes in a list of `count` names. */
  function MovedTo(key: Key, selected: int, count: nat): int {
    if key == Up then Clamp(selected - 1, count)
    else if key == Down then Clamp(selected + 1, count)
    else if key == End then Max(0, count - 1)
    else 0
  }

  function ActionOf(key: Key): Option<Action> {
    if key == E then Some(Exec)
    else if key == S then Some(Stop)
    else if key == Plus then Some(Enable)
    else if key == Minus then Some(Disable)
    else None
  }

  /** beginActionWithNames: one action at a time, on at least one name. */
  function BeginAction(mode: Mode, action: Action, targets: seq<string>): (Mode, Option<Command>) {
    if mode.action.Some? || targets == [] then (mode, None)
    else (mode.(action := Some(action)), Some(Command(action, targets)))
  }

  /** A key while a deletion waits for confirmation. */
  function UpdateConfirm(mode: Mode, key: Key): (Mode, Option<Command>)
    requires mode.confirm.Some?
  {
    var c := mode.confirm.value;
    match key
    case Esc => (mode.(confirm := None), None)
    case No => (mode.(confirm := None), None)
    case Left => (mode.(confirm := Some(c.(yes := true))), None)
    case Right => (mode.(confirm := Some(c.(yes := false))), None)
    case Tab => (mode.(confirm := Some(c.(yes := !c.yes))), None)
    case Yes => (mode.(confirm := Some(c.(yes := true))), None)
    case Enter =>
      if !c.yes then (mode.(confirm := None), None) else BeginAction(mode.(confirm := None), c.action, c.names)
    case _ => (mode, None)
  }

  /** A confirmation or the help page takes every key. */
  predicate Swallows(mode: Mode) { mode.confirm.Some? || mode.screen.help }

  /** A key that launches nothing and asks for nothing. */
  function Glanced(screen: Screen, key: Key, some: bool): Screen {
    if key == Q || key == CtrlC then screen.(quitting := true)
    else if key == Left then screen.(expanded := false)
    else if key == Right then screen.(expanded := screen.expanded || some)
    else if key == Enter then screen.(expanded := if some then !screen.expanded else screen.expanded)
    else if key == Question then screen.(help := true)
    else screen
  }

  /** A key in ordinary use, apart from what it does to the cursor and the marks. */
  function PlainKey(mode: Mode, key: Key, some: bool, targets: seq<string>): (Mode, Option<Command>) {
    if ActionOf(key).Some? then BeginAction(mode, ActionOf(key).value, targets)
    else if key == Remove then
      (if targets != [] && mode.action == None then mode.(confirm := Some(Confirm(Delete, targets, false))) else mode, None)
    else (mode.(screen := Glanced(mode.screen, key, some)), None)
  }

  /** The mode after a key, and the action it launches. */
  function Pressed(mode: Mode, key: Key, some: bool, targets: seq<string>): (Mode, Option<Command>) {
    if mode.confirm.Some? then UpdateConfirm(mode, key)
    else if mode.screen.help then
      (if key == Question || key == Esc || key == Q then mode.(screen := mode.screen.(help := false)) else mode, None)
    else PlainKey(mode.(screen := mode.screen.(gPending := key == G && !mode.screen.gPending)), key, some, targets)
  }

  lemma PressedKeeps(mode: Mode, key: Key, some: bool, targets: seq<string>)
    requires ConfirmsDelete(mode)
    ensures ConfirmsDelete(Pressed(mode, key, some, targets).0)
    ensures Pressed(mode, key, some, targets).0.registered == mode.registered
  {
    if mode.confirm.Some? {
      ConfirmKeeps(mode, key);
    } else {
      PlainKeeps(mode.(screen := mode.screen.(gPending := key == G && !mode.screen.gPending)), key, some, targets);
    }
  }

  lemma ConfirmKeeps(mode: Mode, key: Key)
    requires ConfirmsDelete(mode) && mode.confirm.Some?
    ensures ConfirmsDelete(UpdateConfirm(mode, key).0) && UpdateConfirm(mode, key).0.registered == mode.registered
  {
  }

  lemma PlainKeeps(mode: Mode, key: Key, some: bool, targets: seq<string>)
    requires mode.confirm == None
    ensures ConfirmsDelete(PlainKey(mode, key, some, targets).0) && PlainKey(mode, key, some, targets).0.registered == mode.registered
  {
  }

  /** What a key launched is allowed: an action only when none is under way, on at least one name,
      and it is then under way; a deletion exactly by confirming it with yes, on the names targeted
      when it was asked for; any other action only by its key, on the names targeted now. */
  predicate LaunchedRightly(mode: Mode, key: Key, targets: seq<string>, after: Mode, command: Option<Command>) {
    && (command.Some? ==> mode.action == None && command.value.names != [] && after.action == Some(command.value.action))
    && (command == None ==> after.action == mode.action)
    && (command.Some? && command.value.action == Delete <==>
          mode.action == None && key == Enter && mode.confirm.Some? && mode.confirm.value.yes)
    && (command.Some? && command.value.action == Delete ==> command.value.names == mode.confirm.value.names)
    && (command.Some? && command.value.action != Delete ==>
          !Swallows(mode) && ActionOf(key) == Some(command.value.action) && command.value.names == targets)
    && (after.confirm.Some? && mode.confirm == None ==> key == Remove && after.confirm == Some(Confirm(Delete, targets, false)))
  }

  lemma ConfirmLaunches(mode: Mode, key: Key, targets: seq<string>)
    requires ConfirmsDelete(mode) && mode.confirm.Some?
    ensures LaunchedRightly(mode, key, targets, UpdateConfirm(mode, key).0, UpdateConfirm(mode, key).1)
  {
  }

  lemma PlainLaunches(mode: Mode, key: Key, some: bool, targets: seq<string>, screen: Screen)
    requires !Swallows(mode)
    ensures var r := PlainKey(mode.(screen := screen), key, some, targets); LaunchedRightly(mode, key, targets, r.0, r.1)
  {
  }

  lemma LaunchRules(mode: Mode, key: Key, some: bool, targets: seq<string>)
    requires ConfirmsDelete(mode)
    ensures var (after, command) := Pressed(mode, key, some, targets); LaunchedRightly(mode, key, targets, after, command)
  {
    if mode.confirm.Some? {
      ConfirmLaunches(mode, key, targets);
    } else if !mode.screen.help {
      PlainLaunches(mode, key, some, targets, mode.screen.(gPending := key == G && !mode.screen.gPending));
    }
  }

  datatype Event =
    | KeyPress(key: Key)
    | Registration(snapshot: Snapshot, now: int)
    | Notification(update: Replication.Update, now: int)
    | Done(allSucceeded: bool)
    | TimePasses(now: int)
    | Lost
    | Resized(width: int, height: int)

  /** Reading a timestamp, rounding a duration to seconds, and writing it. */
  datatype Clock = Clock(parse: string -> Option<int>, round: int -> int, text: int -> string)

  /** An item with the elapsed fields of this moment. */
  function Derived(item: Item, now: int, clock: Clock): (r: Item)
    ensures ItemEqual(r, item) && r.name == item.name
  {
    var started, created, next :=
      clock.parse(item.record.started), clock.parse(item.record.createdAt), clock.parse(item.record.nextRun);
    item.(
      uptime :=
        if item.record.state == Supervisor.Running && item.record.started != "" && started.Some?
        then clock.text(clock.round(now - started.value)) else item.uptime,
      lifetime :=
        if item.record.createdAt != "" && created.Some?
        then clock.text(clock.round(now - created.value)) else item.lifetime,
      nextRunIn :=
        if item.record.state == Supervisor.Backoff && item.record.nextRun != "" && next.Some? then
          if clock.round(next.value - now) > 0 then clock.text(clock.round(next.value - now)) else "imminent"
        else item.nextRunIn)
  }

  /** The listener's tick is a tick of the replication protocol. */
  lemma TickIsRefresh(c: Client, now: int, clock: Clock) returns (ticks: map<string, Elapsed>)
    ensures Replication.RefreshElapsed(c, ticks) == c.(items := map k | k in c.items :: Derived(c.items[k], now, clock))
  {
    ticks := map k | k in c.items ::
      var d := Derived(c.items[k], now, clock); Elapsed(d.uptime, d.nextRunIn, d.lifetime);
    assert forall k :: k in c.items ==>
      Replication.RefreshElapsed(c, ticks).items[k] == Derived(c.items[k], now, clock);
  }

  /** Every item that is new, or differs in more than its elapsed fields, is marked as changed now. */
  predicate AllNoticed(before: map<string, Item>, items: map<string, Item>, changed: map<string, int>, now: int) {
    forall n :: n in items ==> (n in changed && changed[n] == now) || (n in before && ItemEqual(before[n], items[n]))
  }

  /** The names of the first n items that are new, or differ from before in more than their
      elapsed fields. */
  function Differing(before: map<string, Item>, items: seq<Item>, n: nat): set<string>
    requires n <= |items|
  {
    if n == 0 then {}
    else Differing(before, items, n - 1) + if Unchanged(before, items[n - 1]) then {} else {items[n - 1].name}
  }

  /** The differing names are marked now; every other mark keeps its time. */
  function Stamped(changed: map<string, int>, differing: set<string>, now: int): map<string, int> {
    map n | n in changed.Keys + differing :: if n in differing then now else changed[n]
  }

  /** The marks on existing items. */
  function Kept(marks: map<string, int>, items: map<string, Item>): map<string, int> {
    map n | n in marks && n in items :: marks[n]
  }

  /** A snapshot marks what differs from before, and drops the marks of what is gone. */
  function SnapshotMarks(before: map<string, Item>, changed: map<string, int>, items: seq<Item>, now: int): map<string, int> {
    Kept(Stamped(changed, Differing(before, items, |items|), now), ByName(items))
  }

  /** A patch drops the marks of what it removes, and then marks what differs from the rest. */
  function PatchMarks(before: map<string, Item>, changed: map<string, int>, patch: Patch, now: int): map<string, int> {
    var removed := Elements(patch.removed);
    Stamped(changed - removed, Differing(before - removed, patch.upsert, |patch.upsert|), now)
  }

  /** The marks after an update that applies. */
  function MarksAfter(before: map<string, Item>, changed: map<string, int>, update: Update, now: int): map<string, int> {
    if update.kind == "snapshot" && update.snapshot.Some? then SnapshotMarks(before, changed, update.snapshot.value.items, now)
    else if update.kind == "patch" && update.patch.Some? then PatchMarks(before, changed, update.patch.value, now)
    else changed
  }

  /** What is not among the first i differing items is as it was in `base`. */
  ghost predicate SameElsewhere(base: map<string, Item>, items: seq<Item>, i: nat, next: map<string, Item>)
    requires i <= |items|
  {
    forall n :: n in next && n !in Differing(base, items, i) ==> n in base && ItemEqual(base[n], next[n])
  }

  lemma SameElsewhereNext(base: map<string, Item>, items: seq<Item>, i: nat, next: map<string, Item>)
    requires i < |items| && SameElsewhere(base, items, i, next)
    ensures SameElsewhere(base, items, i + 1, next[items[i].name := items[i]])
  {
  }

  /** The marks after one item, compared with what was there. */
  function MarkOne(marks: map<string, int>, before: map<string, Item>, item: Item, now: int): map<string, int> {
    if Unchanged(before, item) then marks else marks[item.name := now]
  }

  lemma StampedNext(base: map<string, Item>, changed: map<string, int>, items: seq<Item>, i: nat, now: int)
    requires i < |items|
    ensures Stamped(changed, Differing(base, items, i + 1), now)
         == MarkOne(Stamped(changed, Differing(base, items, i), now), base, items[i], now)
  {
  }

  /** Looking at the map as it grows finds the same differences as looking at the map before. */
  lemma LookAhead(base: map<string, Item>, changed: map<string, int>, items: seq<Item>, i: nat, next: map<string, Item>, now: int)
    requires i < |items| && SameElsewhere(base, items, i, next) && base.Keys <= next.Keys
    ensures Stamped(changed, Differing(base, items, i + 1), now)
         == MarkOne(Stamped(changed, Differing(base, items, i), now), next, items[i], now)
  {
    StampedNext(base, changed, items, i, now);
    if items[i].name !in Differing(base, items, i) {
      assert Unchanged(next, items[i]) <==> Unchanged(base, items[i]);
    }
  }

  /** The loops over a snapshot: the new map, and the marks of the items that differ from before. */
  method NoticeSnapshot(before: map<string, Item>, items: seq<Item>, changed: map<string, int>, markChanges: bool, now: int)
    returns (next: map<string, Item>, marks: map<string, int>)
    requires changed.Keys <= before.Keys
    ensures next == ByName(items)
    ensures !markChanges ==> marks == changed
    ensures markChanges ==> marks == SnapshotMarks(before, changed, items, now) && AllNoticed(before, next, marks, now)
  {
    next, marks := map[], changed;
    for i := 0 to |items|
      invariant next == ByName(items[..i]) && SameElsewhere(before, items, i, next)
      invariant marks == if markChanges then Stamped(changed, Differing(before, items, i), now) else changed
      invariant marks.Keys <= before.Keys + next.Keys
    {
      assert items[..i + 1][..i] == items[..i];
      SameElsewhereNext(before, items, i, next);
      StampedNext(before, changed, items, i, now);
      if markChanges {
        marks := MarkOne(marks, before, items[i], now);
      }
      next := next[items[i].name := items[i]];
    }
    assert items[..|items|] == items;
    if markChanges {
      marks := DropMarks(marks, before.Keys, next);
    }
  }

  method DropMarks(marks: map<string, int>, before: set<string>, next: map<string, Item>) returns (kept: map<string, int>)
    requires marks.Keys <= before + next.Keys
    ensures kept == Kept(marks, next)
  {
    kept := marks;
    var todo := before;
    RemainingEnds(marks, next, before);
    while todo != {}
      invariant kept == Remaining(marks, next, todo)
      decreases |todo|
    {
      var name :| name in todo;
      RemainingLess(marks, next, todo, name);
      if name !in next {
        kept := kept - {name};
      }
      todo := todo - {name};
    }
  }

  /** The marks on existing items, and on those not looked at yet. */
  ghost function Remaining(marks: map<string, int>, next: map<string, Item>, todo: set<string>): map<string, int> {
    map n | n in marks && (n in next || n in todo) :: marks[n]
  }

  lemma RemainingEnds(marks: map<string, int>, next: map<string, Item>, before: set<string>)
    ensures Remaining(marks, next, {}) == Kept(marks, next)
    ensures marks.Keys <= before + next.Keys ==> Remaining(marks, next, before) == marks
  {
  }

  lemma RemainingLess(marks: map<string, int>, next: map<string, Item>, todo: set<string>, name: string)
    ensures Remaining(marks, next, todo - {name})
         == if name in next then Remaining(marks, next, todo) else Remaining(marks, next, todo) - {name}
  {
  }

  /** The items and the marks after the first i upserts, `base` and `left` being what the removals left. */
  ghost predicate Noticing(base: map<string, Item>, left: map<string, int>, items: seq<Item>, i: nat,
                           next: map<string, Item>, marks: map<string, int>, now: int)
    requires i <= |items|
  {
    && base.Keys <= next.Keys && next == base + ByName(items[..i]) && SameElsewhere(base, items, i, next)
    && marks.Keys <= next.Keys && marks == Stamped(left, Differing(base, items, i), now)
  }

  lemma NoticingNext(base: map<string, Item>, left: map<string, int>, items: seq<Item>, i: nat,
                     next: map<string, Item>, marks: map<string, int>, now: int)
    requires i < |items| && Noticing(base, left, items, i, next, marks, now)
    ensures Noticing(base, left, items, i + 1, next[items[i].name := items[i]], MarkOne(marks, next, items[i], now), now)
  {
    LookAhead(base, left, items, i, next, now);
    SameElsewhereNext(base, items, i, next);
    ByNameMore(base, items, i);
  }

  lemma NoticingAll(before: map<string, Item>, changed: map<string, int>, patch: Patch,
                    next: map<string, Item>, marks: map<string, int>, now: int)
    requires var removed := Elements(patch.removed);
             Noticing(before - removed, changed - removed, patch.upsert, |patch.upsert|, next, marks, now)
    ensures next == PatchItems(before, patch) && marks == PatchMarks(before, changed, patch, now)
    ensures marks.Keys <= next.Keys && AllNoticed(before, next, marks, now)
  {
    assert patch.upsert[..|patch.upsert|] == patch.upsert;
  }

  /** The two loops over a patch. */
  method NoticePatch(items: map<string, Item>, changed: map<string, int>, patch: Patch, now: int)
    returns (next: map<string, Item>, marks: map<string, int>)
    requires changed.Keys <= items.Keys
    ensures next == PatchItems(items, patch) && marks == PatchMarks(items, changed, patch, now)
    ensures marks.Keys <= next.Keys && AllNoticed(items, next, marks, now)
  {
    next, marks := NoticeRemoved(items, changed, patch.removed);
    ghost var base, left := next, marks;
    for i := 0 to |patch.upsert|
      invariant Noticing(base, left, patch.upsert, i, next, marks, now)
    {
      var item := patch.upsert[i];
      NoticingNext(base, left, patch.upsert, i, next, marks, now);
      marks := MarkOne(marks, next, item, now);
      next := next[item.name := item];
    }
    NoticingAll(items, changed, patch, next, marks, now);
  }

  lemma ByNameMore(base: map<string, Item>, items: seq<Item>, i: nat)
    requires i < |items|
    ensures (base + ByName(items[..i]))[items[i].name := items[i]] == base + ByName(items[..i + 1])
  {
    assert items[..i + 1][..i] == items[..i];
    assert ByName(items[..i + 1]) == ByName(items[..i])[items[i].name := items[i]];
  }

  method NoticeRemoved(items: map<string, Item>, changed: map<string, int>, removed: seq<string>)
    returns (next: map<string, Item>, marks: map<string, int>)
    requires changed.Keys <= items.Keys
    ensures next == items - Elements(removed) && marks == changed - Elements(removed)
  {
    next, marks := items, changed;
    for i := 0 to |removed|
      invariant next == items - Elements(removed[..i]) && marks == changed - Elements(removed[..i])
    {
      assert removed[..i + 1] == removed[..i] + [removed[i]];
      Appended(removed[..i], removed[i]);
      next := next - {removed[i]};
      marks := marks - {removed[i]};
    }
    assert removed[..|removed|] == removed;
  }
}
