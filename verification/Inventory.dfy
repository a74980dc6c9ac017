/** Inventory items, the difference between two inventories, and applying it
    (daemon/listen.go, and the apply side of listen.go). */
module Inventory {
  import opened Options
  import opened Ordering
  import Supervisor

  /** The fields an update compares, besides the name. */
  datatype Record = Record(
    state: Supervisor.State, enabled: bool, command: string, args: seq<string>, pid: int,
    started: string, lastExit: string, nextRun: string, restarts: int, maxRestarts: int,
    interval: string, createdAt: string, endpoint: Option<string>, charge: string,
    metadata: map<string, string>)

  /** An inventory item; the last three fields are derived from timestamps by each reader. */
  datatype Item = Item(name: string, record: Record, uptime: string, nextRunIn: string, lifetime: string)

  datatype Patch = Patch(baseVersion: nat, version: nat, upsert: seq<Item>, removed: seq<string>)

  /** An item without the three fields a client derives from timestamps. */
  function Stable(item: Item): Item {
    item.(uptime := "", lifetime := "", nextRunIn := "")
  }

  predicate ItemEqual(a: Item, b: Item) { Stable(a) == Stable(b) }

  predicate SameInventory(a: seq<Item>, b: seq<Item>) {
    |a| == |b| && forall i :: 0 <= i < |a| ==> ItemEqual(a[i], b[i])
  }

  function Names(items: seq<Item>): seq<string> { seq(|items|, i requires 0 <= i < |items| => items[i].name) }

  /** What Daemon.List guarantees: sorted by name, one item a name. */
  predicate NameSorted(items: seq<Item>) { Sorted(Names(items)) && Distinct(Names(items)) }

  function ByName(items: seq<Item>): map<string, Item> {
    if items == [] then map[]
    else
      var last := items[|items| - 1];
      ByName(items[..|items| - 1])[last.name := last]
  }

  function StableMap(m: map<string, Item>): map<string, Item> { map k | k in m :: Stable(m[k]) }

  predicate Unchanged(before: map<string, Item>, item: Item) {
    item.name in before && ItemEqual(before[item.name], item)
  }

  function Upserts(before: map<string, Item>, items: seq<Item>): seq<Item> {
    if items == [] then []
    else
      var last := items[|items| - 1];
      Upserts(before, items[..|items| - 1]) + if Unchanged(before, last) then [] else [last]
  }

  ghost function Diff(base: nat, version: nat, oldItems: seq<Item>, newItems: seq<Item>): Patch {
    Patch(base, version, Upserts(ByName(oldItems), newItems),
          Listing(ByName(oldItems).Keys - ByName(newItems).Keys))
  }

  /** The client's item map after a patch: removals first, then whole records. */
  function PatchItems(m: map<string, Item>, p: Patch): map<string, Item> {
    (m - Elements(p.removed)) + ByName(p.upsert)
  }

  // ----- The loops of the source -----

  method InventoryEqual(oldItems: seq<Item>, newItems: seq<Item>) returns (equal: bool)
    ensures equal <==> SameInventory(oldItems, newItems)
  {
    if |oldItems| != |newItems| {
      return false;
    }
    for i := 0 to |oldItems|
      invariant forall j :: 0 <= j < i ==> ItemEqual(oldItems[j], newItems[j])
    {
      if !ItemEqual(oldItems[i], newItems[i]) {
        return false;
      }
    }
    return true;
  }

  method Index(items: seq<Item>) returns (m: map<string, Item>)
    ensures m == ByName(items)
  {
    m := map[];
    for i := 0 to |items|
      invariant m == ByName(items[..i])
    {
      assert items[..i + 1][..i] == items[..i];
      m := m[items[i].name := items[i]];
    }
    assert items[..|items|] == items;
  }

  method DiffInventory(base: nat, version: nat, oldItems: seq<Item>, newItems: seq<Item>) returns (patch: Patch)
    ensures patch == Diff(base, version, oldItems, newItems)
  {
    var oldByName := Index(oldItems);
    var newByName := Index(newItems);
    var upsert: seq<Item> := [];
    for i := 0 to |newItems|
      invariant upsert == Upserts(oldByName, newItems[..i])
    {
      assert newItems[..i + 1][..i] == newItems[..i];
      if !(newItems[i].name in oldByName && ItemEqual(oldByName[newItems[i].name], newItems[i])) {
        upsert := upsert + [newItems[i]];
      }
    }
    assert newItems[..|newItems|] == newItems;
    var removed := MissingNames(oldByName.Keys, newByName.Keys);
    patch := Patch(base, version, upsert, removed);
  }

  /** The names walked in the old map and not found in the new one. */
  method MissingNames(oldNames: set<string>, newNames: set<string>) returns (removed: seq<string>)
    ensures removed == Listing(oldNames - newNames)
  {
    removed := SortedNames(oldNames - newNames);
  }

  // ----- What the difference means -----

  lemma ByNameKeys(items: seq<Item>)
    ensures ByName(items).Keys == Elements(Names(items))
    ensures forall k :: k in ByName(items) ==> ByName(items)[k] in items && ByName(items)[k].name == k
  {
    if items != [] {
      var front, last := items[..|items| - 1], items[|items| - 1];
      ByNameKeys(front);
      assert Names(items) == Names(front) + [last.name];
    }
  }

  lemma ByNameFinds(items: seq<Item>, i: nat)
    requires Distinct(Names(items)) && i < |items|
    ensures items[i].name in ByName(items) && ByName(items)[items[i].name] == items[i]
  {
    var front := items[..|items| - 1];
    assert forall j :: 0 <= j < |front| ==> Names(front)[j] == Names(items)[j];
    assert Names(items)[i] == items[i].name && Names(items)[|items| - 1] == items[|items| - 1].name;
    if i < |front| {
      ByNameFinds(front, i);
    }
  }

  lemma UpsertMembers(before: map<string, Item>, items: seq<Item>)
    ensures forall x :: x in Upserts(before, items) <==> x in items && !Unchanged(before, x)
  {
    if items != [] {
      var front, last := items[..|items| - 1], items[|items| - 1];
      UpsertMembers(before, front);
      assert items == front + [last];
    }
  }

  lemma UpsertsDistinct(before: map<string, Item>, items: seq<Item>)
    requires Distinct(Names(items))
    ensures Distinct(Names(Upserts(before, items)))
  {
    if items != [] {
      var front, last := items[..|items| - 1], items[|items| - 1];
      assert forall j :: 0 <= j < |front| ==> Names(front)[j] == Names(items)[j];
      UpsertsDistinct(before, front);
      UpsertMembers(before, front);
      var kept := Upserts(before, front);
      forall j | 0 <= j < |kept|
        ensures kept[j].name != last.name
      {
        assert kept[j] in front;
        var i :| 0 <= i < |front| && front[i] == kept[j];
        assert Names(items)[i] == kept[j].name && Names(items)[|items| - 1] == last.name;
      }
      assert Names(Upserts(before, items)) == Names(kept) + if Unchanged(before, last) then [] else [last.name];
    }
  }

  /** The upserted records are exactly the new or changed ones, found under their names. */
  lemma UpsertLookup(before: map<string, Item>, items: seq<Item>, k: string)
    requires Distinct(Names(items))
    ensures k in ByName(Upserts(before, items)) <==> k in ByName(items) && !Unchanged(before, ByName(items)[k])
    ensures k in ByName(Upserts(before, items)) ==> ByName(Upserts(before, items))[k] == ByName(items)[k]
  {
    var ups := Upserts(before, items);
    ByNameKeys(items);
    ByNameKeys(ups);
    UpsertMembers(before, items);
    UpsertsDistinct(before, items);
    if k in ByName(ups) {
      var x := ByName(ups)[k];
      assert x in items;
      var i :| 0 <= i < |items| && items[i] == x;
      ByNameFinds(items, i);
    } else if k in ByName(items) && !Unchanged(before, ByName(items)[k]) {
      assert ByName(items)[k] in ups;
      var i :| 0 <= i < |ups| && ups[i] == ByName(items)[k];
      ByNameFinds(ups, i);
      assert false;
    }
  }

  /** Applying the difference to any map that equals the old inventory up to the elapsed fields
      gives the new inventory up to the elapsed fields. */
  lemma DiffApplies(base: nat, version: nat, oldItems: seq<Item>, newItems: seq<Item>, m: map<string, Item>)
    requires Distinct(Names(newItems)) && StableMap(m) == StableMap(ByName(oldItems))
    ensures StableMap(PatchItems(m, Diff(base, version, oldItems, newItems))) == StableMap(ByName(newItems))
  {
    var before, after := ByName(oldItems), ByName(newItems);
    var p := Diff(base, version, oldItems, newItems);
    var r := PatchItems(m, p);
    assert m.Keys == StableMap(m).Keys == before.Keys;
    ByNameKeys(newItems);
    forall k
      ensures k in r <==> k in after
      ensures k in r ==> Stable(r[k]) == Stable(after[k])
    {
      UpsertLookup(before, newItems, k);
      if k in m {
        assert Stable(m[k]) == StableMap(m)[k] == Stable(before[k]);
      }
      if k in after {
        assert after[k].name == k;
      }
    }
  }

  /** Upsert and Removed name disjoint sets, and no patch that turns the old inventory into the
      new one can name less in either. */
  lemma DiffMinimal(base: nat, version: nat, oldItems: seq<Item>, newItems: seq<Item>, other: Patch)
    requires Distinct(Names(newItems))
    requires StableMap(PatchItems(ByName(oldItems), other)) == StableMap(ByName(newItems))
    ensures var p := Diff(base, version, oldItems, newItems);
            && ByName(p.upsert).Keys !! Elements(p.removed)
            && ByName(p.upsert).Keys <= ByName(other.upsert).Keys
            && Elements(p.removed) <= Elements(other.removed)
  {
    var before, after := ByName(oldItems), ByName(newItems);
    var p := Diff(base, version, oldItems, newItems);
    var r := PatchItems(before, other);
    assert r.Keys == StableMap(r).Keys == after.Keys;
    ByNameKeys(newItems);
    forall k | k in ByName(p.upsert)
      ensures k in after && k in ByName(other.upsert)
    {
      UpsertLookup(before, newItems, k);
      assert Stable(r[k]) == StableMap(r)[k] == Stable(after[k]);
    }
  }

  lemma NoUpserts(before: map<string, Item>, items: seq<Item>)
    requires forall x :: x in items ==> Unchanged(before, x)
    ensures Upserts(before, items) == []
  {
    if items != [] {
      var front, last := items[..|items| - 1], items[|items| - 1];
      assert last in items;
      NoUpserts(before, front);
    }
  }

  lemma SameInventoryEmptyDiff(base: nat, version: nat, oldItems: seq<Item>, newItems: seq<Item>)
    requires NameSorted(oldItems) && SameInventory(oldItems, newItems)
    ensures Diff(base, version, oldItems, newItems).upsert == []
    ensures Diff(base, version, oldItems, newItems).removed == []
  {
    forall i | 0 <= i < |oldItems|
      ensures oldItems[i].name == newItems[i].name && Unchanged(ByName(oldItems), newItems[i])
    {
      assert Stable(oldItems[i]).name == Stable(newItems[i]).name;
      ByNameFinds(oldItems, i);
    }
    NoUpserts(ByName(oldItems), newItems);
    assert Names(oldItems) == Names(newItems);
    ByNameKeys(oldItems);
    ByNameKeys(newItems);
    assert Elements(Listing({})) == {};
    assert ByName(oldItems).Keys - ByName(newItems).Keys == {};
  }

  lemma EmptyDiffSameInventory(base: nat, version: nat, oldItems: seq<Item>, newItems: seq<Item>)
    requires NameSorted(oldItems) && NameSorted(newItems)
    requires Diff(base, version, oldItems, newItems).upsert == []
    requires Diff(base, version, oldItems, newItems).removed == []
    ensures SameInventory(oldItems, newItems)
  {
    ByNameKeys(oldItems);
    ByNameKeys(newItems);
    UpsertMembers(ByName(oldItems), newItems);
    forall x | x in newItems
      ensures Unchanged(ByName(oldItems), x)
    {
      assert x !in Upserts(ByName(oldItems), newItems);
    }
    SameNames(oldItems, newItems);
    forall i | 0 <= i < |newItems|
      ensures ItemEqual(oldItems[i], newItems[i])
    {
      assert Names(oldItems)[i] == Names(newItems)[i];
      ByNameFinds(oldItems, i);
      assert Unchanged(ByName(oldItems), newItems[i]);
    }
  }

  lemma SameNames(oldItems: seq<Item>, newItems: seq<Item>)
    requires NameSorted(oldItems) && NameSorted(newItems)
    requires Listing(ByName(oldItems).Keys - ByName(newItems).Keys) == []
    requires forall x :: x in newItems ==> x.name in ByName(oldItems)
    ensures Names(oldItems) == Names(newItems)
  {
    ByNameKeys(oldItems);
    ByNameKeys(newItems);
    var gone := ByName(oldItems).Keys - ByName(newItems).Keys;
    assert gone == Elements(Listing(gone)) == {};
    assert ByName(newItems).Keys <= ByName(oldItems).Keys;
    assert Elements(Names(oldItems)) == Elements(Names(newItems));
    ListingUnique(Names(oldItems));
    ListingUnique(Names(newItems));
  }

  /** The difference is empty exactly when the inventories are equal up to elapsed fields. */
  lemma DiffEmptyIffSame(base: nat, version: nat, oldItems: seq<Item>, newItems: seq<Item>)
    requires NameSorted(oldItems) && NameSorted(newItems)
    ensures var p := Diff(base, version, oldItems, newItems);
            p.upsert == [] && p.removed == [] <==> SameInventory(oldItems, newItems)
  {
    if SameInventory(oldItems, newItems) {
      SameInventoryEmptyDiff(base, version, oldItems, newItems);
    } else if Diff(base, version, oldItems, newItems).upsert == [] && Diff(base, version, oldItems, newItems).removed == [] {
      EmptyDiffSameInventory(base, version, oldItems, newItems);
    }
  }
}
