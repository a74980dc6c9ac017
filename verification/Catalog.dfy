/** Labels, saved views, and selecting items by label (catalog/catalog.go). */
module Catalog {
  import opened Options
  import opened Ordering
  import opened Selector
  import opened SelectorProofs

  type Labels = map<string, string>

  datatype SelectorItem = SelectorItem(name: string, state: string, enabled: bool, kind: string, labels: Labels)

  datatype Failure = InvalidName(name: string) | UnknownView(view: string) | BadSelector(error: ParseError)

  predicate ValidName(name: string) {
    name != [] && Alphanumeric(name[0]) && forall c :: c in name ==> KeyChar(c) && c != '/'
  }

  /** The labels a selector sees: the live fields override stored labels of the same name. */
  function Fields(item: SelectorItem): Labels {
    item.labels["name" := item.name]["state" := item.state]
      ["enabled" := if item.enabled then "true" else "false"]["kind" := item.kind]
  }

  predicate Selects(requirements: seq<Requirement>, item: SelectorItem) { Matching(requirements, Fields(item)) }

  /** The selected items, in inventory order. */
  function Selection(requirements: seq<Requirement>, items: seq<SelectorItem>, n: nat): seq<SelectorItem>
    requires n <= |items|
  {
    if n == 0 then []
    else Selection(requirements, items, n - 1) + if Selects(requirements, items[n - 1]) then [items[n - 1]] else []
  }

  predicate NameOrdered(items: seq<SelectorItem>) {
    forall i, j :: 0 <= i < j < |items| ==> Le(items[i].name, items[j].name)
  }

  /** A result of Resolve. Items of one name may come in any order, for the sort is not stable. */
  ghost predicate Resolved(requirements: seq<Requirement>, items: seq<SelectorItem>, result: seq<SelectorItem>) {
    NameOrdered(result) && multiset(result) == multiset(Selection(requirements, items, |items|))
  }

  method SortByName(items: seq<SelectorItem>) returns (ordered: seq<SelectorItem>)
    ensures NameOrdered(ordered) && multiset(ordered) == multiset(items)
  {
    ordered := [];
    for i := 0 to |items|
      invariant NameOrdered(ordered) && multiset(ordered) == multiset(items[..i])
    {
      assert items[..i + 1] == items[..i] + [items[i]];
      ordered := InsertByName(items[i], ordered);
    }
    assert items[..|items|] == items;
  }

  method InsertByName(item: SelectorItem, ordered: seq<SelectorItem>) returns (r: seq<SelectorItem>)
    requires NameOrdered(ordered)
    ensures NameOrdered(r) && multiset(r) == multiset(ordered) + multiset{item}
  {
    var k := 0;
    while k < |ordered| && Le(ordered[k].name, item.name)
      invariant k <= |ordered| && forall i :: 0 <= i < k ==> Le(ordered[i].name, item.name)
    {
      k := k + 1;
    }
    forall i | k <= i < |ordered|
      ensures Le(item.name, ordered[i].name)
    {
      LeTotal(ordered[k].name, item.name);
      if i > k { LeTransitive(item.name, ordered[k].name, ordered[i].name); }
    }
    assert ordered == ordered[..k] + ordered[k..];
    Inserted(ordered[..k], item, ordered[k..]);
    r := ordered[..k] + [item] + ordered[k..];
  }

  lemma Inserted(front: seq<SelectorItem>, item: SelectorItem, back: seq<SelectorItem>)
    requires NameOrdered(front + back)
    requires forall i :: 0 <= i < |front| ==> Le(front[i].name, item.name)
    requires forall i :: 0 <= i < |back| ==> Le(item.name, back[i].name)
    ensures NameOrdered(front + [item] + back)
    ensures multiset(front + [item] + back) == multiset(front + back) + multiset{item}
  {
    var whole, r := front + back, front + [item] + back;
    forall i, j | 0 <= i < j < |r|
      ensures Le(r[i].name, r[j].name)
    {
      var p, q := if i > |front| then i - 1 else i, if j > |front| then j - 1 else j;
      assert i != |front| ==> r[i] == whole[p];
      assert j != |front| ==> r[j] == whole[q];
    }
  }

  method Resolve(requirements: seq<Requirement>, items: seq<SelectorItem>) returns (result: seq<SelectorItem>)
    ensures Resolved(requirements, items, result)
  {
    var matched: seq<SelectorItem> := [];
    for i := 0 to |items|
      invariant matched == Selection(requirements, items, i)
    {
      var matches := Matches(requirements, Fields(items[i]));
      if matches {
        matched := matched + [items[i]];
      }
    }
    result := SortByName(matched);
  }

  lemma {:induction false} SelectionMembers(requirements: seq<Requirement>, items: seq<SelectorItem>, n: nat, item: SelectorItem)
    requires n <= |items|
    ensures item in Selection(requirements, items, n) <==> item in items[..n] && Selects(requirements, item)
  {
    if n > 0 {
      SelectionMembers(requirements, items, n - 1, item);
      assert items[..n] == items[..n - 1] + [items[n - 1]];
    }
  }

  /** An item is in a result exactly when it is in the inventory and its fields match. */
  lemma ResolvedMembers(requirements: seq<Requirement>, items: seq<SelectorItem>, result: seq<SelectorItem>, item: SelectorItem)
    requires Resolved(requirements, items, result)
    ensures item in result <==> item in items && Selects(requirements, item)
  {
    var selection := Selection(requirements, items, |items|);
    SelectionMembers(requirements, items, |items|, item);
    assert items[..|items|] == items;
    assert item in result <==> item in multiset(result);
    assert item in selection <==> item in multiset(selection);
  }

  lemma {:induction false} SelectionCounts(requirements: seq<Requirement>, items: seq<SelectorItem>, n: nat, item: SelectorItem)
    requires n <= |items|
    ensures multiset(Selection(requirements, items, n))[item] == if Selects(requirements, item) then multiset(items[..n])[item] else 0
  {
    if n > 0 {
      SelectionCounts(requirements, items, n - 1, item);
      assert items[..n] == items[..n - 1] + [items[n - 1]];
    }
  }

  /** A matching item is in a result as often as in the inventory. */
  lemma ResolvedCounts(requirements: seq<Requirement>, items: seq<SelectorItem>, result: seq<SelectorItem>, item: SelectorItem)
    requires Resolved(requirements, items, result)
    ensures multiset(result)[item] == if Selects(requirements, item) then multiset(items)[item] else 0
  {
    SelectionCounts(requirements, items, |items|, item);
    assert items[..|items|] == items;
  }

  lemma {:induction false} SameSelection(a: seq<Requirement>, b: seq<Requirement>, items: seq<SelectorItem>, n: nat)
    requires n <= |items| && forall labels :: Matching(a, labels) <==> Matching(b, labels)
    ensures Selection(a, items, n) == Selection(b, items, n)
  {
    if n > 0 {
      SameSelection(a, b, items, n - 1);
      assert Selects(a, items[n - 1]) <==> Selects(b, items[n - 1]);
    }
  }

  /** Every view a store holds parses (what Validate demands of a loaded or saved store). */
  predicate AllParse(views: map<string, string>) {
    forall name :: name in views ==> ValidName(name) && Parse(views[name]).Ok?
  }

  /** Selecting through the text a view stores is selecting through the text it was saved from,
      and saving the stored text again stores it unchanged. */
  lemma SavedTextSelectsTheSame(raw: string, items: seq<SelectorItem>, result: seq<SelectorItem>)
    requires Parse(raw).Ok?
    ensures var saved := String(Parse(raw).value);
            && Parse(saved).Ok? && String(Parse(saved).value) == saved
            && (Resolved(Parse(saved).value, items, result) <==> Resolved(Parse(raw).value, items, result))
  {
    ParsedRoundTrip(raw);
    SameSelection(Parse(String(Parse(raw).value)).value, Parse(raw).value, items, |items|);
  }

  class Store {
    var labels: map<string, Labels>
    var views: map<string, string>

    constructor ()
      ensures labels == map[] && views == map[] && AllParse(views)
    {
      labels := map[];
      views := map[];
    }

    method SaveView(name: string, selector: string) returns (failure: Option<Failure>)
      requires AllParse(views)
      modifies this`views
      ensures AllParse(views)
      ensures failure == if !ValidName(name) then Some(InvalidName(name))
                         else if Parse(selector).Err? then Some(BadSelector(Parse(selector).error))
                         else None
      ensures views == if failure == None then old(views)[name := String(Parse(selector).value)] else old(views)
    {
      if !ValidName(name) {
        return Some(InvalidName(name));
      }
      var parsed := ParseSelector(selector);
      if parsed.Err? {
        return Some(BadSelector(parsed.error));
      }
      var text := CanonicalString(parsed.value);
      ParsedRoundTrip(selector);
      views := views[name := text];
      failure := None;
    }

    method ResolveView(view: string, items: seq<SelectorItem>) returns (r: Option<Failure>, result: seq<SelectorItem>)
      ensures r == if view !in views then Some(UnknownView(view))
                   else if Parse(views[view]).Err? then Some(BadSelector(Parse(views[view]).error))
                   else None
      ensures r == None ==> Resolved(Parse(views[view]).value, items, result)
    {
      if view !in views {
        return Some(UnknownView(view)), [];
      }
      var parsed := ParseSelector(views[view]);
      if parsed.Err? {
        return Some(BadSelector(parsed.error)), [];
      }
      result := Resolve(parsed.value, items);
      r := None;
    }
  }

  /** A view resolves to what its source text selects. */
  method SaveThenResolve(store: Store, name: string, selector: string, items: seq<SelectorItem>) returns (result: seq<SelectorItem>)
    requires AllParse(store.views) && ValidName(name) && Parse(selector).Ok?
    modifies store`views
    ensures Resolved(Parse(selector).value, items, result)
    ensures AllParse(store.views) && store.views.Keys == old(store.views).Keys + {name}
  {
    var failure := store.SaveView(name, selector);
    var r;
    ParsedRoundTrip(selector);
    r, result := store.ResolveView(name, items);
    SavedTextSelectsTheSame(selector, items, result);
  }
}
