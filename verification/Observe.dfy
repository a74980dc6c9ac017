/** Which processes an observation covers: explicit names, a saved view and a selector
    together (observe.go). */
module Observe {
  import opened Options
  import opened Ordering
  import opened Selector
  import opened SelectorProofs
  import opened Catalog

  datatype Status = Status(name: string, state: string, enabled: bool, interval: string)

  datatype Problem = UnknownAngl(name: string) | NoSuchView(view: string) | Unparsable(error: ParseError)

  datatype Outcome = Names(names: seq<string>) | Problem(problem: Problem)

  function ItemOf(status: Status, labels: map<string, Labels>): SelectorItem {
    SelectorItem(status.name, status.state, status.enabled, if status.interval != "" then "heartbeat" else "persistent",
      if status.name in labels then labels[status.name] else map[])
  }

  function Items(statuses: seq<Status>, labels: map<string, Labels>): seq<SelectorItem> {
    seq(|statuses|, i requires 0 <= i < |statuses| => ItemOf(statuses[i], labels))
  }

  function NamesOf(statuses: seq<Status>): set<string> { set s | s in statuses :: s.name }

  /** The explicit names, or every name. */
  function Candidates(explicit: seq<string>, statuses: seq<Status>): set<string> {
    if explicit == [] then NamesOf(statuses) else Elements(explicit)
  }

  /** A status with this name whose fields match. */
  ghost predicate Chosen(requirements: seq<Requirement>, statuses: seq<Status>, labels: map<string, Labels>, name: string) {
    exists s :: s in statuses && s.name == name && Selects(requirements, ItemOf(s, labels))
  }

  /** The first explicit name that is not in the inventory. */
  predicate FirstUnknown(explicit: seq<string>, statuses: seq<Status>, k: int) {
    && 0 <= k < |explicit| && explicit[k] !in NamesOf(statuses)
    && forall i :: 0 <= i < k ==> explicit[i] in NamesOf(statuses)
  }

  predicate AllKnown(explicit: seq<string>, statuses: seq<Status>) {
    forall i :: 0 <= i < |explicit| ==> explicit[i] in NamesOf(statuses)
  }

  /** The text parsed for a view and a selector. The test is for emptiness, not for blankness. */
  function Combined(selector: string, viewText: string): string {
    if selector == "" then viewText else if viewText == "" then selector else viewText + [','] + selector
  }

  function ViewText(view: string, views: map<string, string>): string {
    if view != "" && view in views then views[view] else ""
  }

  /** The whole meaning of the call, after the unknown names. */
  ghost predicate Answers(explicit: seq<string>, text: string, statuses: seq<Status>, labels: map<string, Labels>, r: Outcome) {
    match Parse(text)
    case Err(e) => r == Problem(Unparsable(e))
    case Ok(requirements) =>
      r == Names(Listing(set n | n in Candidates(explicit, statuses) && Chosen(requirements, statuses, labels, n)))
  }

  /** The names of the items a selector resolves to. */
  method MatchedNames(requirements: seq<Requirement>, items: seq<SelectorItem>) returns (matched: set<string>)
    ensures forall n :: n in matched <==> exists item :: item in items && item.name == n && Selects(requirements, item)
  {
    var resolved := Resolve(requirements, items);
    matched := {};
    for i := 0 to |resolved|
      invariant forall n :: n in matched <==> exists j :: 0 <= j < i && resolved[j].name == n
    {
      matched := matched + {resolved[i].name};
    }
    forall n
      ensures n in matched <==> exists item :: item in items && item.name == n && Selects(requirements, item)
    {
      if n in matched {
        var j :| 0 <= j < |resolved| && resolved[j].name == n;
        ResolvedMembers(requirements, items, resolved, resolved[j]);
      }
      if item :| item in items && item.name == n && Selects(requirements, item) {
        ResolvedMembers(requirements, items, resolved, item);
        var j :| 0 <= j < |resolved| && resolved[j] == item;
      }
    }
  }

  method KnownNames(explicit: seq<string>, statuses: seq<Status>) returns (unknown: Option<string>, selected: set<string>)
    ensures unknown == None ==> AllKnown(explicit, statuses) && selected == Candidates(explicit, statuses)
    ensures unknown.Some? ==> !AllKnown(explicit, statuses)
    ensures unknown.Some? ==> exists k :: FirstUnknown(explicit, statuses, k) && unknown == Some(explicit[k])
  {
    var available := NamesOf(statuses);
    selected := {};
    if |explicit| == 0 {
      return None, available;
    }
    for i := 0 to |explicit|
      invariant forall j :: 0 <= j < i ==> explicit[j] in available
      invariant selected == Elements(explicit[..i])
    {
      if explicit[i] !in available {
        assert FirstUnknown(explicit, statuses, i);
        return Some(explicit[i]), selected;
      }
      assert explicit[..i + 1] == explicit[..i] + [explicit[i]];
      Appended(explicit[..i], explicit[i]);
      selected := selected + {explicit[i]};
    }
    assert explicit[..|explicit|] == explicit;
    unknown := None;
  }

  lemma ChosenItems(requirements: seq<Requirement>, statuses: seq<Status>, labels: map<string, Labels>, name: string)
    ensures Chosen(requirements, statuses, labels, name) <==>
            exists item :: item in Items(statuses, labels) && item.name == name && Selects(requirements, item)
  {
    var items := Items(statuses, labels);
    if s :| s in statuses && s.name == name && Selects(requirements, ItemOf(s, labels)) {
      var i :| 0 <= i < |statuses| && statuses[i] == s;
      assert items[i] in items && items[i].name == name;
    }
    if item :| item in items && item.name == name && Selects(requirements, item) {
      var i :| 0 <= i < |items| && items[i] == item;
      assert statuses[i] in statuses && ItemOf(statuses[i], labels) == item;
    }
  }

  method ResolveObservationNames(explicit: seq<string>, selector: string, view: string, statuses: seq<Status>,
                                 labels: map<string, Labels>, views: map<string, string>)
    returns (r: Outcome)
    ensures !AllKnown(explicit, statuses) ==>
              exists k :: FirstUnknown(explicit, statuses, k) && r == Problem(UnknownAngl(explicit[k]))
    ensures AllKnown(explicit, statuses) && view != "" && view !in views ==> r == Problem(NoSuchView(view))
    ensures AllKnown(explicit, statuses) && (view == "" || view in views) ==>
              Answers(explicit, Combined(selector, ViewText(view, views)), statuses, labels, r)
  {
    var unknown, selected := KnownNames(explicit, statuses);
    if unknown.Some? {
      return Problem(UnknownAngl(unknown.value));
    }
    var combined := selector;
    if view != "" {
      if view !in views {
        return Problem(NoSuchView(view));
      }
      if combined == "" {
        combined := views[view];
      } else if views[view] != "" {
        combined := views[view] + "," + combined;
      }
    }
    r := Narrow(explicit, selected, combined, statuses, labels);
  }

  /** The selection narrowed by the combined text, deleting what it does not match. */
  method Narrow(explicit: seq<string>, candidates: set<string>, combined: string, statuses: seq<Status>, labels: map<string, Labels>)
    returns (r: Outcome)
    requires AllKnown(explicit, statuses) && candidates == Candidates(explicit, statuses)
    ensures Answers(explicit, combined, statuses, labels, r)
  {
    var selected := candidates;
    if combined != "" {
      var parsed := ParseSelector(combined);
      if parsed.Err? {
        return Problem(Unparsable(parsed.error));
      }
      var matched := MatchedNames(parsed.value, Items(statuses, labels));
      var todo := selected;
      while todo != {}
        invariant todo <= candidates && selected == (set n | n in candidates && (n in todo || n in matched))
        decreases |todo|
      {
        var name :| name in todo;
        if name !in matched {
          selected := selected - {name};
        }
        todo := todo - {name};
      }
      forall n
        ensures n in matched <==> Chosen(parsed.value, statuses, labels, n)
      {
        ChosenItems(parsed.value, statuses, labels, n);
      }
    } else {
      EmptyTextChoosesAll(explicit, statuses, labels);
    }
    assert selected == set n | n in candidates && Chosen(Parse(combined).value, statuses, labels, n);
    var names := SortedNames(selected);
    r := Names(names);
  }

  lemma EmptyTextChoosesAll(explicit: seq<string>, statuses: seq<Status>, labels: map<string, Labels>)
    requires AllKnown(explicit, statuses)
    ensures Parse("") == Ok([])
    ensures forall n :: n in Candidates(explicit, statuses) ==> Chosen([], statuses, labels, n)
  {
    TrimmedStays("");
    forall n | n in Candidates(explicit, statuses)
      ensures Chosen([], statuses, labels, n)
    {
      assert n in NamesOf(statuses);
      var s :| s in statuses && s.name == n;
      assert Selects([], ItemOf(s, labels));
    }
  }

  // ----- What combining the two texts means -----

  /** The fields of this status match a text that parses. */
  predicate TextSelects(text: string, status: Status, labels: map<string, Labels>) {
    Parse(text).Ok? && Selects(Parse(text).value, ItemOf(status, labels))
  }

  lemma MatchingBoth(a: seq<Requirement>, b: seq<Requirement>, fields: Labels)
    ensures Matching(a + b, fields) <==> Matching(a, fields) && Matching(b, fields)
  {
    assert forall r :: r in a + b <==> r in a || r in b;
  }

  /** The combined text parses exactly when each text parses and a blank text is not joined to
      another; it then selects what both select. */
  lemma CombinedMeansBoth(selector: string, viewText: string)
    ensures Parse(Combined(selector, viewText)).Ok? <==>
              && Parse(selector).Ok? && Parse(viewText).Ok?
              && (selector == "" || viewText == "" || (!Blank(selector) && !Blank(viewText)))
    ensures Parse(Combined(selector, viewText)).Ok? ==> forall s, labels ::
              TextSelects(Combined(selector, viewText), s, labels) <==>
              TextSelects(selector, s, labels) && TextSelects(viewText, s, labels)
  {
    TrimmedStays("");
    CombinedParse(viewText, selector);
    if Parse(Combined(selector, viewText)).Ok? {
      forall s, labels
        ensures TextSelects(Combined(selector, viewText), s, labels) <==>
                TextSelects(selector, s, labels) && TextSelects(viewText, s, labels)
      {
        MatchingBoth(Parse(viewText).value, Parse(selector).value, Fields(ItemOf(s, labels)));
      }
    }
  }

  /** The names are the sorted, duplicate-free intersection of the candidates, what the view
      matches and what the selector matches, and the call fails in no other way than the three
      the error cases name, or by joining a blank text. */
  lemma NamesAreTheIntersection(explicit: seq<string>, selector: string, viewText: string, statuses: seq<Status>,
                                labels: map<string, Labels>, r: Outcome)
    requires AllKnown(explicit, statuses)
    requires Answers(explicit, Combined(selector, viewText), statuses, labels, r)
    ensures r.Names? <==>
              && Parse(selector).Ok? && Parse(viewText).Ok?
              && (selector == "" || viewText == "" || (!Blank(selector) && !Blank(viewText)))
    ensures r.Names? ==> Sorted(r.names) && Distinct(r.names)
    ensures r.Names? ==> forall n :: n in r.names <==>
              && n in Candidates(explicit, statuses)
              && exists s :: s in statuses && s.name == n && TextSelects(selector, s, labels) && TextSelects(viewText, s, labels)
  {
    CombinedMeansBoth(selector, viewText);
    var text := Combined(selector, viewText);
    if r.Names? {
      forall n
        ensures n in r.names <==>
              && n in Candidates(explicit, statuses)
              && exists s :: s in statuses && s.name == n && TextSelects(selector, s, labels) && TextSelects(viewText, s, labels)
      {
        assert n in r.names <==> n in Elements(r.names);
        ChosenByBoth(selector, viewText, statuses, labels, n);
      }
    }
  }

  lemma ChosenByBoth(selector: string, viewText: string, statuses: seq<Status>, labels: map<string, Labels>, n: string)
    requires Parse(Combined(selector, viewText)).Ok?
    ensures Chosen(Parse(Combined(selector, viewText)).value, statuses, labels, n) <==>
            exists s :: s in statuses && s.name == n && TextSelects(selector, s, labels) && TextSelects(viewText, s, labels)
  {
    CombinedMeansBoth(selector, viewText);
    var text := Combined(selector, viewText);
    if s :| s in statuses && s.name == n && Selects(Parse(text).value, ItemOf(s, labels)) {
      assert TextSelects(text, s, labels);
    }
    if s :| s in statuses && s.name == n && TextSelects(selector, s, labels) && TextSelects(viewText, s, labels) {
      assert TextSelects(text, s, labels);
    }
  }

  /** A selector of spaces selects everything on its own but fails beside a view. */
  lemma BlankSelectorBesideAView(viewText: string)
    requires Parse(viewText).Ok? && viewText != ""
    ensures Parse(Combined(" ", "")) == Ok([])
    ensures Parse(Combined(" ", viewText)).Err?
  {
    assert TrimLeft(" ") == [];
    CombinedMeansBoth(" ", viewText);
  }
}
