/** What the text of a selector means for labels and for live processes (catalog/selector.go,
    catalog/catalog.go, observe.go). */
module SelectorMeaning {
  import opened Ordering
  import opened Selector
  import opened SelectorProofs
  import opened Catalog
  import opened Observe

  // ----- How a requirement may be spelled -----

  predicate Spaces(s: string) { forall i :: 0 <= i < |s| ==> IsSpace(s[i]) }

  /** The text spells the requirement, with any spaces around key, sign and value. */
  ghost predicate Spells(t: string, r: Requirement) {
    WellFormed(r) && exists a, b, c, d :: SpelledWith(t, r, a, b, c, d)
  }

  predicate SpelledWith(t: string, r: Requirement, a: string, b: string, c: string, d: string) {
    && Spaces(a) && Spaces(b) && Spaces(c) && Spaces(d)
    && match r.op
       case Equals => t == a + r.key + b + "=" + c + r.value + d
       case NotEquals => t == a + r.key + b + "!=" + c + r.value + d
       case Exists => t == a + r.key + d && b == c == ""
       case NotExists => t == a + "!" + r.key + d && b == c == ""
       case Other(_) => false
  }

  /** Trim finds the one part that begins and ends in something else than a space. */
  lemma TrimFinds(s: string, lo: nat, hi: nat)
    requires lo <= hi <= |s| && Trimmed(s[lo..hi]) && Spaces(s[..lo]) && Spaces(s[hi..])
    ensures Trim(s) == s[lo..hi]
  {
    var i, j := TrimCuts(s);
    assert forall k :: 0 <= k < lo ==> s[k] == s[..lo][k];
    assert forall k :: hi <= k < |s| ==> s[k] == s[hi..][k - hi];
    assert lo < hi ==> s[lo..hi][0] == s[lo] && s[lo..hi][hi - lo - 1] == s[hi - 1];
    assert i < j ==> s[i..j][0] == s[i] && s[i..j][j - i - 1] == s[j - 1];
    if lo < hi {
      assert i == lo && j == hi;
    } else {
      assert i == j;
    }
  }

  lemma TrimAround(a: string, core: string, d: string)
    requires Spaces(a) && Spaces(d) && Trimmed(core)
    ensures Trim(a + core + d) == core
  {
    var s := a + core + d;
    assert s[|a|..|a| + |core|] == core && s[..|a|] == a && s[|a| + |core|..] == d;
    TrimFinds(s, |a|, |a| + |core|);
  }

  lemma KeyTrimmed(key: string)
    requires ValidKey(key)
    ensures Trimmed(key) && forall c :: c in key ==> c != '=' && c != '!' && c != ',' && !IsSpace(c)
  {
    KeyIsPlain(key);
  }

  /** Spaces at the end make no difference. */
  lemma TrimIgnoresTail(s: string, m: nat)
    requires m <= |s| && Spaces(s[m..])
    ensures Trim(s[..m]) == Trim(s)
  {
    var i, j := TrimCuts(s);
    assert forall k :: m <= k < |s| ==> s[k] == s[m..][k - m];
    if i < j {
      assert s[i..j][j - i - 1] == s[j - 1];
      assert j <= m && s[..m][i..j] == s[i..j];
      TrimFinds(s[..m], i, j);
    } else {
      TrimFinds(s[..m], 0, 0);
    }
  }

  /** What is left of spaces and a text that begins with none: the text but for spaces at its end. */
  lemma TrimHead(a: string, core: string) returns (m: nat)
    requires Spaces(a) && core != [] && !IsSpace(core[0])
    ensures 0 < m <= |core| && Trim(a + core) == core[..m] && Spaces(core[m..]) && !IsSpace(core[m - 1])
  {
    var t := a + core;
    var i, j := TrimCuts(t);
    assert t[|a|] == core[0];
    assert i < j && t[i..j][0] == t[i] && t[i..j][j - i - 1] == t[j - 1];
    assert forall k :: 0 <= k < |a| ==> t[k] == a[k];
    m := j - |a|;
    assert t[i..j] == core[..m];
    assert forall k :: m <= k < |core| ==> core[k] == t[|a| + k];
  }

  /** What is left of a pair when the outer spaces are gone: the key comes first, and behind the sign
      comes a text that trims to the value. */
  lemma TrimmedPair(a: string, core: string, front: string, rest: string) returns (tail: string)
    requires Spaces(a) && front != [] && !IsSpace(front[0]) && !IsSpace(front[|front| - 1]) && core == front + rest
    ensures Trim(a + core) == front + tail && Trim(tail) == Trim(rest) && tail <= rest
  {
    assert core[0] == front[0] && core[|front| - 1] == front[|front| - 1];
    var m := TrimHead(a, core);
    var n := |front|;
    assert forall k :: m <= k < |core| ==> core[m..][k - m] == core[k];
    assert m >= n;
    tail := rest[..m - n];
    assert core[..m] == front + tail && core[m..] == rest[m - n..];
    TrimIgnoresTail(rest, m - n);
  }

  // ----- The spellings are exactly what is accepted -----

  lemma SplitAtEquals(term: string, front: string, tail: string)
    requires term == front + "=" + tail && !HasNotEquals(term) && '=' !in front && front != [] && front[0] != '!'
    ensures ParseTerm(term) == Checked(Requirement(Trim(front), Equals, Trim(tail)))
  {
    assert term[|front|] == '=' && forall j :: 0 <= j < |front| ==> term[j] == front[j];
    FindFirst(term, '=', |front|);
    assert term[..|front|] == front && term[|front| + 1..] == tail;
  }

  lemma SplitAtNotEquals(term: string, front: string, tail: string)
    requires term == front + "!=" + tail && '!' !in front && front != []
    ensures ParseTerm(term) == Checked(Requirement(Trim(front), NotEquals, Trim(tail)))
  {
    var n := |front|;
    assert term == front + ['!', '='] + tail;
    assert term[n] == '!' && term[n + 1] == '=' && forall j :: 0 <= j < n ==> term[j] == front[j];
    FindNotEqualsFirst(term, n);
    assert term[..n] == front && term[n + 2..] == tail;
  }

  lemma KeyAndSpaces(key: string, b: string)
    requires ValidKey(key) && Spaces(b)
    ensures Trim(key + b) == key && '=' !in key + b && '!' !in key + b
  {
    KeyTrimmed(key);
    TrimAround("", key, b);
    assert "" + key + b == key + b;
    forall c | c in key + b
      ensures c != '=' && c != '!'
    {
      if c in b { var i :| 0 <= i < |b| && b[i] == c; }
    }
  }

  lemma ValueAndSpaces(c: string, value: string, d: string)
    requires ValidValue(value) && Spaces(c) && Spaces(d)
    ensures Trim(c + value + d) == value
  {
    var _, _ := TrimCuts(value);
    TrimAround(c, value, d);
  }

  lemma NoSignInSpaced(c: string, value: string, d: string)
    requires Spaces(c) && Spaces(d) && !HasNotEquals(value)
    ensures forall i: nat :: !NotEqualsAt(c + value + d, i)
  {
    var s := c + value + d;
    forall i: nat
      ensures !NotEqualsAt(s, i)
    {
      if |c| <= i < |c| + |value| {
        assert s[i] == value[i - |c|];
        assert !NotEqualsAt(value, i - |c|);
        assert i + 1 < |c| + |value| ==> s[i + 1] == value[i + 1 - |c|];
        assert |c| + |value| <= i + 1 < |s| ==> s[i + 1] == d[i + 1 - |c| - |value|];
      } else if 0 <= i < |c| {
        assert s[i] == c[i];
      } else if |c| + |value| <= i < |s| {
        assert s[i] == d[i - |c| - |value|];
      }
    }
  }

  lemma EqualsAccepted(t: string, key: string, value: string, a: string, b: string, c: string, d: string)
    requires SpelledWith(t, Requirement(key, Equals, value), a, b, c, d) && WellFormed(Requirement(key, Equals, value))
    ensures ParsePart(t) == Ok(Requirement(key, Equals, value))
  {
    var front, rest := key + b + "=", c + value + d;
    KeyTrimmed(key);
    assert t == a + (front + rest);
    var tail := TrimmedPair(a, front + rest, front, rest);
    KeyAndSpaces(key, b);
    ValueAndSpaces(c, value, d);
    NoSignInSpaced(c, value, d);
    var term := front + tail;
    forall i: nat
      ensures !NotEqualsAt(term, i)
    {
      if 0 <= i < |key + b| {
        assert term[i] == (key + b)[i];
      } else if i >= |front| {
        var k: nat := i - |front|;
        assert !NotEqualsAt(rest, k);
        assert NotEqualsAt(term, i) == NotEqualsAt(tail, k);
      }
    }
    SplitAtEquals(term, key + b, tail);
  }

  lemma NotEqualsAccepted(t: string, key: string, value: string, a: string, b: string, c: string, d: string)
    requires SpelledWith(t, Requirement(key, NotEquals, value), a, b, c, d) && WellFormed(Requirement(key, NotEquals, value))
    ensures ParsePart(t) == Ok(Requirement(key, NotEquals, value))
  {
    var front, rest := key + b + "!=", c + value + d;
    KeyTrimmed(key);
    assert t == a + (front + rest);
    var tail := TrimmedPair(a, front + rest, front, rest);
    KeyAndSpaces(key, b);
    ValueAndSpaces(c, value, d);
    SplitAtNotEquals(front + tail, key + b, tail);
  }

  lemma BareAccepted(t: string, r: Requirement, a: string, d: string)
    requires (r.op == Exists || r.op == NotExists) && WellFormed(r) && SpelledWith(t, r, a, "", "", d)
    ensures ParsePart(t) == Ok(r)
  {
    KeyTrimmed(r.key);
    if r.op == Exists {
      TrimAround(a, r.key, d);
      assert forall i: nat :: i < |r.key| ==> r.key[i] in r.key;
      assert forall i: nat :: !NotEqualsAt(r.key, i);
    } else {
      assert Trimmed("!" + r.key) by {
        assert ("!" + r.key)[|r.key|] == r.key[|r.key| - 1];
      }
      TrimAround(a, "!" + r.key, d);
      assert a + "!" + r.key + d == a + ("!" + r.key) + d;
      assert ("!" + r.key)[1..] == r.key;
    }
  }

  /** Every spelling is accepted, as what it spells. */
  lemma SpellingAccepted(t: string, r: Requirement)
    requires Spells(t, r)
    ensures ParsePart(t) == Ok(r)
  {
    var a, b, c, d :| SpelledWith(t, r, a, b, c, d);
    match r.op {
      case Equals => EqualsAccepted(t, r.key, r.value, a, b, c, d);
      case NotEquals => NotEqualsAccepted(t, r.key, r.value, a, b, c, d);
      case Exists => BareAccepted(t, r, a, d);
      case NotExists => BareAccepted(t, r, a, d);
    }
  }

  /** A text is spaces, its trimmed part, and spaces. */
  lemma TrimParts(s: string) returns (a: string, d: string)
    ensures s == a + Trim(s) + d && Spaces(a) && Spaces(d)
    ensures s != [] && !IsSpace(s[0]) ==> a == ""
  {
    var i, j := TrimCuts(s);
    a, d := s[..i], s[j..];
    assert s == s[..i] + s[i..j] + s[j..];
    assert forall k :: 0 <= k < |d| ==> d[k] == s[j + k];
  }

  lemma Regroup(a: string, key: string, b: string, sign: string, c: string, value: string, y: string, d: string)
    ensures a + ((key + b) + sign + (c + value + y)) + d == a + key + b + sign + c + value + (y + d)
  {
  }

  lemma SpacesAppend(a: string, b: string)
    requires Spaces(a) && Spaces(b)
    ensures Spaces(a + b)
  {
  }

  /** Spaces around a pair can be told apart from it. */
  lemma PairSpelled(r: Requirement, a: string, d: string, before: string, after: string) returns (b: string, c: string, e: string)
    requires WellFormed(r) && (r.op == Equals || r.op == NotEquals)
    requires Spaces(a) && Spaces(d) && Trim(before) == r.key && Trim(after) == r.value && before != [] && !IsSpace(before[0])
    ensures Spaces(b) && Spaces(c) && Spaces(e)
    ensures forall sign: string :: a + (before + sign + after) + d == a + r.key + b + sign + c + r.value + e
  {
    var x, y;
    x, b := TrimParts(before);
    c, y := TrimParts(after);
    assert before == r.key + b && after == c + r.value + y;
    e := y + d;
    SpacesAppend(y, d);
    forall sign: string
      ensures a + (before + sign + after) + d == a + r.key + b + sign + c + r.value + e
    {
      Regroup(a, r.key, b, sign, c, r.value, y, d);
    }
  }

  /** What a trimmed term looks like that is accepted as a pair. */
  lemma EqualsShapeOf(term: string, r: Requirement) returns (before: string, after: string)
    requires ParseTerm(term) == Ok(r) && r.op == Equals
    ensures term == before + "=" + after && Trim(before) == r.key && Trim(after) == r.value && before != []
  {
    var n := Find(term, '=');
    assert term[..|term|] == term;
    assert !HasNotEquals(term) && '=' in term && n < |term|;
    before, after := term[..n], term[n + 1..];
  }

  lemma NotEqualsShapeOf(term: string, r: Requirement) returns (before: string, after: string)
    requires ParseTerm(term) == Ok(r) && r.op == NotEquals
    ensures term == before + "!=" + after && Trim(before) == r.key && Trim(after) == r.value && before != []
  {
    var n := FindNotEquals(term);
    before, after := term[..n], term[n + 2..];
    assert term[n] == '!' && term[n + 1] == '=';
  }

  lemma BareShapeOf(term: string, r: Requirement)
    requires ParseTerm(term) == Ok(r)
    ensures r.op == Exists ==> term == r.key
    ensures r.op == NotExists ==> term == "!" + r.key
    ensures !r.op.Other?
  {
  }

  /** Whatever is accepted spells what it is accepted as. */
  lemma AcceptedIsSpelling(t: string, r: Requirement)
    requires ParsePart(t) == Ok(r)
    ensures Spells(t, r)
  {
    var term := Trim(t);
    ParsedTermWellFormed(term);
    BareShapeOf(term, r);
    var a, d := TrimParts(t);
    if r.op == Equals || r.op == NotEquals {
      var _, _ := TrimCuts(t);
      var before, after;
      if r.op == Equals {
        before, after := EqualsShapeOf(term, r);
      } else {
        before, after := NotEqualsShapeOf(term, r);
      }
      assert before[0] == term[0];
      var b, c, e := PairSpelled(r, a, d, before, after);
      assert SpelledWith(t, r, a, b, c, e);
    } else if r.op == NotExists {
      assert a + ("!" + r.key) + d == a + "!" + r.key + d;
      assert SpelledWith(t, r, a, "", "", d);
    } else {
      assert SpelledWith(t, r, a, "", "", d);
    }
  }

  lemma BlankIsSpaces(text: string)
    ensures Blank(text) <==> Spaces(text)
  {
    var i, j := TrimCuts(text);
    assert i < j ==> text[i..j][0] == text[i];
  }

  /** The language of selectors: a text is a selector of these requirements exactly if it is all
      spaces and there are none, or its parts between commas spell them one by one. */
  lemma ParsesExactly(text: string, rs: seq<Requirement>)
    ensures Parse(text) == Ok(rs) <==>
            if Spaces(text) then rs == []
            else |Split(text)| == |rs| && forall i :: 0 <= i < |rs| ==> Spells(Split(text)[i], rs[i])
  {
    BlankIsSpaces(text);
    if !Blank(text) {
      var parts := Split(text);
      if Parse(text) == Ok(rs) {
        ParseToEach(ParsePart, parts, |parts|);
        forall i | 0 <= i < |rs|
          ensures Spells(parts[i], rs[i])
        {
          AcceptedIsSpelling(parts[i], rs[i]);
        }
      }
      if |parts| == |rs| && forall i :: 0 <= i < |rs| ==> Spells(parts[i], rs[i]) {
        forall i | 0 <= i < |rs|
          ensures ParsePart(parts[i]) == Ok(rs[i])
        {
          SpellingAccepted(parts[i], rs[i]);
        }
        ParseToAll(ParsePart, parts, rs, |parts|);
        assert rs[..|parts|] == rs;
      }
    }
  }

  // ----- The canonical text -----

  lemma TermCounted(a: seq<Requirement>, b: seq<Requirement>, t: string)
    requires AllWellFormed(a) && AllWellFormed(b) && multiset(a) == multiset(b) && t in Terms(a)
    ensures multiset(Terms(a))[t] == multiset(Terms(b))[t]
  {
    TermsOf(a, |a|);
    var i :| 0 <= i < |a| && Terms(a)[i] == t;
    CountTerm(a, a[i]);
    CountTerm(b, a[i]);
  }

  /** Two selectors print the same text exactly if they are the same requirements, each as often, in
      whatever order. */
  lemma CanonicalExactly(a: seq<Requirement>, b: seq<Requirement>)
    requires AllWellFormed(a) && AllWellFormed(b)
    ensures String(a) == String(b) <==> multiset(a) == multiset(b)
  {
    if String(a) == String(b) {
      StringRoundTrip(a);
      StringRoundTrip(b);
    }
    if multiset(a) == multiset(b) {
      forall t
        ensures multiset(Terms(a))[t] == multiset(Terms(b))[t]
      {
        if t in Terms(a) {
          TermCounted(a, b, t);
        } else if t in Terms(b) {
          TermCounted(b, a, t);
        }
      }
      SortedUnique(Sort(Terms(a)), Sort(Terms(b)));
    }
  }

  // ----- What is refused -----

  predicate LetterOrDigit(c: int) { 48 <= c <= 57 || 65 <= c <= 90 || 97 <= c <= 122 }

  /** A key is letters, digits and `-./_`, and begins with a letter or a digit. */
  lemma KeyAlphabet(key: string)
    ensures ValidKey(key) <==>
              && key != "" && LetterOrDigit(key[0] as int)
              && forall i :: 0 <= i < |key| ==> LetterOrDigit(key[i] as int) || 45 <= key[i] as int <= 47 || key[i] as int == 95
  {
    assert forall i :: 0 <= i < |key| ==> key[i] in key;
  }

  /** The name of a view is the same without `/`. */
  lemma NameAlphabet(name: string)
    ensures ValidName(name) <==> ValidKey(name) && '/' !in name
  {
  }

  /** A value neither begins nor ends in a space, and has no comma and no control character. */
  lemma ValueAlphabet(value: string)
    ensures ValidValue(value) <==>
              && Trimmed(value)
              && forall i :: 0 <= i < |value| ==> value[i] != ',' && value[i] as int >= 32 && value[i] as int != 127
  {
    var _, _ := TrimCuts(value);
    if Trimmed(value) {
      TrimmedStays(value);
    }
    assert forall i :: 0 <= i < |value| ==> value[i] in value;
  }

  lemma SpaceAlphabet(c: char)
    ensures IsSpace(c) <==>
              || c as int in {9, 10, 11, 12, 13, 32, 133, 160, 5760, 8232, 8233, 8239, 8287, 12288}
              || 8192 <= c as int <= 8202
  {
  }

  /** The error of a refused term: it is empty, or a negation with a sign, or has no valid key, or has
      one and no valid value. */
  lemma TermErrors(t: string)
    requires ParsePart(t).Err?
    ensures match ParsePart(t).error
            case EmptyRequirement => Spaces(t)
            case InvalidRequirement(term) => term == Trim(t) && term != "" && term[0] == '!' && '=' in term
            case InvalidKey(key) => !Spaces(t) && !ValidKey(key)
            case InvalidValue(key) => !Spaces(t) && ValidKey(key)
    ensures Spaces(t) ==> ParsePart(t).error == EmptyRequirement
    ensures !Spaces(t) && Trim(t)[0] == '!' && '=' in Trim(t) ==> ParsePart(t).error == InvalidRequirement(Trim(t))
  {
    BlankIsSpaces(t);
  }

  /** The error of a refused text is that of its first bad part. */
  lemma {:induction false} FirstBadPart(parse: string -> Result<Requirement>, parts: seq<string>, n: nat) returns (k: nat)
    requires n <= |parts| && ParseTo(parse, parts, n).Err?
    ensures k < n && parse(parts[k]) == Err(ParseTo(parse, parts, n).error)
    ensures forall i :: 0 <= i < k ==> parse(parts[i]).Ok?
  {
    if ParseTo(parse, parts, n - 1).Err? {
      k := FirstBadPart(parse, parts, n - 1);
    } else {
      k := n - 1;
      ParseToEach(parse, parts, n - 1);
    }
  }

  lemma TextErrors(text: string) returns (k: nat)
    requires Parse(text).Err?
    ensures k < |Split(text)| && ParsePart(Split(text)[k]) == Err(Parse(text).error)
    ensures forall i :: 0 <= i < k ==> ParsePart(Split(text)[i]).Ok?
  {
    k := FirstBadPart(ParsePart, Split(text), |Split(text)|);
  }

  // ----- What requirements say -----

  /** A selector asks all that its requirements ask: the label with this value, not with this value,
      there at all, or not there. */
  lemma SelectorAsks(rs: seq<Requirement>, labels: map<string, string>)
    requires AllWellFormed(rs)
    ensures Matching(rs, labels) <==> forall i :: 0 <= i < |rs| ==>
              var r := rs[i];
              && (r.op == Equals ==> r.key in labels && labels[r.key] == r.value)
              && (r.op == NotEquals ==> r.key !in labels || labels[r.key] != r.value)
              && (r.op == Exists ==> r.key in labels)
              && (r.op == NotExists ==> r.key !in labels)
  {
    forall i | 0 <= i < |rs|
      ensures WellFormed(rs[i]) && rs[i] in rs
    {
    }
  }

  /** What a requirement on one key sees of a process: the live name, state, enabled flag and kind,
      and otherwise the label stored under the process's name. A stored label never hides a live field. */
  lemma ProcessFields(status: Status, labels: map<string, Labels>, key: string, value: string)
    ensures Selects([Requirement(key, Equals, value)], ItemOf(status, labels)) <==>
            if key == "name" then value == status.name
            else if key == "state" then value == status.state
            else if key == "enabled" then value == if status.enabled then "true" else "false"
            else if key == "kind" then value == if status.interval == "" then "persistent" else "heartbeat"
            else status.name in labels && key in labels[status.name] && labels[status.name][key] == value
    ensures Selects([Requirement(key, Exists, "")], ItemOf(status, labels)) <==>
            key in {"name", "state", "enabled", "kind"} || (status.name in labels && key in labels[status.name])
  {
    var equals, exists_ := Requirement(key, Equals, value), Requirement(key, Exists, "");
    assert equals in [equals] && exists_ in [exists_];
  }

  /** Without explicit names every process is a candidate, and otherwise those named. */
  lemma CandidateNames(explicit: seq<string>, statuses: seq<Status>, name: string)
    ensures name in Candidates(explicit, statuses) <==>
            if explicit == [] then exists i :: 0 <= i < |statuses| && statuses[i].name == name else name in explicit
  {
    if explicit == [] && name in NamesOf(statuses) {
      var s :| s in statuses && s.name == name;
      var i :| 0 <= i < |statuses| && statuses[i] == s;
    }
  }
}
