/** Round trips of the selector language (catalog/selector.go, catalog/catalog.go). */
module SelectorProofs {
  import opened Ordering
  import opened Selector

  // ----- Trimming -----

  lemma {:induction false} TrimLeftSuffix(s: string) returns (i: nat)
    ensures i <= |s| && TrimLeft(s) == s[i..]
    ensures TrimLeft(s) != [] ==> !IsSpace(TrimLeft(s)[0])
    ensures forall j :: 0 <= j < i ==> IsSpace(s[j])
  {
    if s != [] && IsSpace(s[0]) {
      i := TrimLeftSuffix(s[1..]);
      assert forall j :: 1 <= j < i + 1 ==> s[j] == s[1..][j - 1];
      i := i + 1;
    } else {
      i := 0;
    }
  }

  lemma {:induction false} TrimRightPrefix(s: string) returns (j: nat)
    ensures j <= |s| && TrimRight(s) == s[..j]
    ensures TrimRight(s) != [] ==> !IsSpace(TrimRight(s)[j - 1])
    ensures forall k :: j <= k < |s| ==> IsSpace(s[k])
  {
    if s != [] && IsSpace(s[|s| - 1]) {
      j := TrimRightPrefix(s[..|s| - 1]);
    } else {
      j := |s|;
    }
  }

  /** Trim cuts spaces off both ends and nothing else. */
  lemma TrimCuts(s: string) returns (i: nat, j: nat)
    ensures i <= j <= |s| && Trim(s) == s[i..j] && Trimmed(Trim(s))
    ensures forall k :: 0 <= k < i || j <= k < |s| ==> IsSpace(s[k])
  {
    i := TrimLeftSuffix(s);
    var n := TrimRightPrefix(s[i..]);
    j := i + n;
    assert forall k :: j <= k < |s| ==> s[k] == s[i..][k - i];
  }

  lemma TrimmedStays(s: string)
    requires Trimmed(s)
    ensures Trim(s) == s
  {
  }

  lemma NotBlank(s: string, k: nat)
    requires k < |s| && !IsSpace(s[k])
    ensures !Blank(s)
  {
    var i, j := TrimCuts(s);
    assert i <= k < j;
  }

  // ----- Splitting and joining -----

  lemma PrependAppend(c: char, a: seq<string>, b: seq<string>)
    requires a != []
    ensures PrependChar(c, a + b) == PrependChar(c, a) + b
  {
    assert (a + b)[1..] == a[1..] + b;
  }

  lemma {:induction false} SplitComma(a: string, b: string)
    ensures Split(a + [','] + b) == Split(a) + Split(b)
  {
    var whole := a + [','] + b;
    if a == [] {
      assert whole[1..] == b;
    } else {
      assert whole[1..] == a[1..] + [','] + b && whole[0] == a[0];
      SplitComma(a[1..], b);
      PrependAppend(a[0], Split(a[1..]), Split(b));
    }
  }

  lemma {:induction false} SplitOne(a: string)
    requires ',' !in a
    ensures Split(a) == [a]
  {
    if a != [] {
      SplitOne(a[1..]);
      assert a[0] in a;
      assert [a[0]] + a[1..] == a;
    }
  }

  lemma {:induction false} SplitJoin(parts: seq<string>)
    requires parts != [] && forall p :: p in parts ==> ',' !in p
    ensures Split(Join(parts)) == parts
  {
    assert parts[0] in parts;
    SplitOne(parts[0]);
    if |parts| > 1 {
      SplitComma(parts[0], Join(parts[1..]));
      SplitJoin(parts[1..]);
      assert parts == [parts[0]] + parts[1..];
    }
  }

  lemma {:induction false} ParseToPrefix(parse: string -> Result<Requirement>, a: seq<string>, b: seq<string>, n: nat)
    requires n <= |a| && n <= |b| && forall i :: 0 <= i < n ==> a[i] == b[i]
    ensures ParseTo(parse, a, n) == ParseTo(parse, b, n)
  {
    if n > 0 { ParseToPrefix(parse, a, b, n - 1); }
  }

  /** Two lists of parts parse together exactly when both parse, and then to both results. */
  lemma {:induction false} ParseToAppend(parse: string -> Result<Requirement>, a: seq<string>, b: seq<string>,
                                         whole: seq<string>, n: nat, m: nat)
    requires n <= |b| && |whole| == |a| + |b| && m == |a| + n
    requires forall i :: 0 <= i < |a| ==> whole[i] == a[i]
    requires forall i :: 0 <= i < |b| ==> whole[|a| + i] == b[i]
    ensures var all := ParseTo(parse, whole, m);
            var first, second := ParseTo(parse, a, |a|), ParseTo(parse, b, n);
            && (all.Ok? <==> first.Ok? && second.Ok?)
            && (all.Ok? ==> all.value == first.value + second.value)
  {
    if n == 0 {
      ParseToPrefix(parse, a, whole, |a|);
    } else {
      ParseToAppend(parse, a, b, whole, n - 1, m - 1);
    }
  }

  /** What every part parses to is what the list parses to. */
  lemma {:induction false} ParseToEach(parse: string -> Result<Requirement>, parts: seq<string>, n: nat)
    requires n <= |parts| && ParseTo(parse, parts, n).Ok?
    ensures |ParseTo(parse, parts, n).value| == n
    ensures forall i :: 0 <= i < n ==> parse(parts[i]) == Ok(ParseTo(parse, parts, n).value[i])
  {
    if n > 0 { ParseToEach(parse, parts, n - 1); }
  }

  lemma {:induction false} ParseToAll(parse: string -> Result<Requirement>, parts: seq<string>, rs: seq<Requirement>, n: nat)
    requires n <= |parts| == |rs| && forall i :: 0 <= i < n ==> parse(parts[i]) == Ok(rs[i])
    ensures ParseTo(parse, parts, n) == Ok(rs[..n])
  {
    if n > 0 {
      ParseToAll(parse, parts, rs, n - 1);
      assert rs[..n] == rs[..n - 1] + [rs[n - 1]];
    }
  }

  // ----- What parsing can return -----

  /** A requirement the parser can return. The value of an `=` never contains "!=". */
  predicate WellFormed(r: Requirement) {
    && ValidKey(r.key)
    && match r.op
       case Equals => ValidValue(r.value) && !HasNotEquals(r.value)
       case NotEquals => ValidValue(r.value)
       case Exists | NotExists => r.value == []
       case Other(_) => false
  }

  lemma NoNotEqualsInside(s: string, lo: nat, hi: nat)
    requires lo <= hi <= |s| && !HasNotEquals(s)
    ensures !HasNotEquals(s[lo..hi])
  {
    forall i: nat
      ensures NotEqualsAt(s[lo..hi], i) ==> NotEqualsAt(s, lo + i)
    {
    }
  }

  lemma TrimKeepsNotEqualsOut(s: string, n: nat)
    requires n <= |s| && !HasNotEquals(s)
    ensures !HasNotEquals(Trim(s[n..]))
  {
    var i, j := TrimCuts(s[n..]);
    assert s[n..][i..j] == s[n + i..n + j];
    NoNotEqualsInside(s, n + i, n + j);
  }

  lemma ParsedTermWellFormed(term: string)
    requires ParseTerm(term).Ok?
    ensures WellFormed(ParseTerm(term).value)
  {
    if !HasNotEquals(term) {
      var n := Find(term, '=');
      if n < |term| {
        TrimKeepsNotEqualsOut(term, n + 1);
      }
    }
  }

  lemma ParsedWellFormed(raw: string)
    requires Parse(raw).Ok?
    ensures AllWellFormed(Parse(raw).value)
  {
    if !Blank(raw) {
      var parts, parsed := Split(raw), Parse(raw).value;
      ParseToEach(ParsePart, parts, |parts|);
      forall i | 0 <= i < |parsed|
        ensures WellFormed(parsed[i])
      {
        assert ParsePart(parts[i]) == Ok(parsed[i]);
        ParsedTermWellFormed(Trim(parts[i]));
      }
    }
  }

  // ----- Printing and parsing one term -----

  lemma {:induction false} FindFirst(s: string, c: char, k: nat)
    requires k < |s| && s[k] == c && forall j :: 0 <= j < k ==> s[j] != c
    ensures Find(s, c) == k
  {
    if k > 0 {
      assert s[0] != c;
      assert forall j :: 0 <= j < k - 1 ==> s[1..][j] == s[j + 1];
      FindFirst(s[1..], c, k - 1);
    }
  }

  lemma {:induction false} FindNotEqualsFirst(s: string, k: nat)
    requires NotEqualsAt(s, k) && forall j :: 0 <= j < k ==> !NotEqualsAt(s, j)
    ensures FindNotEquals(s) == k
  {
    if k > 0 {
      assert !NotEqualsAt(s, 0);
      assert forall j :: 0 <= j < k - 1 ==> NotEqualsAt(s[1..], j) == NotEqualsAt(s, j + 1);
      FindNotEqualsFirst(s[1..], k - 1);
    }
  }

  lemma KeyIsPlain(key: string)
    requires ValidKey(key)
    ensures Trim(key) == key && !IsSpace(key[|key| - 1])
    ensures forall i :: 0 <= i < |key| ==> key[i] != '=' && key[i] != '!' && key[i] != ','
  {
    assert forall i :: 0 <= i < |key| ==> key[i] in key;
    TrimmedStays(key);
  }

  lemma EqualsTerm(r: Requirement)
    requires WellFormed(r) && r.op == Equals
    ensures ParseTerm(Print(r)) == Ok(r)
  {
    KeyIsPlain(r.key);
    var t, n := Print(r), |r.key|;
    forall i | 0 <= i < |t|
      ensures !NotEqualsAt(t, i)
    {
      if i < n {
        assert t[i] == r.key[i];
      } else if i > n {
        assert NotEqualsAt(t, i) == NotEqualsAt(r.value, i - n - 1);
      }
    }
    assert t[n] == '=' && forall j :: 0 <= j < n ==> t[j] == r.key[j];
    FindFirst(t, '=', n);
    assert t[..n] == r.key && t[n + 1..] == r.value;
  }

  lemma NotEqualsTerm(r: Requirement)
    requires WellFormed(r) && r.op == NotEquals
    ensures ParseTerm(Print(r)) == Ok(r)
  {
    KeyIsPlain(r.key);
    var t, n := Print(r), |r.key|;
    assert t == r.key + ['!', '='] + r.value;
    assert forall j :: 0 <= j < n ==> t[j] == r.key[j];
    FindNotEqualsFirst(t, n);
    assert t[..n] == r.key && t[n + 2..] == r.value;
  }

  lemma BareTerm(r: Requirement)
    requires WellFormed(r) && (r.op == Exists || r.op == NotExists)
    ensures ParseTerm(Print(r)) == Ok(r)
  {
    KeyIsPlain(r.key);
    assert forall i :: !NotEqualsAt(r.key, i);
    assert "!" + r.key == ['!'] + r.key;
    assert ("!" + r.key)[1..] == r.key;
  }

  /** A term that splitting and trimming leave whole. */
  predicate Whole(t: string) { t != [] && Trim(t) == t && !IsSpace(t[0]) && ',' !in t }

  lemma PairShape(key: string, sign: string, value: string)
    requires ValidKey(key) && (sign == "=" || sign == "!=") && ValidValue(value)
    ensures var t := key + sign + value; t != [] && Trimmed(t) && !IsSpace(t[0]) && ',' !in t
  {
    KeyIsPlain(key);
    var _, _ := TrimCuts(value);
    var t := key + sign + value;
    assert t[0] == key[0];
    assert t[|t| - 1] == if value == [] then '=' else value[|value| - 1];
  }

  lemma PrintedShape(r: Requirement)
    requires WellFormed(r)
    ensures var t := Print(r); t != [] && Trimmed(t) && !IsSpace(t[0]) && ',' !in t
  {
    if r.op == Equals {
      PairShape(r.key, "=", r.value);
    } else if r.op == NotEquals {
      PairShape(r.key, "!=", r.value);
    } else {
      KeyIsPlain(r.key);
    }
  }

  /** A printed requirement parses back to itself. */
  lemma TermRoundTrip(r: Requirement)
    requires WellFormed(r)
    ensures ParsePart(Print(r)) == Ok(r) && Whole(Print(r))
  {
    PrintedShape(r);
    TrimmedStays(Print(r));
    match r.op {
      case Equals => EqualsTerm(r);
      case NotEquals => NotEqualsTerm(r);
      case Exists => BareTerm(r);
      case NotExists => BareTerm(r);
    }
  }

  // ----- The round trip -----

  predicate AllWellFormed(requirements: seq<Requirement>) {
    forall i :: 0 <= i < |requirements| ==> WellFormed(requirements[i])
  }

  lemma {:induction false} TermsOf(requirements: seq<Requirement>, n: nat)
    requires AllWellFormed(requirements) && n <= |requirements|
    ensures |TermsTo(requirements, n)| == n
    ensures forall i :: 0 <= i < n ==> TermsTo(requirements, n)[i] == Print(requirements[i])
  {
    if n > 0 { TermsOf(requirements, n - 1); }
  }

  lemma ParseJoined(terms: seq<string>)
    requires terms != [] && forall i :: 0 <= i < |terms| ==> Whole(terms[i])
    ensures Parse(Join(terms)) == ParseTo(ParsePart, terms, |terms|)
  {
    forall p | p in terms
      ensures ',' !in p
    {
      var i :| 0 <= i < |terms| && terms[i] == p;
    }
    SplitJoin(terms);
    assert Join(terms)[0] == terms[0][0];
    NotBlank(Join(terms), 0);
  }

  /** Whatever order the terms are in, some order of the requirements prints as it. */
  lemma {:induction false} Arranged(print_: Requirement -> string, rs: seq<Requirement>, printed: seq<string>, terms: seq<string>, n: nat)
    returns (arranged: seq<Requirement>)
    requires n <= |terms| && |printed| == |rs| && forall k :: 0 <= k < |rs| ==> printed[k] == print_(rs[k])
    requires forall t :: t in terms ==> t in printed
    ensures |arranged| == n
    ensures forall i :: 0 <= i < n ==> arranged[i] in rs && print_(arranged[i]) == terms[i]
  {
    if n == 0 {
      arranged := [];
    } else {
      arranged := Arranged(print_, rs, printed, terms, n - 1);
      assert terms[n - 1] in printed;
      var k :| 0 <= k < |rs| && printed[k] == terms[n - 1];
      arranged := arranged + [rs[k]];
    }
  }

  lemma SortKeeps(s: seq<string>)
    ensures |Sort(s)| == |s| && forall t :: t in Sort(s) <==> t in s
  {
    SameMultisetSameElements(Sort(s), s);
    assert forall t :: t in s <==> t in Elements(s);
    assert forall t :: t in Sort(s) <==> t in Elements(Sort(s));
  }

  lemma ParseWhole(terms: seq<string>, rs: seq<Requirement>)
    requires |terms| == |rs| && forall i :: 0 <= i < |terms| ==> Whole(terms[i]) && ParsePart(terms[i]) == Ok(rs[i])
    ensures Parse(Join(terms)) == Ok(rs)
  {
    if terms == [] {
      TrimmedStays([]);
    } else {
      ParseJoined(terms);
      ParseToAll(ParsePart, terms, rs, |terms|);
      assert rs[..|rs|] == rs;
    }
  }

  /** The requirements a reparse yields, in the order of their printed terms. */
  lemma Reparsed(requirements: seq<Requirement>) returns (again: seq<Requirement>)
    requires AllWellFormed(requirements)
    ensures Parse(String(requirements)) == Ok(again) && |again| == |requirements|
    ensures forall i :: 0 <= i < |again| ==> again[i] in requirements && WellFormed(again[i])
    ensures Terms(again) == Sort(Terms(requirements))
  {
    var terms := Sort(Terms(requirements));
    SortKeeps(Terms(requirements));
    TermsOf(requirements, |requirements|);
    again := Arranged(Print, requirements, Terms(requirements), terms, |terms|);
    forall i | 0 <= i < |terms|
      ensures Whole(terms[i]) && ParsePart(terms[i]) == Ok(again[i])
    {
      TermRoundTrip(again[i]);
    }
    ParseWhole(terms, again);
    SameTerms(again, terms);
  }

  lemma SameTerms(requirements: seq<Requirement>, terms: seq<string>)
    requires AllWellFormed(requirements) && |requirements| == |terms|
    requires forall i :: 0 <= i < |terms| ==> Print(requirements[i]) == terms[i]
    ensures Terms(requirements) == terms
  {
    TermsOf(requirements, |requirements|);
  }

  lemma SameMatches(a: seq<Requirement>, b: seq<Requirement>)
    requires forall r :: r in a <==> r in b
    ensures forall labels :: Matching(a, labels) <==> Matching(b, labels)
  {
  }

  lemma ReparsedHasAll(requirements: seq<Requirement>, again: seq<Requirement>, r: Requirement)
    requires AllWellFormed(requirements) && AllWellFormed(again)
    requires Terms(again) == Sort(Terms(requirements)) && r in requirements
    ensures r in again
  {
    TermsOf(requirements, |requirements|);
    TermsOf(again, |again|);
    SortKeeps(Terms(requirements));
    var k :| 0 <= k < |requirements| && requirements[k] == r;
    assert Terms(requirements)[k] in Terms(again);
    var i :| 0 <= i < |again| && Terms(again)[i] == Print(r);
    TermRoundTrip(r);
    TermRoundTrip(again[i]);
  }

  /** Different requirements print differently. */
  lemma PrintInjective(a: Requirement, b: Requirement)
    requires WellFormed(a) && WellFormed(b) && Print(a) == Print(b)
    ensures a == b
  {
    TermRoundTrip(a);
    TermRoundTrip(b);
  }

  /** Mapping by a function that tells x from every other element keeps the count of x. */
  lemma {:induction false} CountMapped<S, T>(f: S -> T, a: seq<S>, b: seq<T>, n: nat, x: S)
    requires n <= |a| == |b| && forall i :: 0 <= i < n ==> b[i] == f(a[i]) && (f(a[i]) == f(x) ==> a[i] == x)
    ensures multiset(a[..n])[x] == multiset(b[..n])[f(x)]
  {
    if n > 0 {
      CountMapped(f, a, b, n - 1, x);
      assert a[..n] == a[..n - 1] + [a[n - 1]] && b[..n] == b[..n - 1] + [b[n - 1]];
    }
  }

  /** A requirement occurs as often as its term. */
  lemma CountTerm(requirements: seq<Requirement>, r: Requirement)
    requires AllWellFormed(requirements) && WellFormed(r)
    ensures multiset(requirements)[r] == multiset(Terms(requirements))[Print(r)]
  {
    var n, terms := |requirements|, Terms(requirements);
    TermsOf(requirements, n);
    forall i | 0 <= i < n
      ensures Print(requirements[i]) == Print(r) ==> requirements[i] == r
    {
      if Print(requirements[i]) == Print(r) { PrintInjective(requirements[i], r); }
    }
    CountMapped(Print, requirements, terms, n, r);
    assert requirements[..n] == requirements && terms[..n] == terms;
  }

  lemma SameCounts(a: seq<Requirement>, b: seq<Requirement>)
    requires AllWellFormed(a) && AllWellFormed(b) && multiset(Terms(a)) == multiset(Terms(b))
    ensures multiset(a) == multiset(b)
  {
    forall r
      ensures multiset(a)[r] == multiset(b)[r]
    {
      if WellFormed(r) {
        CountTerm(a, r);
        CountTerm(b, r);
      } else {
        assert r !in a && r !in b;
      }
    }
  }

  /** Parsing what a parsed selector prints succeeds and yields its requirements sorted by their
      printed terms: each the same number of times, matching the same labels, and printing the
      same string again. */
  lemma StringRoundTrip(requirements: seq<Requirement>)
    requires AllWellFormed(requirements)
    ensures Parse(String(requirements)).Ok?
    ensures var again := Parse(String(requirements)).value;
            && Terms(again) == Sort(Terms(requirements))
            && multiset(again) == multiset(requirements)
            && (forall r :: r in again <==> r in requirements)
            && (forall labels :: Matching(again, labels) <==> Matching(requirements, labels))
            && String(again) == String(requirements)
  {
    var again := Reparsed(requirements);
    var terms := Sort(Terms(requirements));
    SortedUnique(Sort(terms), terms);
    forall r | r in requirements
      ensures r in again
    {
      ReparsedHasAll(requirements, again, r);
    }
    SameMatches(again, requirements);
    SameCounts(again, requirements);
  }

  /** So it is for everything the parser returns. */
  lemma ParsedRoundTrip(raw: string)
    requires Parse(raw).Ok?
    ensures var s := Parse(raw).value;
            && Parse(String(s)).Ok? && Terms(Parse(String(s)).value) == Sort(Terms(s))
            && multiset(Parse(String(s)).value) == multiset(s)
            && (forall labels :: Matching(Parse(String(s)).value, labels) <==> Matching(s, labels))
            && String(Parse(String(s)).value) == String(s)
  {
    ParsedWellFormed(raw);
    StringRoundTrip(Parse(raw).value);
  }

  // ----- Combining two selectors -----

  /** A blank string is one blank part, which no list of parts may contain. */
  lemma BlankPart(a: string)
    requires Blank(a)
    ensures Parse(a) == Ok([]) && ParseTo(ParsePart, Split(a), |Split(a)|) == Err(EmptyRequirement)
  {
    var i, j := TrimCuts(a);
    assert forall k :: 0 <= k < |a| ==> IsSpace(a[k]);
    SplitOne(a);
    assert ParseTo(ParsePart, [a], 0) == Ok([]);
  }

  /** The parts of a text parse exactly when it parses and is not blank, and then to the same. */
  lemma PartsOf(a: string)
    ensures var parts := ParseTo(ParsePart, Split(a), |Split(a)|);
            && (parts.Ok? <==> Parse(a).Ok? && !Blank(a))
            && (parts.Ok? ==> parts == Parse(a))
  {
    if Blank(a) { BlankPart(a); }
  }

  lemma JoinedIsNotBlank(a: string, b: string, whole: string)
    requires whole == a + [','] + b
    ensures !Blank(whole) && Split(whole) == Split(a) + Split(b)
  {
    assert whole[|a|] == ',';
    NotBlank(whole, |a|);
    SplitComma(a, b);
  }

  lemma CombinedAs(a: string, b: string, whole: string)
    requires whole == a + [','] + b
    ensures Parse(whole).Ok? <==> Parse(a).Ok? && Parse(b).Ok? && !Blank(a) && !Blank(b)
    ensures Parse(whole).Ok? ==> Parse(whole).value == Parse(a).value + Parse(b).value
  {
    JoinedIsNotBlank(a, b, whole);
    ParseToAppend(ParsePart, Split(a), Split(b), Split(whole), |Split(b)|, |Split(whole)|);
    PartsOf(whole);
    PartsOf(a);
    PartsOf(b);
  }

  /** Two selectors joined by a comma parse exactly when both parse and neither is blank, and
      then to both lists of requirements. */
  lemma CombinedParse(a: string, b: string)
    ensures var whole := Parse(a + [','] + b);
            && (whole.Ok? <==> Parse(a).Ok? && Parse(b).Ok? && !Blank(a) && !Blank(b))
            && (whole.Ok? ==> whole.value == Parse(a).value + Parse(b).value)
  {
    CombinedAs(a, b, a + [','] + b);
  }
}
