/** The selector language (catalog/selector.go). Strings are sequences of code points. */
module Selector {
  import opened Ordering

  // ----- Text -----

  /** unicode.IsSpace. */
  predicate IsSpace(c: char) {
    || c == ' ' || '\t' <= c <= '\r'
    || c in {'\U{85}', '\U{a0}', '\U{1680}', '\U{2028}', '\U{2029}', '\U{202f}', '\U{205f}', '\U{3000}'}
    || '\U{2000}' <= c <= '\U{200a}'
  }

  function TrimLeft(s: string): string {
    if s != [] && IsSpace(s[0]) then TrimLeft(s[1..]) else s
  }

  function TrimRight(s: string): string {
    if s != [] && IsSpace(s[|s| - 1]) then TrimRight(s[..|s| - 1]) else s
  }

  function Trim(s: string): string { TrimRight(TrimLeft(s)) }

  predicate Trimmed(s: string) { s != [] ==> !IsSpace(s[0]) && !IsSpace(s[|s| - 1]) }

  predicate Blank(s: string) { Trim(s) == [] }

  /** strings.Split at every comma. */
  function Split(s: string): (parts: seq<string>)
    ensures parts != []
  {
    if s == [] then [[]] else PrependChar(s[0], Split(s[1..]))
  }

  function PrependChar(c: char, parts: seq<string>): seq<string>
    requires parts != []
  {
    if c == ',' then [[]] + parts else [[c] + parts[0]] + parts[1..]
  }

  function Join(parts: seq<string>): string {
    if parts == [] then []
    else if |parts| == 1 then parts[0]
    else parts[0] + [','] + Join(parts[1..])
  }

  /** The first index of c, or the length. */
  function Find(s: string, c: char): (i: nat)
    ensures i <= |s| && c !in s[..i] && (i < |s| ==> s[i] == c)
  {
    if s == [] || s[0] == c then 0
    else
      var i := Find(s[1..], c);
      assert s[..i + 1] == [s[0]] + s[1..][..i];
      i + 1
  }

  predicate NotEqualsAt(s: string, i: nat) { i + 1 < |s| && s[i] == '!' && s[i + 1] == '=' }

  /** The first index of "!=", or the length. */
  function FindNotEquals(s: string): (i: nat)
    ensures i <= |s| && (i < |s| ==> NotEqualsAt(s, i))
    ensures forall j :: 0 <= j < i ==> !NotEqualsAt(s, j)
  {
    if s == [] || NotEqualsAt(s, 0) then 0
    else
      var i := FindNotEquals(s[1..]);
      assert forall j :: 1 <= j < i + 1 ==> NotEqualsAt(s, j) == NotEqualsAt(s[1..], j - 1);
      i + 1
  }

  predicate HasNotEquals(s: string) { FindNotEquals(s) < |s| }

  // ----- Requirements -----

  datatype Op = Equals | NotEquals | Exists | NotExists | Other(name: string)

  datatype Requirement = Requirement(key: string, op: Op, value: string)

  datatype ParseError = EmptyRequirement | InvalidRequirement(term: string) | InvalidKey(key: string) | InvalidValue(key: string)

  datatype Result<T> = Ok(value: T) | Err(error: ParseError)

  predicate Alphanumeric(c: char) { 'A' <= c <= 'Z' || 'a' <= c <= 'z' || '0' <= c <= '9' }

  predicate KeyChar(c: char) { Alphanumeric(c) || c in {'.', '_', '/', '-'} }

  predicate ValidKey(key: string) {
    key != [] && Alphanumeric(key[0]) && forall c :: c in key ==> KeyChar(c)
  }

  predicate Control(c: char) { c < ' ' || c == '\U{7f}' }

  /** ValidateLabels on one value. */
  predicate ValidValue(value: string) {
    Trim(value) == value && ',' !in value && forall c :: c in value ==> !Control(c)
  }

  function Checked(r: Requirement): Result<Requirement> {
    if !ValidKey(r.key) then Err(InvalidKey(r.key))
    else if (r.op == Equals || r.op == NotEquals) && !ValidValue(r.value) then Err(InvalidValue(r.key))
    else Ok(r)
  }

  /** One trimmed term. */
  function ParseTerm(term: string): Result<Requirement> {
    if term == [] then Err(EmptyRequirement)
    else if term[0] == '!' && '=' in term[1..] then Err(InvalidRequirement(term))
    else if term[0] == '!' then Checked(Requirement(term[1..], NotExists, []))
    else if HasNotEquals(term) then
      var i := FindNotEquals(term);
      Checked(Requirement(Trim(term[..i]), NotEquals, Trim(term[i + 2..])))
    else if '=' in term then
      var i := Find(term, '=');
      Checked(Requirement(Trim(term[..i]), Equals, if i < |term| then Trim(term[i + 1..]) else []))
    else Checked(Requirement(term, Exists, []))
  }

  function ParsePart(part: string): Result<Requirement> { ParseTerm(Trim(part)) }

  /** The first n parts; the first bad one decides the error. */
  function ParseTo(parse: string -> Result<Requirement>, parts: seq<string>, n: nat): Result<seq<Requirement>>
    requires n <= |parts|
  {
    if n == 0 then Ok([])
    else
      var front := ParseTo(parse, parts, n - 1);
      if front.Err? then front
      else
        var last := parse(parts[n - 1]);
        if last.Err? then Err(last.error) else Ok(front.value + [last.value])
  }

  function Parse(raw: string): Result<seq<Requirement>> {
    if Blank(raw) then Ok([]) else ParseTo(ParsePart, Split(raw), |Split(raw)|)
  }

  method ParseSelector(raw: string) returns (r: Result<seq<Requirement>>)
    ensures r == Parse(raw)
  {
    if Trim(raw) == [] {
      return Ok([]);
    }
    var parts := Split(raw);
    var requirements: seq<Requirement> := [];
    for i := 0 to |parts|
      invariant ParseTo(ParsePart, parts, i) == Ok(requirements)
    {
      var term := ParsePart(parts[i]);
      if term.Err? {
        FirstErrorWins(ParsePart, parts, i + 1);
        return Err(term.error);
      }
      requirements := requirements + [term.value];
    }
    r := Ok(requirements);
  }

  lemma {:induction false} FirstErrorWins(parse: string -> Result<Requirement>, parts: seq<string>, n: nat)
    requires n <= |parts| && ParseTo(parse, parts, n).Err?
    ensures ParseTo(parse, parts, |parts|) == ParseTo(parse, parts, n)
    decreases |parts| - n
  {
    if n < |parts| { FirstErrorWins(parse, parts, n + 1); }
  }

  // ----- Matching -----

  predicate Holds(r: Requirement, labels: map<string, string>) {
    match r.op
    case Equals => r.key in labels && labels[r.key] == r.value
    case NotEquals => !(r.key in labels && labels[r.key] == r.value)
    case Exists => r.key in labels
    case NotExists => r.key !in labels
    case Other(_) => false
  }

  predicate Matching(requirements: seq<Requirement>, labels: map<string, string>) {
    forall r :: r in requirements ==> Holds(r, labels)
  }

  method Matches(requirements: seq<Requirement>, labels: map<string, string>) returns (matches: bool)
    ensures matches <==> Matching(requirements, labels)
  {
    for i := 0 to |requirements|
      invariant forall j :: 0 <= j < i ==> Holds(requirements[j], labels)
    {
      var r := requirements[i];
      assert r in requirements;
      var exists_ := r.key in labels;
      match r.op {
        case Equals =>
          if !exists_ || labels[r.key] != r.value { return false; }
        case NotEquals =>
          if exists_ && labels[r.key] == r.value { return false; }
        case Exists =>
          if !exists_ { return false; }
        case NotExists =>
          if exists_ { return false; }
        case Other(_) =>
          return false;
      }
    }
    matches := true;
  }

  // ----- Printing -----

  function Print(r: Requirement): string {
    match r.op
    case Equals => r.key + "=" + r.value
    case NotEquals => r.key + "!=" + r.value
    case Exists => r.key
    case NotExists => "!" + r.key
    case Other(_) => ""
  }

  /** The printed terms of the first n; an unknown operator prints nothing at all. */
  function TermsTo(requirements: seq<Requirement>, n: nat): seq<string>
    requires n <= |requirements|
  {
    if n == 0 then []
    else TermsTo(requirements, n - 1) + if requirements[n - 1].op.Other? then [] else [Print(requirements[n - 1])]
  }

  function Terms(requirements: seq<Requirement>): seq<string> { TermsTo(requirements, |requirements|) }

  function String(requirements: seq<Requirement>): string { Join(Sort(Terms(requirements))) }

  method CanonicalString(requirements: seq<Requirement>) returns (s: string)
    ensures s == String(requirements)
  {
    var terms: seq<string> := [];
    for i := 0 to |requirements|
      invariant terms == TermsTo(requirements, i)
    {
      if !requirements[i].op.Other? {
        terms := terms + [Print(requirements[i])];
      }
    }
    s := Join(Sort(terms));
  }
}
