/** Merging the sources of a stream round by round, and of a bounded snapshot
    (logstream/logstream.go). */
module Stream {
  import opened Options
  import opened Ordering
  import opened Lines
  import opened Tail

  /** What one source answered in a round; answers arrive in any order. */
  datatype Arrival = Arrival(index: nat, response: Response)

  datatype Event = LineEvent(source: nat, line: Line, sequence: nat) | ErrEvent(source: nat, failure: Failure)

  /** Each of the n sources answers exactly once. */
  predicate Complete(arrivals: seq<Arrival>, n: nat) {
    && |arrivals| == n
    && (forall i :: 0 <= i < n ==> arrivals[i].index < n)
    && forall i, j :: 0 <= i < j < n ==> arrivals[i].index != arrivals[j].index
  }

  /** The answers in source order, whatever the order they came in. */
  ghost predicate InSourceOrder(arrivals: seq<Arrival>, ordered: seq<Response>) {
    |ordered| == |arrivals| && forall i :: 0 <= i < |ordered| ==> Arrival(i, ordered[i]) in arrivals
  }

  function Numbered(source: nat, lines: seq<Line>, sequence: nat): seq<Event> {
    seq(|lines|, i requires 0 <= i < |lines| => LineEvent(source, lines[i], sequence + i + 1))
  }

  function SourceEvents(source: nat, r: Response, sequence: nat): seq<Event> {
    (if r.err.Some? then [ErrEvent(source, r.err.value)] else []) + Numbered(source, r.lines, sequence)
  }

  /** The events of the first n sources: the error, if any, then the lines. */
  function RoundEvents(ordered: seq<Response>, n: nat, sequence: nat): seq<Event>
    requires n <= |ordered|
  {
    if n == 0 then []
    else
      var r := ordered[n - 1];
      RoundEvents(ordered, n - 1, sequence) + SourceEvents(n - 1, r, sequence + LineCount(ordered, n - 1))
  }

  function LineCount(ordered: seq<Response>, n: nat): nat
    requires n <= |ordered|
  {
    if n == 0 then 0 else LineCount(ordered, n - 1) + |ordered[n - 1].lines|
  }

  // ----- Order independence -----

  function UpTo(n: nat): (r: set<nat>)
    ensures |r| == n && forall i: nat :: i in r <==> i < n
  {
    if n == 0 then {} else UpTo(n - 1) + {n - 1}
  }

  lemma SubsetOfEqualSize<T>(a: set<T>, b: set<T>)
    requires a <= b && |a| == |b|
    ensures a == b
  {
    assert |b - a| == |b| - |a|;
  }

  /** n different indices below n are all of them: the answers fill the whole array. */
  lemma PermutationCovers(s: seq<nat>, k: nat)
    requires Distinct(s) && k < |s| && forall i :: 0 <= i < |s| ==> s[i] < |s|
    ensures k in s
  {
    DistinctCount(s);
    assert Elements(s) <= UpTo(|s|);
    SubsetOfEqualSize(Elements(s), UpTo(|s|));
    assert k in UpTo(|s|);
  }

  /** The array holds the same answers for every order of arrival, so everything computed from
      it is independent of that order. */
  lemma ArrivalOrderIrrelevant(a: seq<Arrival>, b: seq<Arrival>, x: seq<Response>, y: seq<Response>)
    requires Complete(a, |a|) && multiset(a) == multiset(b)
    requires InSourceOrder(a, x) && InSourceOrder(b, y)
    ensures x == y
  {
    assert |a| == |multiset(a)| == |multiset(b)| == |b|;
    forall i | 0 <= i < |x|
      ensures x[i] == y[i]
    {
      assert Arrival(i, y[i]) in multiset(b);
      assert Arrival(i, x[i]) in a && Arrival(i, y[i]) in a;
      var p :| 0 <= p < |a| && a[p] == Arrival(i, x[i]);
      var q :| 0 <= q < |a| && a[q] == Arrival(i, y[i]);
      assert a[p].index == a[q].index;
      assert p == q;
    }
  }

  method Order(arrivals: seq<Arrival>) returns (ordered: seq<Response>)
    requires Complete(arrivals, |arrivals|)
    ensures InSourceOrder(arrivals, ordered)
  {
    var n := |arrivals|;
    var slots := new Response[n](_ => Response([], None));
    for i := 0 to n
      invariant forall j :: 0 <= j < i ==> slots[arrivals[j].index] == arrivals[j].response
    {
      slots[arrivals[i].index] := arrivals[i].response;
    }
    ordered := slots[..];
    var indices := seq(n, i requires 0 <= i < n => arrivals[i].index);
    forall k | 0 <= k < n
      ensures Arrival(k, ordered[k]) in arrivals
    {
      PermutationCovers(indices, k);
      var j :| 0 <= j < n && indices[j] == k;
      assert arrivals[j] == Arrival(k, ordered[k]);
    }
  }

  // ----- Sequence numbers -----

  /** The sequence numbers of the line events, in order. */
  function Sequences(events: seq<Event>): seq<nat> {
    if events == [] then []
    else
      Sequences(events[..|events| - 1])
      + if events[|events| - 1].LineEvent? then [events[|events| - 1].sequence] else []
  }

  function Consecutive(from: nat, count: nat): seq<nat> { seq(count, i requires 0 <= i < count => from + i + 1) }

  lemma {:induction false} SequencesAppend(a: seq<Event>, b: seq<Event>)
    ensures Sequences(a + b) == Sequences(a) + Sequences(b)
  {
    if b == [] {
      assert a + b == a;
    } else {
      assert (a + b)[..|a + b| - 1] == a + b[..|b| - 1];
      SequencesAppend(a, b[..|b| - 1]);
    }
  }

  lemma {:induction false} NumberedSequences(source: nat, lines: seq<Line>, sequence: nat)
    ensures Sequences(Numbered(source, lines, sequence)) == Consecutive(sequence, |lines|)
  {
    if lines != [] {
      var front := lines[..|lines| - 1];
      NumberedSequences(source, front, sequence);
      assert Numbered(source, lines, sequence)[..|lines| - 1] == Numbered(source, front, sequence);
      assert Consecutive(sequence, |lines|) == Consecutive(sequence, |front|) + [sequence + |front| + 1];
    }
  }

  lemma SourceSequences(source: nat, r: Response, sequence: nat)
    ensures Sequences(SourceEvents(source, r, sequence)) == Consecutive(sequence, |r.lines|)
  {
    var error := if r.err.Some? then [ErrEvent(source, r.err.value)] else [];
    SequencesAppend(error, Numbered(source, r.lines, sequence));
    NumberedSequences(source, r.lines, sequence);
    assert Sequences(error) == [];
  }

  lemma ConsecutiveAppend(from: nat, a: nat, b: nat)
    ensures Consecutive(from, a + b) == Consecutive(from, a) + Consecutive(from + a, b)
  {
  }

  lemma NextSourceSequences(front: seq<Event>, source: nat, r: Response, sequence: nat, count: nat)
    requires Sequences(front) == Consecutive(sequence, count)
    ensures Sequences(front + SourceEvents(source, r, sequence + count)) == Consecutive(sequence, count + |r.lines|)
  {
    SourceSequences(source, r, sequence + count);
    JoinedSequences(front, SourceEvents(source, r, sequence + count), sequence, count, |r.lines|);
  }

  lemma JoinedSequences(a: seq<Event>, b: seq<Event>, from: nat, m: nat, n: nat)
    requires Sequences(a) == Consecutive(from, m) && Sequences(b) == Consecutive(from + m, n)
    ensures Sequences(a + b) == Consecutive(from, m + n)
  {
    SequencesAppend(a, b);
    ConsecutiveAppend(from, m, n);
  }

  /** One round numbers its lines without gaps, errors in between notwithstanding. */
  lemma {:induction false} RoundSequences(ordered: seq<Response>, n: nat, sequence: nat)
    requires n <= |ordered|
    ensures Sequences(RoundEvents(ordered, n, sequence)) == Consecutive(sequence, LineCount(ordered, n))
  {
    if n > 0 {
      RoundSequences(ordered, n - 1, sequence);
      NextSourceSequences(RoundEvents(ordered, n - 1, sequence), n - 1, ordered[n - 1], sequence, LineCount(ordered, n - 1));
    }
  }

  // ----- The loops of the source -----

  function Prefix(events: seq<Event>, n: nat): seq<Event> { if n < |events| then events[..n] else events }

  /** Emit one source's lines. The context is cancelled once `room` more events were sent. */
  method EmitLines(source: nat, lines: seq<Line>, sequence0: nat, room: nat)
    returns (events: seq<Event>, sequence: nat, completed: bool)
    ensures events == Prefix(Numbered(source, lines, sequence0), room)
    ensures completed <==> |lines| <= room
    ensures completed ==> sequence == sequence0 + |lines|
  {
    events, sequence := [], sequence0;
    ghost var all := Numbered(source, lines, sequence0);
    for j := 0 to |lines|
      invariant sequence == sequence0 + j && events == all[..j] && j <= room
    {
      sequence := sequence + 1;
      if j == room {
        return events, sequence, false;
      }
      assert all[..j + 1] == all[..j] + [LineEvent(source, lines[j], sequence)];
      events := events + [LineEvent(source, lines[j], sequence)];
    }
    completed := true;
  }

  method EmitSource(source: nat, r: Response, sequence0: nat, room: nat)
    returns (events: seq<Event>, sequence: nat, completed: bool)
    ensures events == Prefix(SourceEvents(source, r, sequence0), room)
    ensures completed <==> |SourceEvents(source, r, sequence0)| <= room
    ensures completed ==> sequence == sequence0 + |r.lines|
  {
    if r.err == None {
      events, sequence, completed := EmitLines(source, r.lines, sequence0, room);
      assert SourceEvents(source, r, sequence0) == Numbered(source, r.lines, sequence0);
      return;
    }
    if room == 0 {
      return [], sequence0, false;
    }
    var lines;
    lines, sequence, completed := EmitLines(source, r.lines, sequence0, room - 1);
    events := [ErrEvent(source, r.err.value)] + lines;
  }

  lemma PrefixOfSum(a: seq<Event>, b: seq<Event>, room: nat)
    requires |a| <= room
    ensures a + Prefix(b, room - |a|) == Prefix(a + b, room)
  {
  }

  lemma PrefixOfPrefix(a: seq<Event>, b: seq<Event>, room: nat)
    requires a <= b && room <= |a|
    ensures Prefix(a, room) == Prefix(b, room)
  {
  }

  /** Emit one round in source order. */
  method EmitRound(ordered: seq<Response>, sequence0: nat, room: nat)
    returns (events: seq<Event>, sequence: nat, completed: bool)
    ensures events == Prefix(RoundEvents(ordered, |ordered|, sequence0), room)
    ensures completed <==> |RoundEvents(ordered, |ordered|, sequence0)| <= room
    ensures completed ==> sequence == sequence0 + LineCount(ordered, |ordered|)
  {
    events, sequence := [], sequence0;
    for i := 0 to |ordered|
      invariant events == RoundEvents(ordered, i, sequence0) && |events| <= room
      invariant sequence == sequence0 + LineCount(ordered, i)
    {
      RoundEventsGrow(ordered, i + 1, |ordered|, sequence0);
      PrefixOfSum(events, SourceEvents(i, ordered[i], sequence), room);
      ghost var next := events + SourceEvents(i, ordered[i], sequence);
      var more;
      more, sequence, completed := EmitSource(i, ordered[i], sequence, room - |events|);
      events := events + more;
      if !completed {
        PrefixOfPrefix(next, RoundEvents(ordered, |ordered|, sequence0), room);
        return;
      }
    }
    completed := true;
  }

  /** One round: put the answers in order, then emit them. */
  method EmitAnswers(arrivals: seq<Arrival>, ghost ordered: seq<Response>, sequence0: nat, room: nat)
    returns (events: seq<Event>, sequence: nat, completed: bool)
    requires Complete(arrivals, |arrivals|) && InSourceOrder(arrivals, ordered)
    ensures events == Prefix(RoundEvents(ordered, |ordered|, sequence0), room)
    ensures completed <==> |RoundEvents(ordered, |ordered|, sequence0)| <= room
    ensures completed ==> sequence == sequence0 + LineCount(ordered, |ordered|)
  {
    var answers := Order(arrivals);
    ArrivalOrderIrrelevant(arrivals, arrivals, answers, ordered);
    events, sequence, completed := EmitRound(answers, sequence0, room);
  }

  lemma {:induction false} RoundEventsGrow(ordered: seq<Response>, m: nat, n: nat, sequence: nat)
    requires m <= n <= |ordered|
    ensures RoundEvents(ordered, m, sequence) <= RoundEvents(ordered, n, sequence)
  {
    if m < n { RoundEventsGrow(ordered, m, n - 1, sequence); }
  }

  /** A whole run, poll after poll: all events of all rounds, or the first `room` of them if the
      context is cancelled then. */
  method Stream(rounds: seq<seq<Arrival>>, ghost ordered: seq<seq<Response>>, room: nat) returns (events: seq<Event>)
    requires |ordered| == |rounds|
    requires forall i :: 0 <= i < |rounds| ==> Complete(rounds[i], |rounds[i]|) && InSourceOrder(rounds[i], ordered[i])
    ensures events == Prefix(AllEvents(ordered, |ordered|), room)
  {
    events := [];
    var sequence := 0;
    for i := 0 to |rounds|
      invariant events == AllEvents(ordered, i) && sequence == TotalLines(ordered, i) && |events| <= room
    {
      RoundJoins(ordered, i, room);
      var more, completed;
      more, sequence, completed := EmitAnswers(rounds[i], ordered[i], sequence, room - |events|);
      events := events + more;
      if !completed {
        return;
      }
    }
  }

  function TotalLines(ordered: seq<seq<Response>>, n: nat): nat
    requires n <= |ordered|
  {
    if n == 0 then 0 else TotalLines(ordered, n - 1) + LineCount(ordered[n - 1], |ordered[n - 1]|)
  }

  /** The events of the first n rounds, each in source order. */
  function AllEvents(ordered: seq<seq<Response>>, n: nat): seq<Event>
    requires n <= |ordered|
  {
    if n == 0 then []
    else AllEvents(ordered, n - 1) + RoundEvents(ordered[n - 1], |ordered[n - 1]|, TotalLines(ordered, n - 1))
  }

  /** What the next round adds before the context is cancelled. */
  lemma RoundJoins(ordered: seq<seq<Response>>, i: nat, room: nat)
    requires i < |ordered| && |AllEvents(ordered, i)| <= room
    ensures var before, round := AllEvents(ordered, i), RoundEvents(ordered[i], |ordered[i]|, TotalLines(ordered, i));
            var sent := before + Prefix(round, room - |before|);
            if |round| <= room - |before| then sent == AllEvents(ordered, i + 1) && |sent| <= room
            else sent == Prefix(AllEvents(ordered, |ordered|), room)
  {
    var before, round := AllEvents(ordered, i), RoundEvents(ordered[i], |ordered[i]|, TotalLines(ordered, i));
    assert AllEvents(ordered, i + 1) == before + round;
    PrefixOfSum(before, round, room);
    if |round| > room - |before| {
      AllEventsGrow(ordered, i + 1, |ordered|);
      PrefixOfPrefix(before + round, AllEvents(ordered, |ordered|), room);
    }
  }

  lemma {:induction false} AllEventsGrow(ordered: seq<seq<Response>>, m: nat, n: nat)
    requires m <= n <= |ordered|
    ensures AllEvents(ordered, m) <= AllEvents(ordered, n)
  {
    if m < n { AllEventsGrow(ordered, m, n - 1); }
  }

  lemma NextRoundSequences(front: seq<Event>, round: seq<Response>, at: nat)
    requires Sequences(front) == Consecutive(0, at)
    ensures Sequences(front + RoundEvents(round, |round|, at)) == Consecutive(0, at + LineCount(round, |round|))
  {
    RoundSequences(round, |round|, at);
    JoinedSequences(front, RoundEvents(round, |round|, at), 0, at, LineCount(round, |round|));
  }

  /** Over the whole run the line numbers are exactly 1, 2, 3, ... */
  lemma {:induction false} RunSequences(ordered: seq<seq<Response>>, n: nat)
    requires n <= |ordered|
    ensures Sequences(AllEvents(ordered, n)) == Consecutive(0, TotalLines(ordered, n))
  {
    if n > 0 {
      RunSequences(ordered, n - 1);
      NextRoundSequences(AllEvents(ordered, n - 1), ordered[n - 1], TotalLines(ordered, n - 1));
    }
  }

  // ----- What one source told -----

  /** The first n items, each turned into a few results, in order. */
  function Gather<T, U>(f: T -> seq<U>, items: seq<T>, n: nat): seq<U>
    requires n <= |items|
  {
    if n == 0 then [] else Gather(f, items, n - 1) + f(items[n - 1])
  }

  lemma {:induction false} GatherPrefix<T, U>(f: T -> seq<U>, a: seq<T>, b: seq<T>, n: nat)
    requires n <= |a| && n <= |b| && forall i :: 0 <= i < n ==> a[i] == b[i]
    ensures Gather(f, a, n) == Gather(f, b, n)
  {
    if n > 0 { GatherPrefix(f, a, b, n - 1); }
  }

  lemma {:induction false} GatherMore<T, U>(f: T -> seq<U>, a: seq<T>, b: seq<T>, whole: seq<T>, n: nat, m: nat)
    requires n <= |b| && whole == a + b && m == |a| + n
    ensures Gather(f, whole, m) == Gather(f, a, |a|) + Gather(f, b, n)
  {
    if n == 0 {
      GatherPrefix(f, a, whole, |a|);
    } else {
      GatherMore(f, a, b, whole, n - 1, m - 1);
      assert whole[m - 1] == b[n - 1];
    }
  }

  /** What two lists give one after the other. */
  lemma GatherAppend<T, U>(f: T -> seq<U>, a: seq<T>, b: seq<T>, whole: seq<T>, x: seq<U>, y: seq<U>)
    requires whole == a + b && Gather(f, a, |a|) == x && Gather(f, b, |b|) == y
    ensures Gather(f, whole, |whole|) == x + y
  {
    GatherMore(f, a, b, whole, |b|, |whole|);
  }

  lemma GatherOne<T, U>(f: T -> seq<U>, item: T)
    ensures Gather(f, [item], 1) == f(item)
  {
    assert Gather(f, [item], 0) + f(item) == f(item);
  }

  datatype Said = SaidLine(line: Line) | SaidErr(failure: Failure)

  function LinesSaid(lines: seq<Line>): seq<Said> {
    seq(|lines|, i requires 0 <= i < |lines| => SaidLine(lines[i]))
  }

  /** An answer tells its error first, if there is one, and then its lines. */
  function Tells(r: Response): seq<Said> {
    if r.err.Some? then [SaidErr(r.err.value)] + LinesSaid(r.lines) else LinesSaid(r.lines)
  }

  /** What the first n answers of a source tell. */
  function AnswersTell(answers: seq<Response>, n: nat): seq<Said>
    requires n <= |answers|
  {
    Gather(Tells, answers, n)
  }

  function EventTells(e: Event, k: nat): seq<Said> {
    if e.source != k then [] else if e.LineEvent? then [SaidLine(e.line)] else [SaidErr(e.failure)]
  }

  function Of(k: nat): Event -> seq<Said> { e => EventTells(e, k) }

  /** What events tell of source k. */
  function EventsTell(events: seq<Event>, k: nat): seq<Said> { Gather(Of(k), events, |events|) }

  function LineTold(said: Said): seq<Line> { if said.SaidLine? then [said.line] else [] }

  /** The lines among what was told. */
  function LinesTold(told: seq<Said>): seq<Line> { Gather(LineTold, told, |told|) }

  lemma {:induction false} LinesSaidTold(lines: seq<Line>, n: nat)
    requires n <= |lines|
    ensures Gather(LineTold, LinesSaid(lines), n) == lines[..n]
  {
    if n > 0 {
      LinesSaidTold(lines, n - 1);
      assert lines[..n] == lines[..n - 1] + [lines[n - 1]];
    }
  }

  lemma MoreLinesTold(told: seq<Said>, r: Response, lines: seq<Line>, more: seq<Said>)
    requires LinesTold(told) == lines && more == told + Tells(r)
    ensures LinesTold(more) == lines + r.lines
  {
    var said := LinesSaid(r.lines);
    LinesSaidTold(r.lines, |r.lines|);
    assert r.lines[..|r.lines|] == r.lines;
    if r.err.Some? {
      var error := SaidErr(r.err.value);
      GatherOne(LineTold, error);
      GatherAppend(LineTold, [error], said, Tells(r), [], r.lines);
      assert [] + r.lines == r.lines;
    }
    GatherAppend(LineTold, told, Tells(r), more, lines, r.lines);
  }

  /** The lines told are all lines of the answers. */
  lemma {:induction false} AnswersTellLines(answers: seq<Response>, n: nat)
    requires n <= |answers|
    ensures LinesTold(AnswersTell(answers, n)) == LinesIn(answers, n)
  {
    if n > 0 {
      AnswersTellLines(answers, n - 1);
      MoreLinesTold(AnswersTell(answers, n - 1), answers[n - 1], LinesIn(answers, n - 1), AnswersTell(answers, n));
    }
  }

  lemma {:induction false} NumberedTell(source: nat, lines: seq<Line>, sequence: nat, k: nat, n: nat)
    requires n <= |lines|
    ensures Gather(Of(k), Numbered(source, lines, sequence), n) == if source == k then LinesSaid(lines)[..n] else []
  {
    if n > 0 {
      NumberedTell(source, lines, sequence, k, n - 1);
      assert LinesSaid(lines)[..n] == LinesSaid(lines)[..n - 1] + [SaidLine(lines[n - 1])];
    }
  }

  lemma SourceTells(source: nat, r: Response, sequence: nat, k: nat)
    ensures EventsTell(SourceEvents(source, r, sequence), k) == if source == k then Tells(r) else []
  {
    var numbered, said := Numbered(source, r.lines, sequence), LinesSaid(r.lines);
    NumberedTell(source, r.lines, sequence, k, |r.lines|);
    assert said[..|r.lines|] == said;
    if r.err.Some? {
      var error := ErrEvent(source, r.err.value);
      GatherOne(Of(k), error);
      GatherAppend(Of(k), [error], numbered, SourceEvents(source, r, sequence), EventTells(error, k), if source == k then said else []);
    } else {
      assert SourceEvents(source, r, sequence) == numbered;
    }
  }

  lemma {:induction false} RoundTells(ordered: seq<Response>, n: nat, sequence: nat, k: nat)
    requires n <= |ordered|
    ensures EventsTell(RoundEvents(ordered, n, sequence), k) == if k < n then Tells(ordered[k]) else []
  {
    if n > 0 {
      RoundTells(ordered, n - 1, sequence, k);
      var at := sequence + LineCount(ordered, n - 1);
      SourceTells(n - 1, ordered[n - 1], at, k);
      GatherAppend(Of(k), RoundEvents(ordered, n - 1, sequence), SourceEvents(n - 1, ordered[n - 1], at),
                   RoundEvents(ordered, n, sequence),
                   if k < n - 1 then Tells(ordered[k]) else [], if n - 1 == k then Tells(ordered[n - 1]) else []);
    }
  }

  /** The answers of source k, round after round. */
  function AnswersOf(ordered: seq<seq<Response>>, k: nat): seq<Response>
    requires forall i :: 0 <= i < |ordered| ==> k < |ordered[i]|
  {
    seq(|ordered|, i requires 0 <= i < |ordered| => ordered[i][k])
  }

  lemma {:induction false} RoundsTell(ordered: seq<seq<Response>>, n: nat, k: nat, answers: seq<Response>)
    requires n <= |ordered| == |answers|
    requires forall i :: 0 <= i < |ordered| ==> k < |ordered[i]| && answers[i] == ordered[i][k]
    ensures EventsTell(AllEvents(ordered, n), k) == AnswersTell(answers, n)
  {
    if n > 0 {
      var round, at := ordered[n - 1], TotalLines(ordered, n - 1);
      RoundsTell(ordered, n - 1, k, answers);
      RoundTells(round, |round|, at, k);
      GatherAppend(Of(k), AllEvents(ordered, n - 1), RoundEvents(round, |round|, at), AllEvents(ordered, n),
                   AnswersTell(answers, n - 1), Tells(round[k]));
    }
  }

  lemma PrefixTells(all: seq<Event>, room: nat, k: nat, whole: seq<Said>)
    requires EventsTell(all, k) == whole
    ensures EventsTell(Prefix(all, room), k) <= whole && (|all| <= room ==> EventsTell(Prefix(all, room), k) == whole)
  {
    if room < |all| {
      assert all[..room] + all[room..] == all;
      GatherAppend(Of(k), all[..room], all[room..], all, EventsTell(all[..room], k), EventsTell(all[room..], k));
    }
  }

  /** The events of a round come source after source. */
  lemma {:induction false} RoundInSourceOrder(ordered: seq<Response>, n: nat, sequence: nat, events: seq<Event>)
    requires n <= |ordered| && events == RoundEvents(ordered, n, sequence)
    ensures forall i :: 0 <= i < |events| ==> events[i].source < n
    ensures forall i, j :: 0 <= i < j < |events| ==> events[i].source <= events[j].source
  {
    if n > 0 {
      var front := RoundEvents(ordered, n - 1, sequence);
      var last := SourceEvents(n - 1, ordered[n - 1], sequence + LineCount(ordered, n - 1));
      RoundInSourceOrder(ordered, n - 1, sequence, front);
      SourceAlone(n - 1, ordered[n - 1], sequence + LineCount(ordered, n - 1), last);
      assert events == front + last;
    }
  }

  lemma SourceAlone(source: nat, r: Response, sequence: nat, events: seq<Event>)
    requires events == SourceEvents(source, r, sequence)
    ensures forall i :: 0 <= i < |events| ==> events[i].source == source
  {
  }

  /** A whole run passes on exactly what each source answered, in its order, the error of an answer
      before its lines; a cancelled run passes on a prefix of that. */
  lemma RunTellsAnswers(ordered: seq<seq<Response>>, k: nat, room: nat)
    requires forall i :: 0 <= i < |ordered| ==> k < |ordered[i]|
    ensures var all, answers := AllEvents(ordered, |ordered|), AnswersOf(ordered, k);
            var told, answered := EventsTell(Prefix(all, room), k), AnswersTell(answers, |answers|);
            && told <= answered && (|all| <= room ==> told == answered)
            && LinesTold(answered) == LinesIn(answers, |answers|)
  {
    var all, answers := AllEvents(ordered, |ordered|), AnswersOf(ordered, k);
    RoundsTell(ordered, |ordered|, k, answers);
    AnswersTellLines(answers, |answers|);
    PrefixTells(all, room, k, AnswersTell(answers, |answers|));
  }

  // ----- The bounded snapshot of several sources -----

  /** None of the first n sources failed. */
  predicate AllFine(ordered: seq<Response>, n: nat)
    requires n <= |ordered|
  {
    forall i :: 0 <= i < n ==> ordered[i].err.None?
  }

  datatype Snapshot = Lines(events: seq<Event>) | Failing(failure: Failure) | Cancelled

  /** The context's error if it is cancelled before all answers were received; otherwise the error of
      the first failing source, or all lines by source, numbered from 1. */
  method ReadLast(arrivals: seq<Arrival>, ghost sources: seq<Response>, received: nat) returns (r: Snapshot)
    requires Complete(arrivals, |arrivals|) && InSourceOrder(arrivals, sources)
    ensures r == Cancelled <==> received < |arrivals|
    ensures r.Lines? <==> received >= |arrivals| && AllFine(sources, |sources|)
    ensures r.Lines? ==> r.events == RoundEvents(sources, |sources|, 0)
    ensures r.Lines? ==> Sequences(r.events) == Consecutive(0, LineCount(sources, |sources|))
    ensures r.Failing? ==> exists i :: 0 <= i < |sources| && AllFine(sources, i) && sources[i].err == Some(r.failure)
  {
    if received < |arrivals| {
      return Cancelled;
    }
    var ordered := Order(arrivals);
    ArrivalOrderIrrelevant(arrivals, arrivals, ordered, sources);
    var events := [];
    var sequence := 0;
    for i := 0 to |ordered|
      invariant AllFine(ordered, i)
      invariant events == RoundEvents(ordered, i, 0) && sequence == LineCount(ordered, i)
    {
      if ordered[i].err.Some? {
        return Failing(ordered[i].err.value);
      }
      ghost var before := events;
      for j := 0 to |ordered[i].lines|
        invariant sequence == LineCount(ordered, i) + j
        invariant events == before + Numbered(i, ordered[i].lines, LineCount(ordered, i))[..j]
      {
        sequence := sequence + 1;
        ghost var all := Numbered(i, ordered[i].lines, LineCount(ordered, i));
        assert all[..j + 1] == all[..j] + [LineEvent(i, ordered[i].lines[j], sequence)];
        events := events + [LineEvent(i, ordered[i].lines[j], sequence)];
      }
      ghost var all := Numbered(i, ordered[i].lines, LineCount(ordered, i));
      assert all[..|ordered[i].lines|] == all;
      assert before + [] == before;
    }
    RoundSequences(ordered, |ordered|, 0);
    r := Lines(events);
  }
}
