/** When a byte cap cuts into a line of the history, and when that shows (logstream/source.go). */
module CappedHistory {
  import opened Lines
  import opened History

  /** Where the line that position `at` lies in begins: after the newline before it, or at 0. */
  function LineBegin(data: Bytes, at: nat): (begin: nat)
    requires at <= |data|
    ensures begin <= at && (begin == 0 || data[begin - 1] == LF) && OneLine(data[begin..at])
  {
    if at == 0 || data[at - 1] == LF then
      assert data[at..at] == [];
      at
    else
      var b := LineBegin(data, at - 1);
      assert data[b..at] == data[b..at - 1] + [data[at - 1]];
      b
  }

  predicate AtLine(data: Bytes, at: nat)
    requires at <= |data|
  {
    at == 0 || data[at - 1] == LF
  }

  /** The content of the line that position `at` lies in. */
  function WholeLine(data: Bytes, at: nat): Bytes
    requires at < |data|
  {
    data[LineBegin(data, at)..at] + RestOfLine(data, at)
  }

  lemma {:induction false} SameLineEnd(data: Bytes, begin: nat, at: nat)
    requires begin <= at < |data| && OneLine(data[begin..at])
    ensures LineEnd(data, begin) == LineEnd(data, at)
    decreases at - begin
  {
    if begin < at {
      assert data[begin] == data[begin..at][0];
      assert data[begin + 1..at] == data[begin..at][1..];
      SameLineEnd(data, begin + 1, at);
    }
  }

  lemma LinesFrom(max: nat, data: Bytes, begin: nat, line: Bytes, ended: bool, end: nat)
    requires begin < |data| && AtLine(data, begin)
    requires line == RestOfLine(data, begin) && ended == Ended(data, begin) && end == LineEnd(data, begin)
    ensures AllLines(max, data) == Feed(max, FRESH, data[..begin]).1 + ([LineOf(max, line, ended)] + AllLines(max, data[end..]))
  {
    FirstLine(max, data, begin);
    LineBoundary(max, data, begin);
  }

  lemma SliceJoin(data: Bytes, i: nat, j: nat, k: nat)
    requires i <= j <= k <= |data|
    ensures data[i..j] + data[j..k] == data[i..k]
  {
  }

  /** A position and the beginning of its line have the same line. */
  lemma SameLine(data: Bytes, at: nat)
    requires at < |data|
    ensures var begin := LineBegin(data, at);
            && RestOfLine(data, begin) == WholeLine(data, at) && Ended(data, begin) == Ended(data, at)
            && LineEnd(data, begin) == LineEnd(data, at)
  {
    var begin, end := LineBegin(data, at), LineEnd(data, at);
    SameLineEnd(data, begin, at);
    SliceJoin(data, begin, at, if data[end - 1] == LF then end - 1 else end);
  }

  /** The lines before, the line of a position, and the lines after it. */
  lemma LinesAround(max: nat, data: Bytes, at: nat)
    requires at < |data|
    ensures AllLines(max, data) ==
            Feed(max, FRESH, data[..LineBegin(data, at)]).1
            + ([LineOf(max, WholeLine(data, at), Ended(data, at))] + AllLines(max, data[LineEnd(data, at)..]))
  {
    SameLine(data, at);
    LinesFrom(max, data, LineBegin(data, at), WholeLine(data, at), Ended(data, at), LineEnd(data, at));
  }

  lemma SameHead<T>(front: seq<T>, x: T, y: T, back: seq<T>)
    ensures [x] + back == Last(front + ([y] + back), |back| + 1) <==> x == y
  {
    LastSuffix(front, [y] + back);
    assert ([x] + back)[0] == x && ([y] + back)[0] == y;
  }

  /** Wherever a suffix starts, its lines are the last lines of the data exactly if the rest of
      the line it starts in looks like the whole line. */
  lemma SuffixIsLastLines(max: nat, data: Bytes, at: nat)
    requires at < |data|
    ensures var lines := AllLines(max, data[at..]);
            lines == Last(AllLines(max, data), |lines|) <==>
            LineOf(max, RestOfLine(data, at), Ended(data, at)) == LineOf(max, WholeLine(data, at), Ended(data, at))
  {
    var ended := Ended(data, at);
    FirstLine(max, data, at);
    LinesAround(max, data, at);
    SameHead(Feed(max, FRESH, data[..LineBegin(data, at)]).1, LineOf(max, RestOfLine(data, at), ended),
             LineOf(max, WholeLine(data, at), ended), AllLines(max, data[LineEnd(data, at)..]));
  }

  /** Cutting bytes off the front of a line that is not clipped shows, unless all there was is a
      carriage return that is dropped anyway. */
  lemma CutShows(max: nat, front: Bytes, rest: Bytes, ended: bool)
    requires front != [] && |front + rest| <= max
    ensures LineOf(max, rest, ended) == LineOf(max, front + rest, ended) <==> front + rest == [CR]
  {
    assert Clip(max, front + rest) == front + rest && Clip(max, rest) == rest;
    if rest != [] {
      assert (front + rest)[|front + rest| - 1] == rest[|rest| - 1];
    } else {
      assert front + rest == front;
      assert DropCR(front) == [] <==> front == [CR];
    }
  }

  /** The lines of a history are the last lines of the file exactly if it starts at a line, or in
      a line that is nothing but a carriage return (and no longer than the parser keeps). */
  lemma HistoryIsLastLinesExactly(max: nat, data: Bytes, n: nat, cap: nat)
    requires n > 0 && data != []
    ensures TailStart(data, n, cap) < |data|
    ensures var start, lines := TailStart(data, n, cap), HistoryOf(max, data, n, cap);
            |WholeLine(data, start)| <= max ==>
              (lines == Last(AllLines(max, data), |lines|) <==> AtLine(data, start) || WholeLine(data, start) == [CR])
  {
    StartLineCount(max, data, n);
    StartWithin(data, n, cap);
    HistoryUnderCap(max, data, n, cap);
    var start := TailStart(data, n, cap);
    SuffixIsLastLines(max, data, start);
    if !AtLine(data, start) && |WholeLine(data, start)| <= max {
      CutShows(max, data[LineBegin(data, start)..start], RestOfLine(data, start), Ended(data, start));
    }
  }

  lemma OneWholeLine(max: nat, content: Bytes)
    requires OneLine(content) && |content| <= max
    ensures AllLines(max, content + [LF]) == [Line(DropCR(content), false, true)]
  {
    assert Clip(max, content) == content;
    FeedPartial(max, content);
    FeedSnoc(max, FRESH, content, LF);
  }

  /** A cap does cut: of the one line "ab" two bytes of history leave "b". */
  lemma CapCutsALine(max: nat)
    requires max >= 2
    ensures HistoryOf(max, [97, 98, LF], 1, 2) == [Line([98], false, true)]
    ensures Last(AllLines(max, [97, 98, LF]), 1) == [Line([97, 98], false, true)]
  {
    var data: Bytes := [97, 98, LF];
    assert BackTo(data, 1, 0) == 0 && BackTo(data, 1, 1) == 0 && BackTo(data, 1, 2) == 0;
    assert TailStart(data, 1, 2) == 1;
    HistoryUnderCap(max, data, 1, 2);
    assert data[1..] == [98] + [LF] && data == [97, 98] + [LF];
    OneWholeLine(max, [98]);
    OneWholeLine(max, [97, 98]);
  }
}
