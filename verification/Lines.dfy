/** The bounded line parser and the ring of last lines (logstream/parser.go). */
module Lines {
  import opened Numbers

  newtype byte = x: int | 0 <= x < 256

  type Bytes = seq<byte>

  const LF: byte := 10
  const CR: byte := 13

  datatype Line = Line(text: Bytes, truncated: bool, terminated: bool)

  // ----- The exact line format -----

  function Clip(max: nat, content: Bytes): Bytes { content[..Min(max, |content|)] }

  function DropCR(text: Bytes): Bytes {
    if text != [] && text[|text| - 1] == CR then text[..|text| - 1] else text
  }

  /** A line clipped at `max` bytes, its CR dropped if the clipped text ends in one. */
  function LineOf(max: nat, content: Bytes, terminated: bool): Line {
    Line(DropCR(Clip(max, content)), |content| > max, terminated)
  }

  predicate OneLine(content: Bytes) { LF !in content }

  /** Contents, each followed by its newline. */
  function Joined(contents: seq<Bytes>): Bytes {
    if contents == [] then [] else Joined(contents[..|contents| - 1]) + contents[|contents| - 1] + [LF]
  }

  /** `data` is `contents`, each ended by a newline, and then `rest`, which has none. */
  predicate Splits(data: Bytes, contents: seq<Bytes>, rest: Bytes) {
    && data == Joined(contents) + rest
    && OneLine(rest)
    && forall i :: 0 <= i < |contents| ==> OneLine(contents[i])
  }

  // ----- The parser as a function of the bytes fed to it -----

  datatype Parse = Parse(buf: Bytes, active: bool, truncated: bool)

  const FRESH := Parse([], false, false)

  function Emit(p: Parse, terminated: bool): Line { Line(DropCR(p.buf), p.truncated, terminated) }

  function FeedByte(max: nat, p: Parse, b: byte): (Parse, seq<Line>) {
    if b == LF then (FRESH, [Emit(p, true)])
    else if |p.buf| < max then (Parse(p.buf + [b], true, p.truncated), [])
    else (Parse(p.buf, true, true), [])
  }

  function FeedTo(max: nat, p: Parse, data: Bytes, n: nat): (Parse, seq<Line>)
    requires n <= |data|
  {
    if n == 0 then (p, [])
    else
      var (q, before) := FeedTo(max, p, data, n - 1);
      var (r, last) := FeedByte(max, q, data[n - 1]);
      (r, before + last)
  }

  /** The parser's state after the data, and the lines it completed. */
  function Feed(max: nat, p: Parse, data: Bytes): (Parse, seq<Line>) { FeedTo(max, p, data, |data|) }

  function Flushed(p: Parse): seq<Line> { if p.active then [Emit(p, false)] else [] }

  /** Every line of `data`, the unterminated last one included. */
  function AllLines(max: nat, data: Bytes): seq<Line> {
    var (p, lines) := Feed(max, FRESH, data);
    lines + Flushed(p)
  }

  lemma {:induction false} FeedToPrefix(max: nat, p: Parse, a: Bytes, b: Bytes, n: nat)
    requires n <= |a| && n <= |b| && forall i :: 0 <= i < n ==> a[i] == b[i]
    ensures FeedTo(max, p, a, n) == FeedTo(max, p, b, n)
  {
    if n > 0 { FeedToPrefix(max, p, a, b, n - 1); }
  }

  lemma {:induction false} FeedToAppend(max: nat, p: Parse, a: Bytes, b: Bytes, whole: Bytes, n: nat, m: nat,
                                        q: Parse, first: seq<Line>)
    requires n <= |b| && |whole| == |a| + |b| && m == |a| + n && (q, first) == FeedTo(max, p, a, |a|)
    requires forall i :: 0 <= i < |a| ==> whole[i] == a[i]
    requires forall i :: 0 <= i < |b| ==> whole[|a| + i] == b[i]
    ensures FeedTo(max, p, whole, m) == (FeedTo(max, q, b, n).0, first + FeedTo(max, q, b, n).1)
  {
    if n == 0 {
      FeedToPrefix(max, p, a, whole, |a|);
      assert first + [] == first;
    } else {
      FeedToAppend(max, p, a, b, whole, n - 1, m - 1, q, first);
      var r, second := FeedTo(max, q, b, n - 1).0, FeedTo(max, q, b, n - 1).1;
      FeedStep(max, q, b, n, r, second, b[n - 1]);
      FeedStep(max, p, whole, m, r, first + second, b[n - 1]);
      Associative(first, second, FeedByte(max, r, b[n - 1]).1);
    }
  }

  lemma FeedStep(max: nat, p: Parse, data: Bytes, n: nat, q: Parse, lines: seq<Line>, b: byte)
    requires 0 < n <= |data| && data[n - 1] == b && FeedTo(max, p, data, n - 1) == (q, lines)
    ensures FeedTo(max, p, data, n) == (FeedByte(max, q, b).0, lines + FeedByte(max, q, b).1)
  {
  }

  lemma Associative(a: seq<Line>, b: seq<Line>, c: seq<Line>)
    ensures a + (b + c) == (a + b) + c
  {
  }

  lemma FeedAppend(max: nat, p: Parse, a: Bytes, b: Bytes)
    ensures var (q, first) := Feed(max, p, a);
            var (r, second) := Feed(max, q, b);
            Feed(max, p, a + b) == (r, first + second)
  {
    FeedToAppend(max, p, a, b, a + b, |b|, |a + b|, Feed(max, p, a).0, Feed(max, p, a).1);
  }

  lemma FeedSnoc(max: nat, p: Parse, a: Bytes, b: byte)
    ensures var (q, first) := Feed(max, p, a);
            var (r, second) := FeedByte(max, q, b);
            Feed(max, p, a + [b]) == (r, first + second)
  {
    FeedToPrefix(max, p, a, a + [b], |a|);
  }

  /** The parser's state while a line is being read. */
  function Partial(max: nat, rest: Bytes): Parse { Parse(Clip(max, rest), rest != [], |rest| > max) }

  lemma {:induction false} FeedPartial(max: nat, rest: Bytes)
    requires OneLine(rest)
    ensures Feed(max, FRESH, rest) == (Partial(max, rest), [])
  {
    if rest != [] {
      var front, last := rest[..|rest| - 1], rest[|rest| - 1];
      assert rest == front + [last];
      assert last in rest;
      FeedPartial(max, front);
      FeedSnoc(max, FRESH, front, last);
      assert FeedByte(max, Partial(max, front), last) == (Partial(max, rest), []) by {
        assert |rest| <= max ==> Clip(max, rest) == Clip(max, front) + [last];
        assert |rest| > max ==> Clip(max, rest) == Clip(max, front);
      }
      var none: seq<Line> := [];
      assert none + none == none;
    }
  }

  function LinesOf(max: nat, contents: seq<Bytes>): seq<Line> {
    seq(|contents|, i requires 0 <= i < |contents| => LineOf(max, contents[i], true))
  }

  /** However data splits into lines, feeding it emits exactly those lines, clipped and with the
      CR dropped, and keeps the clipped rest. */
  lemma {:induction false} FeedSplits(max: nat, data: Bytes, contents: seq<Bytes>, rest: Bytes)
    requires Splits(data, contents, rest)
    ensures Feed(max, FRESH, data) == (Partial(max, rest), LinesOf(max, contents))
    decreases |contents|
  {
    FeedPartial(max, rest);
    if contents == [] {
      assert data == rest;
      assert LinesOf(max, contents) == [];
    } else {
      var n := |contents| - 1;
      var front, last := contents[..n], contents[n];
      FeedSplits(max, Joined(front) + last, front, last);
      FeedLine(max, Joined(front) + last, front, last);
      assert Joined(contents) == Joined(front) + last + [LF];
      assert contents == front + [last];
      assert Feed(max, FRESH, Joined(contents)) == (FRESH, LinesOf(max, contents));
      FeedAppend(max, FRESH, Joined(contents), rest);
      assert LinesOf(max, contents) + [] == LinesOf(max, contents);
      assert Feed(max, FRESH, rest).1 == [];
    }
  }

  /** A newline turns the rest into one more line. */
  lemma FeedLine(max: nat, data: Bytes, front: seq<Bytes>, last: Bytes)
    requires Feed(max, FRESH, data) == (Partial(max, last), LinesOf(max, front))
    ensures Feed(max, FRESH, data + [LF]) == (FRESH, LinesOf(max, front + [last]))
  {
    FeedSnoc(max, FRESH, data, LF);
    assert LinesOf(max, front + [last]) == LinesOf(max, front) + [LineOf(max, last, true)];
  }

  /** All lines of the data: the terminated ones, and the rest if it is not empty. */
  lemma AllLinesSplits(max: nat, data: Bytes, contents: seq<Bytes>, rest: Bytes)
    requires Splits(data, contents, rest)
    ensures AllLines(max, data) == LinesOf(max, contents) + if rest == [] then [] else [LineOf(max, rest, false)]
  {
    FeedSplits(max, data, contents, rest);
  }

  /** Every byte sequence splits, in one way only. */
  lemma {:induction false} SplitExists(data: Bytes) returns (contents: seq<Bytes>, rest: Bytes)
    ensures Splits(data, contents, rest)
  {
    if data == [] {
      contents, rest := [], [];
    } else {
      var n := |data| - 1;
      contents, rest := SplitExists(data[..n]);
      assert data == data[..n] + [data[n]];
      if data[n] == LF {
        assert (contents + [rest])[..|contents|] == contents;
        contents, rest := contents + [rest], [];
        assert data == Joined(contents);
      } else {
        rest := rest + [data[n]];
      }
    }
  }

  lemma {:induction false} SplitUnique(data: Bytes, c: seq<Bytes>, r: Bytes, d: seq<Bytes>, s: Bytes)
    requires Splits(data, c, r) && Splits(data, d, s)
    ensures c == d && r == s
    decreases |data|
  {
    if data != [] {
      var n := |data| - 1;
      var f := SplitFront(data, c, r);
      var g := SplitFront(data, d, s);
      SplitUnique(data[..n], f.0, f.1, g.0, g.1);
    }
  }

  /** The split of the data without its last byte. */
  lemma SplitFront(data: Bytes, c: seq<Bytes>, r: Bytes) returns (front: (seq<Bytes>, Bytes))
    requires Splits(data, c, r) && data != []
    ensures Splits(data[..|data| - 1], front.0, front.1)
    ensures var b := data[|data| - 1];
            if b == LF then r == [] && c == front.0 + [front.1]
            else r == front.1 + [b] && c == front.0
  {
    var n := |data| - 1;
    if r != [] {
      front := (c, r[..|r| - 1]);
      assert data[n] == r[|r| - 1] && data[n] in r;
      assert data[..n] == Joined(c) + r[..|r| - 1];
    } else {
      assert data == Joined(c);
      var k := |c| - 1;
      front := (c[..k], c[k]);
      assert data[..n] == Joined(c[..k]) + c[k];
      assert c == c[..k] + [c[k]];
    }
  }

  // ----- The parser of the source -----

  /** How many bytes a call consumes: up to the newline that completes `limit` lines. The
      count is compared for equality, so a limit below one never stops the call. */
  predicate ConsumesExactly(data: Bytes, limit: int, consumed: nat, lines: nat) {
    && consumed <= |data|
    && (limit <= 0 ==> consumed == |data|)
    && (limit > 0 ==>
          && lines <= limit
          && (consumed < |data| ==> lines == limit)
          && (lines == limit ==> consumed > 0 && data[consumed - 1] == LF))
  }

  class LineParser {
    const max: nat
    var buf: Bytes
    var active: bool
    var truncated: bool

    function View(): Parse
      reads this
    {
      Parse(buf, active, truncated)
    }

    constructor (max: nat)
      ensures this.max == max && View() == FRESH
    {
      this.max := max;
      buf, active, truncated := [], false, false;
    }

    method Reset()
      modifies this
      ensures View() == FRESH
    {
      buf, active, truncated := [], false, false;
    }

    method TakeByte(value: byte) returns (lines: seq<Line>)
      modifies this
      ensures (View(), lines) == FeedByte(max, old(View()), value)
    {
      active := true;
      lines := [];
      if value == LF {
        lines := [CurrentLine(true)];
        Reset();
      } else if |buf| < max {
        buf := buf + [value];
      } else {
        truncated := true;
      }
    }

    method Consume(data: Bytes, lineLimit: int) returns (consumed: nat, lines: seq<Line>)
      modifies this
      ensures ConsumesExactly(data, lineLimit, consumed, |lines|)
      ensures (View(), lines) == Feed(max, old(View()), data[..consumed])
    {
      lines := [];
      for index := 0 to |data|
        invariant (View(), lines) == Feed(max, old(View()), data[..index])
        invariant lineLimit > 0 ==> |lines| < lineLimit
      {
        FeedSnoc(max, old(View()), data[..index], data[index]);
        assert data[..index + 1] == data[..index] + [data[index]];
        var line := TakeByte(data[index]);
        lines := lines + line;
        if line != [] && |lines| == lineLimit {
          return index + 1, lines;
        }
      }
      assert data[..|data|] == data;
      consumed := |data|;
    }

    method Flush() returns (lines: seq<Line>)
      modifies this
      ensures lines == Flushed(old(View())) && (old(active) ==> View() == FRESH)
      ensures !old(active) ==> View() == old(View())
    {
      if !active {
        return [];
      }
      lines := [CurrentLine(false)];
      Reset();
    }

    function CurrentLine(terminated: bool): (line: Line)
      reads this
      ensures line == Emit(View(), terminated)
    {
      var text := if |buf| > 0 && buf[|buf| - 1] == CR then buf[..|buf| - 1] else buf;
      Line(text, truncated, terminated)
    }
  }

  // ----- The ring -----

  function Last<T>(items: seq<T>, n: nat): seq<T> { if |items| <= n then items else items[|items| - n..] }

  /** Overwriting the oldest slot drops the oldest item and appends the new one. */
  lemma Rotate<T>(slots: seq<T>, at: nat, item: T)
    requires at < |slots|
    ensures var after, next := slots[at := item], (at + 1) % |slots|;
            after[next..] + after[..next] == (slots[at..] + slots[..at])[1..] + [item]
  {
    var after := slots[at := item];
    if at + 1 == |slots| {
      assert (at + 1) % |slots| == 0;
      assert after == slots[..at] + [item];
    } else {
      assert (at + 1) % |slots| == at + 1;
    }
  }

  lemma LastGrows<T>(items: seq<T>, item: T, n: nat)
    requires 0 < n <= |items|
    ensures Last(items + [item], n) == Last(items, n)[1..] + [item]
  {
  }

  class LineRing {
    var slots: array<Line>
    var count: nat
    var next: nat
    var full: bool
    ghost var added: seq<Line>

    ghost predicate Valid()
      reads this, slots
    {
      && 0 < slots.Length && count <= slots.Length
      && (if full
          then count == slots.Length && next < count && |added| >= count
               && slots[next..] + slots[..next] == Last(added, count)
          else next == 0 && added == slots[..count])
    }

    constructor (capacity: nat)
      requires capacity > 0
      ensures Valid() && fresh(slots) && slots.Length == capacity && added == []
    {
      slots := new Line[capacity];
      count, next, full, added := 0, 0, false, [];
    }

    method Add(line: Line)
      requires Valid()
      modifies this, slots
      ensures Valid() && slots == old(slots) && added == old(added) + [line]
    {
      if count < slots.Length {
        slots[count] := line;
        count := count + 1;
        added := added + [line];
        return;
      }
      Overwrite(line);
    }

    method Overwrite(line: Line)
      requires Valid() && count == slots.Length
      modifies this, slots
      ensures Valid() && slots == old(slots) && added == old(added) + [line]
    {
      ghost var before, at := slots[..], next;
      assert before[at..] + before[..at] == Last(added, count);
      slots[next] := line;
      next := (next + 1) % count;
      full := true;
      added := added + [line];
      ghost var now := slots[..];
      assert now == before[at := line];
      Rotate(before, at, line);
      LastGrows(old(added), line, count);
      assert slots[next..] == now[next..] && slots[..next] == now[..next];
    }

    /** The last `capacity` lines added, in order. */
    method Contents() returns (lines: seq<Line>)
      requires Valid()
      ensures lines == Last(added, slots.Length)
    {
      if !full {
        return slots[..count];
      }
      lines := slots[next..count];
      lines := lines + slots[..next];
    }
  }
}
