/** Bounded history: the reverse block scan for the start of the last lines, and the forward
    parse from there into the ring (logstream/source.go, logstream/logstream.go). */
module History {
  import opened Options
  import opened Lines
  import opened Disk

  const MAX_INT: int := 0x7FFF_FFFF_FFFF_FFFF
  const BLOCK_SIZE: nat := 65536

  /** The options of a tailer that concern sizes and counts. */
  datatype Opts = Opts(
    tailLines: int, maxLineBytes: int, readBufferBytes: int,
    maxReadBytesPerPoll: int, maxLinesPerPoll: int, maxHistoryBytes: int)

  function Default(value: int, default: int): int { if value == 0 then default else value }

  /** The validation and defaults of New; None is its error. */
  function Normalise(o: Opts): Option<Opts> {
    if o.tailLines < 0 || o.maxLineBytes < 0 || o.readBufferBytes < 0 || o.maxReadBytesPerPoll < 0
       || o.maxLinesPerPoll < 0 || o.maxHistoryBytes < 0 then None
    else Some(o.(maxLineBytes := Default(o.maxLineBytes, 0x10_0000), readBufferBytes := Default(o.readBufferBytes, 0x8000),
                 maxReadBytesPerPoll := Default(o.maxReadBytesPerPoll, 0x10_0000), maxLinesPerPoll := Default(o.maxLinesPerPoll, 4096)))
  }

  /** What every method below relies on; buffers have a machine-sized length. */
  predicate Usable(o: Opts) {
    && o.tailLines >= 0 && o.maxLineBytes > 0 && 0 < o.readBufferBytes <= MAX_INT
    && o.maxReadBytesPerPoll > 0 && o.maxLinesPerPoll > 0 && o.maxHistoryBytes >= 0
  }

  lemma NormalisedIsUsable(o: Opts)
    requires o.readBufferBytes <= MAX_INT
    ensures Normalise(o).Some? ==> Usable(Normalise(o).value)
    ensures Usable(o) ==> Normalise(o) == Some(o)
    ensures Normalise(o).Some? ==>
              var v := Normalise(o).value;
              && v.tailLines == o.tailLines && v.maxHistoryBytes == o.maxHistoryBytes
              && (o.maxLineBytes == 0 ==> v.maxLineBytes == 1_048_576) && (o.readBufferBytes == 0 ==> v.readBufferBytes == 32_768)
              && (o.maxReadBytesPerPoll == 0 ==> v.maxReadBytesPerPoll == 1_048_576)
              && (o.maxLinesPerPoll == 0 ==> v.maxLinesPerPoll == 4_096)
  {
  }

  // ----- Where the last lines start -----

  function Newlines(data: Bytes): nat {
    if data == [] then 0
    else Newlines(data[..|data| - 1]) + if data[|data| - 1] == LF then 1 else 0
  }

  /** Just after the n-th newline before `end`, counting backwards; 0 if there are fewer. */
  function BackTo(data: Bytes, n: nat, end: nat): nat
    requires end <= |data|
  {
    if end == 0 then 0
    else if data[end - 1] != LF then BackTo(data, n, end - 1)
    else if n <= 1 then end
    else BackTo(data, n - 1, end - 1)
  }

  predicate EndsInNewline(data: Bytes) { data != [] && data[|data| - 1] == LF }

  /** A trailing newline ends the last line and is not counted. */
  function UncappedStart(data: Bytes, n: nat): nat {
    if data == [] || n == 0 then |data|
    else BackTo(data, n, if EndsInNewline(data) then |data| - 1 else |data|)
  }

  function TailStart(data: Bytes, n: nat, cap: nat): nat {
    var start := UncappedStart(data, n);
    if cap > 0 && |data| > cap && start < |data| - cap then |data| - cap else start
  }

  /** The lines a snapshot of `data` returns. */
  function HistoryOf(max: nat, data: Bytes, n: nat, cap: nat): seq<Line> {
    if n == 0 || TailStart(data, n, cap) > |data| then [] else Last(AllLines(max, data[TailStart(data, n, cap)..]), n)
  }

  // ----- Counting lines -----

  lemma {:induction false} BackToBounds(data: Bytes, n: nat, end: nat)
    requires n > 0 && end <= |data|
    ensures BackTo(data, n, end) <= end
    ensures Newlines(data[BackTo(data, n, end)..end]) < n
    ensures BackTo(data, n, end) > 0 ==>
              data[BackTo(data, n, end) - 1] == LF && Newlines(data[BackTo(data, n, end)..end]) == n - 1
  {
    if end > 0 {
      var m := if data[end - 1] == LF then n - 1 else n;
      if m > 0 {
        BackToBounds(data, m, end - 1);
        var s := BackTo(data, m, end - 1);
        assert data[s..end][..end - s - 1] == data[s..end - 1];
      } else {
        assert data[end..end] == [];
      }
    }
  }

  lemma StartWithin(data: Bytes, n: nat, cap: nat)
    ensures UncappedStart(data, n) <= TailStart(data, n, cap) <= |data|
  {
    if data != [] && n > 0 {
      BackToBounds(data, n, if EndsInNewline(data) then |data| - 1 else |data|);
    }
  }

  lemma {:induction false} FeedCounts(max: nat, data: Bytes)
    ensures |Feed(max, FRESH, data).1| == Newlines(data) <= |data|
    ensures Feed(max, FRESH, data).0.active <==> data != [] && !EndsInNewline(data)
    ensures data == [] || EndsInNewline(data) ==> Feed(max, FRESH, data).0 == FRESH
  {
    if data != [] {
      var front, last := data[..|data| - 1], data[|data| - 1];
      assert data == front + [last];
      FeedCounts(max, front);
      FeedSnoc(max, FRESH, front, last);
    }
  }

  lemma {:induction false} FeedLineCount(max: nat, p: Parse, data: Bytes)
    ensures |Feed(max, p, data).1| == Newlines(data) <= |data|
  {
    if data != [] {
      var front, last := data[..|data| - 1], data[|data| - 1];
      assert data == front + [last];
      FeedLineCount(max, p, front);
      FeedSnoc(max, p, front, last);
    }
  }

  /** Parsing can start afresh right after any newline. */
  lemma LineBoundary(max: nat, data: Bytes, start: nat)
    requires start <= |data| && (start == 0 || data[start - 1] == LF)
    ensures AllLines(max, data) == Feed(max, FRESH, data[..start]).1 + AllLines(max, data[start..])
  {
    assert data == data[..start] + data[start..];
    FeedCounts(max, data[..start]);
    FeedAppend(max, FRESH, data[..start], data[start..]);
  }

  lemma LastOfConcat<T>(front: seq<T>, back: seq<T>, n: nat)
    requires |back| <= n && (|back| == n || front == [])
    ensures Last(front + back, n) == back
  {
  }

  /** What the scan's start means for the lines from there on. */
  lemma StartLineCount(max: nat, data: Bytes, n: nat)
    requires n > 0 && data != []
    ensures var start := UncappedStart(data, n);
            && start < |data| && (start == 0 || data[start - 1] == LF)
            && |AllLines(max, data[start..])| <= n
            && (start > 0 ==> |AllLines(max, data[start..])| == n)
  {
    var end := if EndsInNewline(data) then |data| - 1 else |data|;
    BackToBounds(data, n, end);
    SuffixLineCount(max, data, UncappedStart(data, n), end);
  }

  /** Without a cap, the lines from the start the scan finds are exactly the last n lines of
      the whole data. */
  lemma HistoryIsWholeTail(max: nat, data: Bytes, n: nat)
    requires n > 0
    ensures UncappedStart(data, n) <= |data|
    ensures AllLines(max, data[UncappedStart(data, n)..]) == Last(AllLines(max, data), n)
  {
    StartWithin(data, n, 0);
    if data != [] {
      var start := UncappedStart(data, n);
      StartLineCount(max, data, n);
      LineBoundary(max, data, start);
      assert start == 0 ==> Feed(max, FRESH, data[..start]).1 == [];
      LastOfConcat(Feed(max, FRESH, data[..start]).1, AllLines(max, data[start..]), n);
    }
  }

  lemma SuffixLineCount(max: nat, data: Bytes, start: nat, end: nat)
    requires data != [] && start <= end <= |data|
    requires if EndsInNewline(data) then end == |data| - 1 else end == |data| && start < |data|
    ensures |AllLines(max, data[start..])| == Newlines(data[start..end]) + 1
  {
    FeedCounts(max, data[start..]);
    var suffix := data[start..];
    if EndsInNewline(data) {
      assert suffix[..|suffix| - 1] == data[start..end];
    } else {
      assert suffix == data[start..end];
    }
  }

  /** The end of the line that position `from` lies in: after its newline, or the data's end. */
  function LineEnd(data: Bytes, from: nat): (end: nat)
    requires from < |data|
    ensures from < end <= |data| && OneLine(data[from..end - 1])
    ensures data[end - 1] == LF || (end == |data| && OneLine(data[from..]))
    decreases |data| - from
  {
    if data[from] == LF then
      assert data[from..from] == [];
      from + 1
    else if from + 1 == |data| then
      assert data[from..] == [data[from]];
      from + 1
    else
      var e := LineEnd(data, from + 1);
      assert data[from..e - 1] == [data[from]] + data[from + 1..e - 1];
      assert data[from..] == [data[from]] + data[from + 1..];
      e
  }

  /** Whether the line that position `at` lies in has its newline. */
  predicate Ended(data: Bytes, at: nat)
    requires at < |data|
  {
    data[LineEnd(data, at) - 1] == LF
  }

  /** The rest of the line from `at` on, without its newline. */
  function RestOfLine(data: Bytes, at: nat): Bytes
    requires at < |data|
  {
    data[at..if Ended(data, at) then LineEnd(data, at) - 1 else LineEnd(data, at)]
  }

  lemma EndedLine(max: nat, rest: Bytes, tail: Bytes)
    requires OneLine(rest)
    ensures AllLines(max, rest + [LF] + tail) == [LineOf(max, rest, true)] + AllLines(max, tail)
  {
    var line := rest + [LF];
    var suffix := line + tail;
    assert suffix[..|line|] == line && suffix[|line|..] == tail;
    FeedPartial(max, rest);
    FeedSnoc(max, FRESH, rest, LF);
    LineBoundary(max, suffix, |line|);
  }

  lemma LastLine(max: nat, rest: Bytes)
    requires OneLine(rest) && rest != []
    ensures AllLines(max, rest) == [LineOf(max, rest, false)]
  {
    FeedPartial(max, rest);
  }

  /** Parsing from a position on yields the rest of its line, and then the lines after it. */
  lemma FirstLine(max: nat, data: Bytes, at: nat)
    requires at < |data|
    ensures AllLines(max, data[at..]) ==
            [LineOf(max, RestOfLine(data, at), Ended(data, at))] + AllLines(max, data[LineEnd(data, at)..])
  {
    var rest, tail := RestOfLine(data, at), data[LineEnd(data, at)..];
    if Ended(data, at) {
      assert data[at..] == rest + [LF] + tail;
      EndedLine(max, rest, tail);
    } else {
      assert data[at..] == rest && tail == [];
      LastLine(max, rest);
    }
  }

  lemma LastSuffix<T>(front: seq<T>, back: seq<T>)
    ensures Last(front + back, |back|) == back
  {
  }

  /** A suffix that starts at a line has the last lines of the whole data. */
  lemma SuffixAtLine(max: nat, data: Bytes, start: nat)
    requires start <= |data| && (start == 0 || data[start - 1] == LF)
    ensures AllLines(max, data[start..]) == Last(AllLines(max, data), |AllLines(max, data[start..])|)
  {
    LineBoundary(max, data, start);
    LastSuffix(Feed(max, FRESH, data[..start]).1, AllLines(max, data[start..]));
  }

  /** However a suffix starts, its lines but the first are the last lines of the whole data. */
  lemma SuffixAnywhere(max: nat, data: Bytes, start: nat)
    requires start < |data|
    ensures var lines := AllLines(max, data[start..]);
            lines != [] && lines[1..] == Last(AllLines(max, data), |lines| - 1)
  {
    FirstLine(max, data, start);
    var end := LineEnd(data, start);
    if Ended(data, start) {
      SuffixAtLine(max, data, end);
    } else {
      assert data[end..] == [];
    }
  }

  /** The suffix a history is parsed from, and how many lines it has. */
  lemma HistorySuffix(max: nat, data: Bytes, n: nat, cap: nat)
    requires n > 0
    ensures var start, lines := TailStart(data, n, cap), HistoryOf(max, data, n, cap);
            && start <= |data| && (data != [] ==> start < |data|) && (cap > 0 ==> |data| - start <= cap)
            && lines == AllLines(max, data[start..]) && |lines| <= n
  {
    StartWithin(data, n, cap);
    if data != [] {
      StartLineCount(max, data, n);
      LaterStartFewerLines(max, data, UncappedStart(data, n), TailStart(data, n, cap));
    }
  }

  /** With a cap the suffix parsed is at most `cap` bytes long and holds at most n lines. If it
      starts at a line they all are the last lines of the whole data; otherwise all but the first,
      whose beginning was cut. */
  lemma HistoryUnderCap(max: nat, data: Bytes, n: nat, cap: nat)
    requires n > 0
    ensures TailStart(data, n, cap) <= |data|
    ensures var start, lines := TailStart(data, n, cap), HistoryOf(max, data, n, cap);
            && (cap > 0 ==> |data| - start <= cap)
            && lines == AllLines(max, data[start..]) && |lines| <= n
            && (start == UncappedStart(data, n) ==> lines == Last(AllLines(max, data), n))
            && (start == 0 || data[start - 1] == LF ==> lines == Last(AllLines(max, data), |lines|))
            && (lines != [] ==> lines[1..] == Last(AllLines(max, data), |lines| - 1))
  {
    HistorySuffix(max, data, n, cap);
    HistoryIsWholeTail(max, data, n);
    var start := TailStart(data, n, cap);
    if start == 0 || data[start - 1] == LF {
      SuffixAtLine(max, data, start);
    }
    if start < |data| {
      SuffixAnywhere(max, data, start);
    }
  }

  lemma {:induction false} NewlinesAppend(a: Bytes, b: Bytes)
    ensures Newlines(a + b) == Newlines(a) + Newlines(b)
  {
    if b == [] {
      assert a + b == a;
    } else {
      assert (a + b)[..|a + b| - 1] == a + b[..|b| - 1];
      NewlinesAppend(a, b[..|b| - 1]);
    }
  }

  lemma LaterStartFewerLines(max: nat, data: Bytes, start: nat, cut: nat)
    requires start <= cut < |data|
    ensures |AllLines(max, data[cut..])| <= |AllLines(max, data[start..])|
  {
    FeedCounts(max, data[cut..]);
    FeedCounts(max, data[start..]);
    assert data[start..] == data[start..cut] + data[cut..];
    NewlinesAppend(data[start..cut], data[cut..]);
  }

  // ----- The reverse scan -----

  /** Scanning one block from its end: the position found, or the counters to go on with. */
  function ScanBuf(buffer: Bytes, position: nat, size: nat, n: nat, found: nat, skip: bool): (Option<nat>, nat, bool) {
    if buffer == [] then (None, found, skip)
    else
      var i := |buffer| - 1;
      if buffer[i] != LF then ScanBuf(buffer[..i], position, size, n, found, skip)
      else if skip && position + i == size - 1 then ScanBuf(buffer[..i], position, size, n, found, false)
      else if found + 1 == n then (Some(position + i + 1), found + 1, false)
      else ScanBuf(buffer[..i], position, size, n, found + 1, false)
  }

  method ScanBlock(buffer: Bytes, position: nat, size: nat, n: nat, found0: nat, skip0: bool)
    returns (hit: Option<nat>, found: nat, skip: bool)
    ensures (hit, found, skip) == ScanBuf(buffer, position, size, n, found0, skip0)
  {
    found, skip := found0, skip0;
    assert buffer[..|buffer|] == buffer;
    for i := |buffer| downto 0
      invariant ScanBuf(buffer, position, size, n, found0, skip0) == ScanBuf(buffer[..i], position, size, n, found, skip)
    {
      assert buffer[..i + 1][..i] == buffer[..i];
      if buffer[i] != LF {
        continue;
      }
      if skip && position + i == size - 1 {
        skip := false;
        continue;
      }
      skip := false;
      found := found + 1;
      if found == n {
        return Some(position + i + 1), found, skip;
      }
    }
    hit := None;
  }

  /** With everything from `k` on scanned, the start is still to be found below `k`. */
  predicate Scanned(data: Bytes, n: nat, k: nat, found: nat, skip: bool) {
    && k <= |data|
    && (if k == |data| then found == 0 && skip
        else found < n && UncappedStart(data, n) == BackTo(data, n - found, k))
  }

  lemma {:induction false} ScanBufFinds(data: Bytes, buffer: Bytes, position: nat, n: nat, found: nat, skip: bool)
    requires n > 0 && position + |buffer| <= |data| && buffer == data[position..position + |buffer|]
    requires Scanned(data, n, position + |buffer|, found, skip)
    ensures var (hit, f, s) := ScanBuf(buffer, position, |data|, n, found, skip);
            if hit.Some? then hit.value == UncappedStart(data, n) > position
            else Scanned(data, n, position, f, s)
    decreases |buffer|
  {
    if buffer != [] {
      var i := |buffer| - 1;
      assert buffer[i] == data[position + i];
      assert buffer[..i] == data[position..position + i];
      var skipped := skip && position + i == |data| - 1;
      if buffer[i] != LF {
        ScanBufFinds(data, buffer[..i], position, n, found, skip);
      } else if skipped {
        ScanBufFinds(data, buffer[..i], position, n, found, false);
      } else if found + 1 < n {
        ScanBufFinds(data, buffer[..i], position, n, found + 1, false);
      }
    }
  }

  lemma {:induction false} ScanBufBounds(buffer: Bytes, position: nat, size: nat, n: nat, found: nat, skip: bool)
    ensures var hit := ScanBuf(buffer, position, size, n, found, skip).0;
            hit.Some? ==> hit.value <= position + |buffer|
    decreases |buffer|
  {
    if buffer != [] {
      var i := |buffer| - 1;
      ScanBufBounds(buffer[..i], position, size, n, found, skip);
      ScanBufBounds(buffer[..i], position, size, n, found, false);
      ScanBufBounds(buffer[..i], position, size, n, found + 1, false);
    }
  }

  /** What an open file held when it was measured at `size`; it can only have grown since. */
  ghost predicate Measured(env: Env, f: FileId, data: Bytes)
    reads env
  {
    f in env.disk.files && (env.calm ==> Prefix(data, env.disk.files[f]))
  }

  /** One round of the scan: read the block before what was scanned, and scan it. */
  method ReadBlock(env: Env, f: FileId, ghost data: Bytes, size: nat, position: nat, readSize: nat, n: nat, found0: nat, skip0: bool)
    returns (hit: Option<nat>, found: nat, skip: bool, read: bool)
    requires env.Ok() && Measured(env, f, data) && n > 0 && position + readSize <= |data| == size
    requires env.calm ==> Scanned(data, n, position + readSize, found0, skip0)
    modifies env
    ensures env.Kept() && Measured(env, f, data)
    ensures !read ==> env.faults > old(env.faults)
    ensures hit.Some? ==> hit.value <= position + readSize
    ensures read && env.calm ==> if hit.Some? then hit.value == UncappedStart(data, n) > position
                                 else Scanned(data, n, position, found, skip)
  {
    var buffer, _, err := env.ReadAt(f, position, readSize);
    hit, found, skip := ScanBlock(buffer, position, size, n, found0, skip0);
    read := err != Failed;
    ScanBufBounds(buffer, position, |data|, n, found0, skip0);
    if env.calm && read {
      SliceOfPrefix(data, env.disk.files[f], position, position + readSize);
      ScanBufFinds(data, buffer, position, n, found0, skip0);
    }
  }

  /** Having scanned exactly `cap` bytes without a hit, the cap decides. */
  lemma CappedHere(env: Env, data: Bytes, n: nat, position: nat, found: nat, skip: bool, cap: nat)
    requires n > 0 && cap > 0 && position <= |data| && |data| - position == cap
    requires env.calm ==> Scanned(data, n, position, found, skip)
    ensures env.calm ==> TailStart(data, n, cap) == position
  {
    if env.calm {
      if position < |data| {
        BackToBounds(data, n - found, position);
      }
    }
  }

  /** Where the scan stands after a round: to go on below `position`, done, or broken off. */
  datatype Scan = More(position: nat, found: nat, skip: bool) | Start(at: nat) | Broken

  /** What holds of a scan of the measured data. */
  ghost predicate ScanOk(env: Env, data: Bytes, n: nat, cap: nat, scan: Scan)
    reads env
  {
    match scan
    case More(position, found, skip) =>
      && position <= |data| && (cap > 0 ==> |data| - position <= cap)
      && (env.calm ==> Scanned(data, n, position, found, skip))
    case Start(at) => at <= |data| && (env.calm ==> at == TailStart(data, n, cap))
    case Broken => true
  }

  /** One round: at most a block, and no more than the cap still allows. */
  method ScanRound(env: Env, f: FileId, ghost data: Bytes, size: nat, position: nat, n: nat, cap: nat, found0: nat, skip0: bool)
    returns (scan: Scan)
    requires env.Ok() && Measured(env, f, data) && |data| == size && n > 0 && position > 0
    requires ScanOk(env, data, n, cap, More(position, found0, skip0))
    modifies env
    ensures env.Kept() && Measured(env, f, data) && ScanOk(env, data, n, cap, scan)
    ensures scan.More? ==> scan.position < position
    ensures scan.Broken? ==> env.faults > old(env.faults)
  {
    var cancelled := env.Cancelled();
    if cancelled {
      return Broken;
    }
    var readSize := if position < BLOCK_SIZE then position else BLOCK_SIZE;
    if cap > 0 && size - (position - readSize) > cap {
      var allowed := cap - (size - position);
      if allowed <= 0 {
        CappedHere(env, data, n, position, found0, skip0, cap);
        return Start(position);
      }
      readSize := allowed;
    }
    scan := ReadAndScan(env, f, data, size, position - readSize, readSize, n, cap, found0, skip0);
  }

  method ReadAndScan(env: Env, f: FileId, ghost data: Bytes, size: nat, position: nat, readSize: nat, n: nat, cap: nat,
                     found0: nat, skip0: bool)
    returns (scan: Scan)
    requires env.Ok() && Measured(env, f, data) && n > 0 && 0 < readSize && position + readSize <= |data| == size
    requires cap > 0 ==> size - position <= cap
    requires env.calm ==> Scanned(data, n, position + readSize, found0, skip0)
    modifies env
    ensures env.Kept() && Measured(env, f, data) && ScanOk(env, data, n, cap, scan)
    ensures scan.More? ==> scan.position == position
    ensures scan.Broken? ==> env.faults > old(env.faults)
  {
    var hit, found, skip, read := ReadBlock(env, f, data, size, position, readSize, n, found0, skip0);
    if !read {
      return Broken;
    }
    if hit.Some? {
      return Start(hit.value);
    }
    if cap > 0 && size - position >= cap {
      CappedHere(env, data, n, position, found, skip, cap);
      return Start(position);
    }
    scan := More(position, found, skip);
  }

  /** The offset at which the last `lines` lines of the first `size` bytes begin; None is an error
      or a cancelled context. */
  method ReverseTailStart(env: Env, f: FileId, size: nat, lines: nat, opts: Opts, ghost data: Bytes)
    returns (start: Option<nat>)
    requires Usable(opts) && env.Ok() && Measured(env, f, data) && |data| == size
    modifies env
    ensures env.Kept() && Measured(env, f, data)
    ensures start == None ==> env.faults > old(env.faults)
    ensures start.Some? ==> start.value <= size
    ensures start.Some? && env.calm ==> start.value == TailStart(data, lines, opts.maxHistoryBytes)
  {
    if size == 0 || lines == 0 {
      return Some(size);
    }
    var scan := More(size, 0, true);
    while scan.More? && scan.position > 0
      invariant env.Kept() && Measured(env, f, data) && ScanOk(env, data, lines, opts.maxHistoryBytes, scan)
      invariant scan.Broken? ==> env.faults > old(env.faults)
      decreases if scan.More? then scan.position + 1 else 0
    {
      scan := ScanRound(env, f, data, size, scan.position, lines, opts.maxHistoryBytes, scan.found, scan.skip);
    }
    start := match scan
      case More(_, _, _) => Some(0)
      case Start(at) => Some(at)
      case Broken => None;
  }

  // ----- The forward parse -----

  method AddAll(ring: LineRing, lines: seq<Line>)
    requires ring.Valid()
    modifies ring, ring.slots
    ensures ring.Valid() && ring.slots == old(ring.slots) && ring.added == old(ring.added) + lines
  {
    for i := 0 to |lines|
      invariant ring.Valid() && ring.slots == old(ring.slots) && ring.added == old(ring.added) + lines[..i]
    {
      assert lines[..i + 1] == lines[..i] + [lines[i]];
      assert old(ring.added) + lines[..i + 1] == (old(ring.added) + lines[..i]) + [lines[i]];
      ring.Add(lines[i]);
    }
    assert lines[..|lines|] == lines;
  }

  /** Feed one chunk to the parser and its lines to the ring: nothing is left over, since the
      limit is the largest integer. */
  method ParseChunk(parser: LineParser, ring: LineRing, chunk: Bytes)
    requires ring.Valid() && |chunk| <= MAX_INT
    modifies parser, ring, ring.slots
    ensures ring.Valid() && ring.slots == old(ring.slots)
    ensures var (p, lines) := Feed(parser.max, old(parser.View()), chunk);
            parser.View() == p && ring.added == old(ring.added) + lines
  {
    var consumed, lines := parser.Consume(chunk, MAX_INT);
    FeedLineCount(parser.max, old(parser.View()), chunk[..consumed]);
    assert chunk[..|chunk|] == chunk;
    AddAll(ring, lines);
  }

  /** What parser and ring hold after the bytes from `start` to `position`. */
  ghost predicate Forwarded(max: nat, data: Bytes, start: nat, position: nat, p: Parse, added: seq<Line>) {
    start <= position <= |data| && (p, added) == Feed(max, FRESH, data[start..position])
  }

  lemma ForwardStep(max: nat, data: Bytes, start: nat, position: nat, p: Parse, added: seq<Line>, chunk: Bytes)
    requires Forwarded(max, data, start, position, p, added) && position + |chunk| <= |data|
    requires chunk == data[position..position + |chunk|]
    ensures var (q, lines) := Feed(max, p, chunk);
            Forwarded(max, data, start, position + |chunk|, q, added + lines)
  {
    assert data[start..position + |chunk|] == data[start..position] + chunk;
    FeedAppend(max, FRESH, data[start..position], chunk);
  }

  /** One read of the forward pass. */
  method ReadChunk(env: Env, f: FileId, ghost data: Bytes, ghost start: nat, position: nat, want: nat,
                   parser: LineParser, ring: LineRing)
    returns (count: nat, err: ReadErr)
    requires env.Ok() && Measured(env, f, data) && ring.Valid() && 0 < want <= MAX_INT && position + want <= |data|
    requires env.calm ==> Forwarded(parser.max, data, start, position, parser.View(), ring.added)
    modifies env, parser, ring, ring.slots
    ensures env.Kept() && Measured(env, f, data) && ring.Valid() && ring.slots == old(ring.slots)
    ensures err == Failed ==> env.faults > old(env.faults)
    ensures count <= want && (err == NoErr ==> count > 0)
    ensures env.calm ==> Forwarded(parser.max, data, start, position + count, parser.View(), ring.added)
    ensures env.calm && err == Eof ==> position + count == |data|
  {
    var chunk;
    chunk, err := env.Read(f, position, want);
    count := |chunk|;
    if chunk != [] {
      if env.calm {
        SliceOfPrefix(data, env.disk.files[f], position, position + |chunk|);
        ForwardStep(parser.max, data, start, position, parser.View(), ring.added, chunk);
      }
      ParseChunk(parser, ring, chunk);
    }
  }

  /** One round of it, unless the context is cancelled. */
  method ForwardRound(env: Env, f: FileId, ghost data: Bytes, ghost start: nat, position: nat, want: nat,
                      parser: LineParser, ring: LineRing)
    returns (count: nat, err: ReadErr)
    requires env.Ok() && Measured(env, f, data) && ring.Valid() && 0 < want <= MAX_INT && position + want <= |data|
    requires env.calm ==> Forwarded(parser.max, data, start, position, parser.View(), ring.added)
    modifies env, parser, ring, ring.slots
    ensures env.Kept() && Measured(env, f, data) && ring.Valid() && ring.slots == old(ring.slots)
    ensures err == Failed ==> env.faults > old(env.faults)
    ensures count <= want && (err == NoErr ==> count > 0)
    ensures env.calm ==> Forwarded(parser.max, data, start, position + count, parser.View(), ring.added)
    ensures env.calm && err == Eof ==> position + count == |data|
  {
    var cancelled := env.Cancelled();
    if cancelled {
      return 0, Failed;
    }
    count, err := ReadChunk(env, f, data, start, position, want, parser, ring);
  }

  /** Parse from `start` to `size` into the ring; false is an error or a cancelled context. */
  method ForwardParse(env: Env, f: FileId, ghost data: Bytes, start: nat, size: nat, bufferBytes: nat,
                      parser: LineParser, ring: LineRing)
    returns (ok: bool)
    requires env.Ok() && Measured(env, f, data) && ring.Valid() && 0 < bufferBytes <= MAX_INT
    requires start <= size == |data| && parser.View() == FRESH && ring.added == []
    modifies env, parser, ring, ring.slots
    ensures env.Kept() && Measured(env, f, data) && ring.Valid() && ring.slots == old(ring.slots)
    ensures !ok ==> env.faults > old(env.faults)
    ensures ok && env.calm ==> Forwarded(parser.max, data, start, size, parser.View(), ring.added)
  {
    var position := start;
    var ended := false;
    assert data[start..start] == [];
    while position < size && !ended
      invariant position <= size && env.Kept()
      invariant Measured(env, f, data) && ring.Valid() && ring.slots == old(ring.slots)
      invariant env.calm ==> Forwarded(parser.max, data, start, position, parser.View(), ring.added)
      invariant env.calm && ended ==> position == size
      decreases size - position, !ended
    {
      var want := if bufferBytes < size - position then bufferBytes else size - position;
      var count, err := ForwardRound(env, f, data, start, position, want, parser, ring);
      position := position + count;
      if err == Eof {
        ended := true;
      } else if err == Failed {
        return false;
      }
    }
    ok := true;
  }

  /** The last n lines parsed from `start` on. */
  method ParseTail(env: Env, f: FileId, size: nat, start: nat, n: nat, opts: Opts, ghost data: Bytes)
    returns (result: Option<seq<Line>>)
    requires Usable(opts) && env.Ok() && Measured(env, f, data) && start <= |data| == size && n > 0
    modifies env
    ensures env.Kept() && Measured(env, f, data)
    ensures result == None ==> env.faults > old(env.faults)
    ensures result.Some? ==> |result.value| <= n
    ensures result.Some? && env.calm ==> result.value == Last(AllLines(opts.maxLineBytes, data[start..]), n)
  {
    var parser := new LineParser(opts.maxLineBytes);
    var ring := new LineRing(n);
    var ok := ForwardParse(env, f, data, start, size, opts.readBufferBytes, parser, ring);
    if !ok {
      return None;
    }
    var last := parser.Flush();
    AddAll(ring, last);
    var lines := ring.Contents();
    assert data[start..size] == data[start..];
    result := Some(lines);
  }

  /** The last n lines of the first `size` bytes; None is an error or a cancelled context. */
  method SnapshotFile(env: Env, f: FileId, size: nat, n: nat, opts: Opts, ghost data: Bytes)
    returns (result: Option<seq<Line>>)
    requires Usable(opts) && env.Ok() && Measured(env, f, data) && |data| == size
    modifies env
    ensures env.Kept() && Measured(env, f, data)
    ensures result == None ==> env.faults > old(env.faults)
    ensures result.Some? ==> |result.value| <= n
    ensures result.Some? && env.calm ==>
              result.value == HistoryOf(opts.maxLineBytes, data, n, opts.maxHistoryBytes)
  {
    StartWithin(data, n, opts.maxHistoryBytes);
    if n == 0 {
      return Some([]);
    }
    var from := ReverseTailStart(env, f, size, n, opts, data);
    if from.None? {
      return None;
    }
    result := ParseTail(env, f, size, from.value, n, opts, data);
  }
}
