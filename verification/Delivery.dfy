/** What a tailer has delivered of the files it followed, and what keeps that record true
    (logstream/source.go). */
module Delivery {
  import opened Options
  import opened Lines
  import opened Disk
  import opened History

  // ----- What a tailer has delivered -----

  /** One opened file: the initial tail if it was the first, then the bytes read from `start` on.
      `stats` are the sizes measured by the polls that found the file replaced and had read up
      to that size. */
  datatype Segment = Segment(file: FileId, initial: bool, tail: seq<Line>, start: nat, bytes: Bytes, stats: seq<nat>) {
    function End(): nat { start + |bytes| }
  }

  /** The bytes are the file's own, in place; the tail is the history before them. */
  ghost predicate SegmentOk(opts: Opts, disk: Disk, s: Segment)
    requires Usable(opts)
  {
    && s.file in disk.files && s.End() <= |disk.files[s.file]|
    && disk.files[s.file][s.start..s.End()] == s.bytes
    && (forall i :: 0 <= i < |s.stats| ==> s.stats[i] <= s.End())
    && (if s.initial then s.tail == HistoryOf(opts.maxLineBytes, disk.files[s.file][..s.start], opts.tailLines, opts.maxHistoryBytes)
        else s.start == 0 && s.tail == [])
  }

  /** A file no longer followed: its tail, and every line of what was read, the final partial
      line included. */
  function ClosedLines(max: nat, s: Segment): seq<Line> { s.tail + AllLines(max, s.bytes) }

  /** The lines of the first n closed files, in the order the files were opened. */
  function OutputOf(max: nat, closed: seq<Segment>, n: nat): seq<Line>
    requires n <= |closed|
  {
    if n == 0 then [] else OutputOf(max, closed, n - 1) + ClosedLines(max, closed[n - 1])
  }

  /** The file is at the path, or was and left it for good. */
  ghost predicate Located(disk: Disk, f: FileId) { disk.path == Some(f) || f in disk.retired }

  /** The file is none of those closed. */
  ghost predicate NotClosed(closed: seq<Segment>, f: FileId) {
    forall i :: 0 <= i < |closed| ==> closed[i].file != f
  }

  /** No file was followed twice. */
  ghost predicate EachOnce(closed: seq<Segment>) {
    forall i, j :: 0 <= i < j < |closed| ==> closed[i].file != closed[j].file
  }

  /** `lines` is exactly the parse of the files closed so far, each once, each left only after it
      had left the path and two polls found it replaced and fully read. */
  ghost predicate ClosedOk(opts: Opts, disk: Disk, closed: seq<Segment>, lines: seq<Line>)
    requires Usable(opts)
  {
    && (forall i :: 0 <= i < |closed| ==>
          SegmentOk(opts, disk, closed[i]) && |closed[i].stats| == 2 && closed[i].file in disk.retired)
    && EachOnce(closed)
    && lines == OutputOf(opts.maxLineBytes, closed, |closed|)
  }

  /** `lines` and the parser's state are exactly the parse of the bytes read so far. */
  predicate Parsed(max: nat, s: Segment, p: Parse, lines: seq<Line>) {
    p == Feed(max, FRESH, s.bytes).0 && lines == s.tail + Feed(max, FRESH, s.bytes).1
  }

  ghost predicate OpenOk(opts: Opts, disk: Disk, s: Segment, p: Parse, lines: seq<Line>)
    requires Usable(opts)
  {
    SegmentOk(opts, disk, s) && Located(disk, s.file) && Parsed(opts.maxLineBytes, s, p, lines)
  }

  // ----- Its preservation -----

  lemma SegmentEvolves(opts: Opts, a: Disk, b: Disk, s: Segment)
    requires Usable(opts) && SegmentOk(opts, a, s) && Evolves(a, b)
    ensures SegmentOk(opts, b, s)
  {
    SliceOfPrefix(a.files[s.file], b.files[s.file], s.start, s.End());
    assert a.files[s.file][..s.start] == b.files[s.file][..s.start];
  }

  lemma ClosedEvolves(opts: Opts, a: Disk, b: Disk, closed: seq<Segment>, lines: seq<Line>)
    requires Usable(opts) && ClosedOk(opts, a, closed, lines) && Evolves(a, b)
    ensures ClosedOk(opts, b, closed, lines)
  {
    forall i | 0 <= i < |closed|
      ensures SegmentOk(opts, b, closed[i])
    {
      SegmentEvolves(opts, a, b, closed[i]);
    }
  }

  /** Appends, renames and creations by others change nothing that was delivered. */
  lemma DeliveredEvolves(opts: Opts, a: Disk, b: Disk)
    requires Usable(opts) && Evolves(a, b)
    ensures forall closed, lines :: ClosedOk(opts, a, closed, lines) ==> ClosedOk(opts, b, closed, lines)
    ensures forall s, p, lines :: OpenOk(opts, a, s, p, lines) ==> OpenOk(opts, b, s, p, lines)
  {
    forall closed, lines | ClosedOk(opts, a, closed, lines)
      ensures ClosedOk(opts, b, closed, lines)
    {
      ClosedEvolves(opts, a, b, closed, lines);
    }
    forall s, p, lines | OpenOk(opts, a, s, p, lines)
      ensures OpenOk(opts, b, s, p, lines)
    {
      SegmentEvolves(opts, a, b, s);
    }
  }

  lemma TakeMore(opts: Opts, disk: Disk, s: Segment, data: Bytes)
    requires Usable(opts) && SegmentOk(opts, disk, s)
    requires s.End() + |data| <= |disk.files[s.file]| && data == disk.files[s.file][s.End()..s.End() + |data|]
    ensures SegmentOk(opts, disk, s.(bytes := s.bytes + data))
  {
    var content := disk.files[s.file];
    assert content[s.start..s.End() + |data|] == content[s.start..s.End()] + content[s.End()..s.End() + |data|];
  }

  lemma ParseMore(max: nat, s: Segment, p: Parse, lines: seq<Line>, data: Bytes, q: Parse, more: seq<Line>)
    requires Parsed(max, s, p, lines) && (q, more) == Feed(max, p, data)
    ensures Parsed(max, s.(bytes := s.bytes + data), q, lines + more)
  {
    FeedAppend(max, FRESH, s.bytes, data);
    assert (s.tail + Feed(max, FRESH, s.bytes).1) + more == s.tail + (Feed(max, FRESH, s.bytes).1 + more);
  }

  /** A read after calm changes by others extends the record of the open file. */
  lemma DeliverRead(opts: Opts, a: Disk, b: Disk, s: Segment, p: Parse, lines: seq<Line>, data: Bytes, q: Parse, more: seq<Line>)
    requires Usable(opts) && OpenOk(opts, a, s, p, lines) && Evolves(a, b)
    requires s.End() + |data| <= |b.files[s.file]| && data == b.files[s.file][s.End()..s.End() + |data|]
    requires (q, more) == Feed(opts.maxLineBytes, p, data)
    ensures OpenOk(opts, b, s.(bytes := s.bytes + data), q, lines + more)
  {
    SegmentEvolves(opts, a, b, s);
    TakeMore(opts, b, s, data);
    ParseMore(opts.maxLineBytes, s, p, lines, data, q, more);
  }

  /** The same after others changed the disk meanwhile. */
  lemma DeliverMeanwhile(opts: Opts, before: Disk, disk: Disk, closed: seq<Segment>, closedLines: seq<Line>, s: Segment,
                         p: Parse, lines: seq<Line>, taken: Bytes, q: Parse, more: seq<Line>, sample: Bytes)
    requires Usable(opts) && Evolves(before, disk) && ClosedOk(opts, before, closed, closedLines)
    requires OpenOk(opts, before, s, p, lines) && Prefix(sample, before.files[s.file])
    requires s.End() + |taken| <= |disk.files[s.file]| && taken == disk.files[s.file][s.End()..s.End() + |taken|]
    requires (q, more) == Feed(opts.maxLineBytes, p, taken)
    ensures ClosedOk(opts, disk, closed, closedLines)
    ensures OpenOk(opts, disk, s.(bytes := s.bytes + taken), q, lines + more) && Prefix(sample, disk.files[s.file])
  {
    ClosedEvolves(opts, before, disk, closed, closedLines);
    DeliverRead(opts, before, disk, s, p, lines, taken, q, more);
    PrefixGrows(sample, before.files[s.file], disk.files[s.file]);
  }

  lemma {:induction false} OutputPrefix(max: nat, a: seq<Segment>, b: seq<Segment>, n: nat)
    requires n <= |a| && n <= |b| && forall i :: 0 <= i < n ==> a[i] == b[i]
    ensures OutputOf(max, a, n) == OutputOf(max, b, n)
  {
    if n > 0 { OutputPrefix(max, a, b, n - 1); }
  }

  lemma OutputSnoc(max: nat, closed: seq<Segment>, s: Segment)
    ensures OutputOf(max, closed + [s], |closed| + 1) == OutputOf(max, closed, |closed|) + ClosedLines(max, s)
  {
    OutputPrefix(max, closed, closed + [s], |closed|);
  }

  lemma FlushCompletes(max: nat, s: Segment, p: Parse, lines: seq<Line>)
    requires Parsed(max, s, p, lines)
    ensures ClosedLines(max, s) == lines + Flushed(p)
  {
    assert (s.tail + Feed(max, FRESH, s.bytes).1) + Flushed(p) == s.tail + (Feed(max, FRESH, s.bytes).1 + Flushed(p));
  }

  lemma CloseOneMore(opts: Opts, disk: Disk, closed: seq<Segment>, before: seq<Line>, s: Segment, lines: seq<Line>)
    requires Usable(opts) && ClosedOk(opts, disk, closed, before) && SegmentOk(opts, disk, s)
    requires |s.stats| == 2 && s.file in disk.retired && NotClosed(closed, s.file)
    requires lines == before + ClosedLines(opts.maxLineBytes, s)
    ensures ClosedOk(opts, disk, closed + [s], lines)
  {
    var more := closed + [s];
    OutputSnoc(opts.maxLineBytes, closed, s);
    forall i | 0 <= i < |more|
      ensures SegmentOk(opts, disk, more[i]) && |more[i].stats| == 2 && more[i].file in disk.retired
    {
      if i < |closed| { assert more[i] == closed[i]; }
    }
  }

  /** Closing a file adds its lines, the flushed partial one last, to the record. */
  lemma DeliverClose(opts: Opts, disk: Disk, closed: seq<Segment>, before: seq<Line>, s: Segment, p: Parse, lines: seq<Line>)
    requires Usable(opts) && ClosedOk(opts, disk, closed, before) && OpenOk(opts, disk, s, p, lines) && |s.stats| == 2
    requires s.file in disk.retired && NotClosed(closed, s.file)
    ensures ClosedOk(opts, disk, closed + [s], before + (lines + Flushed(p)))
  {
    FlushCompletes(opts.maxLineBytes, s, p, lines);
    CloseOneMore(opts, disk, closed, before, s, before + (lines + Flushed(p)));
  }

  lemma DeliverOpen(opts: Opts, disk: Disk, s: Segment)
    requires Usable(opts) && SegmentOk(opts, disk, s) && Located(disk, s.file) && s.bytes == []
    ensures OpenOk(opts, disk, s, FRESH, s.tail)
  {
    assert s.tail + [] == s.tail;
  }

  /** If the writer of a replaced file had stopped before the poll that closed it measured the
      size, every byte from the segment's start on was delivered. */
  lemma NothingLost(opts: Opts, disk: Disk, s: Segment)
    requires Usable(opts) && SegmentOk(opts, disk, s) && |s.stats| == 2
    requires |disk.files[s.file]| == s.stats[1]
    ensures ClosedLines(opts.maxLineBytes, s) == s.tail + AllLines(opts.maxLineBytes, disk.files[s.file][s.start..])
    ensures !s.initial ==> ClosedLines(opts.maxLineBytes, s) == AllLines(opts.maxLineBytes, disk.files[s.file])
  {
    assert s.bytes == disk.files[s.file][s.start..];
    assert !s.initial ==> disk.files[s.file][0..] == disk.files[s.file];
  }

  // ----- Leaving a file -----

  /** The lines drained from a file, its final partial line, and those opened after it. */
  function SwitchLines(max: nat, p: Parse, drained: Bytes, next: seq<Line>): seq<Line> {
    var (q, lines) := Feed(max, p, drained);
    lines + (Flushed(q) + next)
  }

  /** Whether a file ends in the middle of a line; `p` is the parser before its last bytes. */
  predicate Unfinished(p: Parse, drained: Bytes) {
    if drained == [] then p.active else drained[|drained| - 1] != LF
  }

  /** How many lines the rest of a file that is left has, its partial last line included. */
  function EndedLines(p: Parse, drained: Bytes): nat { Newlines(drained) + if Unfinished(p, drained) then 1 else 0 }

  lemma {:induction false} FedActive(max: nat, p: Parse, drained: Bytes)
    ensures Feed(max, p, drained).0.active == Unfinished(p, drained)
  {
    if drained != [] {
      var front, last := drained[..|drained| - 1], drained[|drained| - 1];
      assert drained == front + [last];
      FeedSnoc(max, p, front, last);
    }
  }

  /** The line budget is a budget of each read, not of a poll. A poll that leaves a file exceeds it
      exactly if the newlines left in that file, the partial line at its end and the newlines read
      from the next file are more than the budget together. */
  lemma SwitchExceedsExactly(max: nat, p: Parse, drained: Bytes, started: Bytes, lines: seq<Line>, budget: nat)
    requires lines == SwitchLines(max, p, drained, Feed(max, FRESH, started).1)
    ensures |lines| > budget <==> EndedLines(p, drained) + Newlines(started) > budget
  {
    FeedLineCount(max, p, drained);
    FeedLineCount(max, FRESH, started);
    FedActive(max, p, drained);
  }

  lemma TwoLines(max: nat, p: Parse)
    requires p.active
    ensures |SwitchLines(max, p, [], Feed(max, FRESH, [98, LF]).1)| == 2
  {
    FeedLineCount(max, FRESH, [98, LF]);
    assert [98, LF][..1] == [98];
    assert [98 as byte][..0] == [] && Newlines([98]) == 0;
  }

  lemma PrefixGrows(sample: Bytes, a: Bytes, b: Bytes)
    requires Prefix(sample, a) && Prefix(a, b)
    ensures Prefix(sample, b)
  {
  }

  lemma SliceGrows(a: Bytes, b: Bytes, i: nat, j: nat, k: nat)
    requires Prefix(a, b) && i <= j <= |a| && j <= k <= |b|
    ensures a[i..j] + b[j..k] == b[i..k]
  {
  }
}
