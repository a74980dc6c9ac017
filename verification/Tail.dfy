/** Following one log file through appends and rotation (logstream/source.go). */
module Tail {
  import opened Numbers
  import opened Options
  import opened Lines
  import opened Disk
  import opened History
  import opened Delivery

  // ----- The tailer of one source -----

  datatype Op = OpenOp | StatOp | StatOpenOp | CheckOp | PrefixOp | TailOp | ReadOp

  /** A reported failure: the operation, and the cause the system gave. */
  datatype Failure = Failure(op: Op, cause: nat)

  const SAMPLE_SIZE: nat := 64

  /** What a poll did: it stayed with its file, or read what was `drained` from it, left it at the
      measured `size`, and opened the path again. */
  datatype Step = Stayed | Left(drained: Bytes, size: nat)

  class SourceState {
    const opts: Opts
    const env: Env
    const parser: LineParser
    var file: Option<FileId>
    var position: nat     // of the open handle
    var offset: nat
    var stableEOF: nat
    var prefixSample: Bytes

    // History, kept only to state what was delivered.
    ghost var closed: seq<Segment>
    ghost var closedLines: seq<Line>
    ghost var open: Segment
    ghost var openLines: seq<Line>
    /** The results of all polls. */
    ghost var polled: seq<Response>

    ghost predicate Stable()
      reads this, env, parser
    {
      && env.Ok() && Usable(opts) && parser.max == opts.maxLineBytes
      && (file.Some? ==> file.value in env.disk.files && position == offset)
    }

    /** Enough to read on: the handle stands at the offset, inside the file while calm. */
    ghost predicate Reading()
      reads this, env, parser
    {
      Stable() && file.Some? && (env.calm ==> offset <= |env.disk.files[file.value]|)
    }

    /** What was delivered, and what the state knows of the open file. */
    ghost predicate CoherentOn(disk: Disk)
      requires Usable(opts)
      reads this, parser
    {
      && ClosedOk(opts, disk, closed, closedLines)
      && (file.Some? ==>
            && open.file == file.value && open.End() == offset && |open.stats| == stableEOF
            && OpenOk(opts, disk, open, parser.View(), openLines) && NotClosed(closed, open.file)
            && Prefix(prefixSample, disk.files[file.value]))
    }

    ghost predicate Valid()
      reads this, env, parser
    {
      && Stable() && stableEOF < 2
      && (file.None? ==> openLines == [])
      && (env.calm ==> CoherentOn(env.disk))
    }

    /** Every line the polls returned so far. */
    ghost function Emitted(): seq<Line>
      reads this
    {
      closedLines + openLines
    }

    constructor (env: Env, opts: Opts)
      requires env.Ok() && Usable(opts)
      ensures Valid() && this.env == env && this.opts == opts && fresh(parser)
      ensures file == None && closed == [] && Emitted() == [] && parser.View() == FRESH && polled == []
    {
      this.env, this.opts := env, opts;
      parser := new LineParser(opts.maxLineBytes);
      file, position, offset, stableEOF, prefixSample := None, 0, 0, 0, [];
      closed, closedLines, openLines, polled := [], [], [], [];
      open := Segment(0, false, [], 0, [], []);
    }

    /** Coherence survives whatever others do calmly. */
    lemma StaysCoherent(before: Disk)
      requires Usable(opts) && CoherentOn(before) && Evolves(before, env.disk)
      ensures CoherentOn(env.disk)
    {
      DeliveredEvolves(opts, before, env.disk);
    }

    method PathInfo() returns (info: Option<(FileId, nat)>)
      requires Valid()
      modifies env
      ensures Valid() && env.Kept()
      ensures info == None ==> env.faults > old(env.faults)
      ensures info.Some? ==> env.disk.path == Some(info.value.0) && info.value.1 == |env.disk.files[info.value.0]|
    {
      ghost var before := env.disk;
      info := env.StatPath();
      if env.calm { StaysCoherent(before); }
    }

    method OpenFileSize() returns (size: Option<nat>)
      requires Valid() && file.Some?
      modifies env
      ensures Valid() && env.Kept()
      ensures size == None ==> env.faults > old(env.faults)
      ensures size.Some? ==> size.value == |env.disk.files[file.value]|
    {
      ghost var before := env.disk;
      size := env.StatFile(file.value);
      if env.calm { StaysCoherent(before); }
    }

    /** Reading went on from `from` until a budget was spent or all of the open file that was on
        the disk before had been read. */
    predicate Advanced(lines: nat, from: nat, before: Disk)
      reads this
    {
      && file.Some?
      && (|| lines >= opts.maxLinesPerPoll
          || offset >= from + opts.maxReadBytesPerPoll
          || (file.value in before.files ==> offset >= |before.files[file.value]|))
    }

    // ----- Bounded reading -----

    /** Parse a chunk read at the offset; bytes past the line budget are given back. */
    method ConsumeChunk(chunk: Bytes, lineLimit: nat) returns (consumed: nat, parsed: seq<Line>)
      requires lineLimit > 0 && chunk != [] && position == offset
      modifies this`position, this`offset, parser
      ensures 0 < consumed <= |chunk| && |parsed| <= lineLimit && (consumed < |chunk| ==> |parsed| == lineLimit)
      ensures (parser.View(), parsed) == Feed(parser.max, old(parser.View()), chunk[..consumed])
      ensures position == offset == old(offset) + consumed
    {
      position := position + |chunk|;
      var previousOffset := offset;
      consumed, parsed := parser.Consume(chunk, lineLimit);
      offset := offset + consumed;
      if consumed < |chunk| {
        position := previousOffset + consumed;
      }
    }

    /** One round of the read loop; `data` is what it consumed. */
    method ReadRound(want: nat, lineLimit: nat) returns (consumed: nat, parsed: seq<Line>, err: ReadErr, ghost data: Bytes)
      requires Reading() && want > 0 && lineLimit > 0
      modifies this`position, this`offset, parser, env
      ensures Reading() && env.Kept()
      ensures err == Failed ==> env.faults > old(env.faults)
      ensures |data| == consumed <= want && |parsed| <= lineLimit && (err == NoErr ==> consumed > 0)
      ensures (parser.View(), parsed) == Feed(opts.maxLineBytes, old(parser.View()), data)
      ensures offset == old(offset) + consumed
      ensures env.calm ==> data == env.disk.files[file.value][old(offset)..offset]
      ensures err == Eof && |parsed| < lineLimit ==> offset >= |env.disk.files[file.value]|
    {
      var chunk;
      chunk, err := env.Read(file.value, position, want);
      consumed, parsed, data := 0, [], [];
      if chunk != [] {
        consumed, parsed := ConsumeChunk(chunk, lineLimit);
        data := chunk[..consumed];
        assert consumed == |chunk| ==> data == chunk;
      }
    }

    /** Read what is there, within a byte and a line budget. `taken` is everything consumed. */
    method ReadAvailable(byteLimit: nat, lineLimit: nat) returns (lines: seq<Line>, failed: bool, ghost taken: Bytes)
      requires Reading() && byteLimit > 0 && lineLimit > 0
      modifies this`position, this`offset, parser, env
      ensures Reading() && env.Kept()
      ensures failed ==> env.faults > old(env.faults)
      ensures |taken| <= byteLimit && |lines| <= lineLimit
      ensures offset == position == old(offset) + |taken|
      ensures (parser.View(), lines) == Feed(opts.maxLineBytes, old(parser.View()), taken)
      ensures env.calm ==> taken == env.disk.files[file.value][old(offset)..offset]
      ensures !failed ==>
                || |taken| == byteLimit || |lines| == lineLimit
                || (env.calm ==> offset >= |old(env.disk).files[file.value]|)
    {
      var bufferSize := if opts.readBufferBytes < byteLimit then opts.readBufferBytes else byteLimit;
      lines, failed, taken := [], false, [];
      var remaining := byteLimit;
      var ended := false;
      ghost var before := env.disk;
      while remaining > 0 && |lines| < lineLimit && !ended
        invariant Reading() && env.Kept()
        invariant remaining == byteLimit - |taken| >= 0 && |lines| <= lineLimit
        invariant offset == old(offset) + |taken|
        invariant (parser.View(), lines) == Feed(opts.maxLineBytes, old(parser.View()), taken)
        invariant env.calm ==> taken == env.disk.files[file.value][old(offset)..offset]
        invariant ended && |lines| < lineLimit ==> (env.calm ==> offset >= |before.files[file.value]|)
        decreases remaining, !ended
      {
        var want := if bufferSize < remaining then bufferSize else remaining;
        ghost var earlier, start := env.disk, offset;
        var consumed, parsed, err;
        ghost var data;
        consumed, parsed, err, data := ReadRound(want, lineLimit - |lines|);
        FeedAppend(opts.maxLineBytes, old(parser.View()), taken, data);
        if env.calm {
          SliceGrows(earlier.files[file.value], env.disk.files[file.value], old(offset), start, offset);
        }
        lines, taken := lines + parsed, taken + data;
        remaining := remaining - consumed;
        if err == Failed {
          return lines, true, taken;
        }
        if err == Eof {
          ended := true;
        }
      }
      ghost var last := env.disk;
      var _ := env.StatFile(file.value);
      if env.calm {
        SliceOfPrefix(last.files[file.value], env.disk.files[file.value], old(offset), offset);
      }
    }

    /** ReadAvailable with the poll's budgets, and what it delivered put on record. */
    method ReadMore() returns (lines: seq<Line>, failed: bool, ghost taken: Bytes)
      requires Valid() && file.Some?
      modifies this`position, this`offset, this`open, this`openLines, parser, env
      ensures Valid() && env.Kept()
      ensures failed ==> env.faults > old(env.faults)
      ensures |lines| <= opts.maxLinesPerPoll && openLines == old(openLines) + lines
      ensures open == old(open).(bytes := old(open).bytes + taken) && offset == old(offset) + |taken|
      ensures (parser.View(), lines) == Feed(opts.maxLineBytes, old(parser.View()), taken)
      ensures !failed && env.calm ==> Advanced(|lines|, old(offset), old(env.disk))
    {
      ghost var before, p := env.disk, parser.View();
      lines, failed, taken := ReadAvailable(opts.maxReadBytesPerPoll, opts.maxLinesPerPoll);
      Account(before, p, taken, lines);
    }

    /** Put on record what a read delivered. */
    ghost method Account(before: Disk, p: Parse, taken: Bytes, lines: seq<Line>)
      requires Reading() && stableEOF < 2
      requires (parser.View(), lines) == Feed(opts.maxLineBytes, p, taken)
      requires env.calm ==>
                 && Evolves(before, env.disk) && ClosedOk(opts, before, closed, closedLines)
                 && open.file == file.value && |open.stats| == stableEOF && offset == open.End() + |taken|
                 && NotClosed(closed, open.file)
                 && OpenOk(opts, before, open, p, openLines) && Prefix(prefixSample, before.files[file.value])
                 && taken == env.disk.files[file.value][open.End()..offset]
      modifies this`open, this`openLines
      ensures Valid() && openLines == old(openLines) + lines && open == old(open).(bytes := old(open).bytes + taken)
    {
      ghost var next := open.(bytes := open.bytes + taken);
      if env.calm {
        DeliverMeanwhile(opts, before, env.disk, closed, closedLines, open, p, openLines,
                         taken, parser.View(), lines, prefixSample);
      }
      open, openLines := next, openLines + lines;
      assert env.calm ==> CoherentOn(env.disk);
    }

    // ----- Opening -----

    /** The open file was opened in this way: for its last lines, with nothing read yet, or to be
        read from its start. */
    ghost predicate OpenedAs(initial: bool)
      requires Usable(opts)
      reads this
    {
      file.Some? ==>
        && open.initial == initial
        && (if initial then open.bytes == [] && openLines == open.tail
            else open.start == 0 && open.tail == [] && openLines == Feed(opts.maxLineBytes, FRESH, open.bytes).1)
    }

    /** At least the first 64 bytes the file had before, or all it had, are known. */
    ghost predicate Sampled(before: Disk)
      reads this
    {
      file.Some? && file.value in before.files ==> |prefixSample| >= Min(64, |before.files[file.value]|)
    }

    /** Some file was opened. */
    ghost predicate Begun()
      reads this
    {
      file.Some? || closed != []
    }

    /** The file opened first was opened in this way. */
    ghost predicate FirstAs(initial: bool)
      reads this
    {
      && (closed != [] ==> closed[0].initial == initial)
      && (closed == [] && file.Some? ==> open.initial == initial)
    }

    /** Only the first file followed was opened for its last lines. */
    ghost predicate TailedOnce()
      reads this
    {
      && (forall i :: 0 < i < |closed| ==> !closed[i].initial)
      && (file.Some? && open.initial ==> closed == [])
    }

    /** The first bytes of a freshly opened file of the given size: 64, or all if it has fewer. */
    method CapturePrefix(f: FileId, size: nat) returns (sample: Option<Bytes>)
      requires env.Ok() && f in env.disk.files && (env.calm ==> size <= |env.disk.files[f]|)
      modifies env
      ensures env.Kept()
      ensures sample == None ==> env.faults > old(env.faults)
      ensures f in env.disk.files && (sample.Some? && env.calm ==> Prefix(sample.value, env.disk.files[f]))
      ensures sample.Some? && Min(size, 64) <= |env.disk.files[f]| ==> sample.value == env.disk.files[f][..Min(size, 64)]
    {
      if size == 0 {
        return Some([]);
      }
      var length := if size < SAMPLE_SIZE then size else SAMPLE_SIZE;
      var buffer, count, err := env.ReadAt(f, 0, length);
      if err == Failed {
        return None;
      }
      sample := Some(buffer[..count]);
    }

    /** Whether the file no longer starts with the bytes it was opened with; None is an error. */
    method PrefixChanged() returns (changed: Option<bool>)
      requires Valid() && file.Some?
      modifies env
      ensures Valid() && env.Kept()
      ensures changed == None ==> env.faults > old(env.faults)
      ensures changed.Some? ==> (changed.value <==> !Prefix(prefixSample, env.disk.files[file.value]))
      ensures changed == Some(true) ==> !env.calm
    {
      if |prefixSample| == 0 {
        return Some(false);
      }
      ghost var before := env.disk;
      var buffer, count, err := env.ReadAt(file.value, 0, |prefixSample|);
      if env.calm { StaysCoherent(before); }
      if err == Failed {
        return None;
      }
      changed := Some(count != |prefixSample| || buffer[..count] != prefixSample);
    }

    /** Nothing is open, and what was closed is on record. */
    ghost predicate Between()
      reads this, env, parser
    {
      && env.Ok() && Usable(opts) && parser.max == opts.maxLineBytes && stableEOF < 2
      && (env.calm ==> ClosedOk(opts, env.disk, closed, closedLines))
    }

    /** Take the opened file as the current one, from `start` on. */
    method Adopt(f: FileId, sample: Bytes, start: nat, ghost initial: bool, ghost tail: seq<Line>)
      requires Between() && file.None? && openLines == [] && f in env.disk.files
      requires env.calm ==> Located(env.disk, f) && NotClosed(closed, f)
      requires env.calm ==> Prefix(sample, env.disk.files[f]) && SegmentOk(opts, env.disk, Segment(f, initial, tail, start, [], []))
      modifies this`file, this`offset, this`position, this`prefixSample, this`stableEOF, this`open, this`openLines, parser
      ensures Valid() && file == Some(f) && openLines == tail && offset == start && prefixSample == sample
      ensures open == Segment(f, initial, tail, start, [], []) && parser.View() == FRESH
    {
      parser.Reset();
      file, prefixSample, stableEOF := Some(f), sample, 0;
      offset, position := start, start;
      open, openLines := Segment(f, initial, tail, start, [], []), tail;
      if env.calm {
        DeliverOpen(opts, env.disk, open);
        assert CoherentOn(env.disk);
      }
    }

    /** Open the path: its last lines the first time, everything after a rotation. */
    method OpenPath(initial: bool) returns (lines: seq<Line>, err: Option<Failure>)
      requires Valid() && file.None?
      modifies this, parser, env
      ensures Valid() && env.Kept()
      ensures closed == old(closed) && closedLines == old(closedLines) && openLines == lines
      ensures polled == old(polled) && OpenedAs(initial)
      ensures |lines| <= if initial then opts.tailLines else opts.maxLinesPerPoll
      ensures env.calm ==> Sampled(old(env.disk))
      ensures err == None ==> file.Some? && (env.calm ==> Advanced(|lines|, 0, old(env.disk)))
      ensures err.Some? ==> env.faults > old(env.faults)
    {
      var cause: nat := *;
      ghost var d0 := env.disk;
      var handle := env.Open();
      if env.calm { DeliveredEvolves(opts, d0, env.disk); }
      if handle.None? {
        return [], Some(Failure(OpenOp, cause));
      }
      lines, err := OpenHandle(handle.value, initial, cause);
    }

    /** The size and the first bytes of a file just opened; `data` is what was in it when measured. */
    method Examine(f: FileId, cause: nat) returns (size: nat, sample: Bytes, err: Option<Failure>, ghost data: Bytes)
      requires Between() && file.None? && f in env.disk.files
      requires env.calm ==> Located(env.disk, f) && NotClosed(closed, f)
      modifies env
      ensures Between() && env.Kept() && f in env.disk.files
      ensures err.Some? ==> env.faults > old(env.faults)
      ensures err == None ==> Measured(env, f, data) && |data| == size
      ensures err == None && env.calm ==>
                && Prefix(sample, env.disk.files[f]) && Located(env.disk, f) && NotClosed(closed, f)
                && size >= |old(env.disk).files[f]| && |sample| >= Min(64, |old(env.disk).files[f]|)
    {
      ghost var d1 := env.disk;
      sample, size, data, err := [], 0, [], None;
      var measured := env.StatFile(f);
      if env.calm { DeliveredEvolves(opts, d1, env.disk); }
      if measured.None? {
        err := Some(Failure(StatOp, cause));
        return;
      }
      size, data := measured.value, env.disk.files[f];
      ghost var d2 := env.disk;
      var captured := CapturePrefix(f, size);
      if env.calm { DeliveredEvolves(opts, d2, env.disk); }
      if captured.None? {
        err := Some(Failure(PrefixOp, cause));
        return;
      }
      sample := captured.value;
    }

    /** What follows once the file at the path is open. */
    method OpenHandle(f: FileId, initial: bool, cause: nat) returns (lines: seq<Line>, err: Option<Failure>)
      requires Between() && file.None? && openLines == [] && f in env.disk.files
      requires env.calm ==> Located(env.disk, f) && NotClosed(closed, f)
      modifies this`file, this`offset, this`position, this`prefixSample, this`stableEOF, this`open, this`openLines, parser, env
      ensures Valid() && env.Kept() && openLines == lines && OpenedAs(initial)
      ensures |lines| <= if initial then opts.tailLines else opts.maxLinesPerPoll
      ensures env.calm ==> Sampled(old(env.disk))
      ensures err == None ==> file.Some? && (env.calm ==> Advanced(|lines|, 0, old(env.disk)))
      ensures err.Some? ==> env.faults > old(env.faults)
    {
      var size, sample;
      ghost var data;
      size, sample, err, data := Examine(f, cause);
      if err.Some? {
        return [], err;
      }
      if initial {
        lines, err := AdoptInitial(f, size, sample, cause, data);
        return;
      }
      ghost var examined := env.disk;
      lines, err := AdoptNew(f, sample, cause);
      if env.calm && err == None { AdvancedSince(|lines|, 0, old(env.disk), examined); }
    }

    lemma AdvancedSince(lines: nat, from: nat, earlier: Disk, later: Disk)
      requires Evolves(earlier, later) && Advanced(lines, from, later)
      ensures Advanced(lines, from, earlier)
    {
    }

    /** A later open: everything in the file is new. */
    method AdoptNew(f: FileId, sample: Bytes, cause: nat) returns (lines: seq<Line>, err: Option<Failure>)
      requires Between() && file.None? && openLines == [] && f in env.disk.files
      requires env.calm ==> Prefix(sample, env.disk.files[f]) && Located(env.disk, f) && NotClosed(closed, f)
      modifies this`file, this`offset, this`position, this`prefixSample, this`stableEOF, this`open, this`openLines, parser, env
      ensures Valid() && env.Kept()
      ensures openLines == lines && |lines| <= opts.maxLinesPerPoll && OpenedAs(false) && prefixSample == sample
      ensures file == Some(f) && (err == None && env.calm ==> Advanced(|lines|, 0, old(env.disk)))
      ensures err.Some? ==> env.faults > old(env.faults)
    {
      Adopt(f, sample, 0, false, []);
      var failed;
      ghost var taken;
      lines, failed, taken := ReadMore();
      assert [] + taken == taken && [] + lines == lines;
      err := if failed then Some(Failure(ReadOp, cause)) else None;
    }

    /** The first open: deliver the last lines and follow from the measured size. */
    method AdoptInitial(f: FileId, size: nat, sample: Bytes, cause: nat, ghost data: Bytes)
      returns (lines: seq<Line>, err: Option<Failure>)
      requires Between() && file.None? && openLines == [] && Measured(env, f, data) && |data| == size
      requires env.calm ==> Prefix(sample, env.disk.files[f]) && Located(env.disk, f) && NotClosed(closed, f)
      modifies this`file, this`offset, this`position, this`prefixSample, this`stableEOF, this`open, this`openLines, parser, env
      ensures Valid() && env.Kept()
      ensures openLines == lines && |lines| <= opts.tailLines && OpenedAs(true)
      ensures file.Some? ==> file == Some(f) && prefixSample == sample
      ensures err == None ==> file == Some(f) && offset == size
      ensures err.Some? ==> env.faults > old(env.faults)
    {
      ghost var before := env.disk;
      var tail := SnapshotFile(env, f, size, opts.tailLines, opts, data);
      if env.calm {
        DeliveredEvolves(opts, before, env.disk);
        assert env.disk.files[f][..size] == data;
      }
      if tail.None? {
        return [], Some(Failure(TailOp, cause));
      }
      Adopt(f, sample, size, true, tail.value);
      lines, err := tail.value, None;
    }

    // ----- Polling -----

    /** Leave the replaced file: its final partial line is delivered last. */
    method CloseReplaced(ghost size: nat) returns (lines: seq<Line>)
      requires Stable() && file.Some? && stableEOF < 2
      requires env.calm ==>
                 && ClosedOk(opts, env.disk, closed, closedLines) && open.End() == offset
                 && OpenOk(opts, env.disk, open, parser.View(), openLines) && |open.stats| == 1 && size <= offset
                 && open.file in env.disk.retired && NotClosed(closed, open.file)
      modifies this`file, this`closed, this`closedLines, this`openLines, parser
      ensures Valid() && file.None? && openLines == [] && lines == Flushed(old(parser.View()))
      ensures closedLines == old(closedLines + openLines) + lines
      ensures closed == old(closed) + [old(open).(stats := old(open).stats + [size])]
    {
      ghost var last := open.(stats := open.stats + [size]);
      if env.calm {
        assert SegmentOk(opts, env.disk, last);
        assert OpenOk(opts, env.disk, last, parser.View(), openLines);
        DeliverClose(opts, env.disk, closed, closedLines, last, parser.View(), openLines);
      }
      lines := parser.Flush();
      file := None;
      closedLines := closedLines + (openLines + lines);
      closed, openLines := closed + [last], [];
    }

    /** What a step does to the record, and the lines it may return. A file is left only at the
        second poll, since it last had more to read, that found it replaced and read all of its
        measured size; the lines are then those drained from it, its final partial line, and what
        the next file had from its start. */
    twostate predicate Stepped(step: Step, lines: seq<Line>)
      requires Usable(opts)
      reads this, parser
    {
      match step
      case Stayed =>
        && closed == old(closed) && file == old(file) && |lines| <= opts.maxLinesPerPoll
        && old(open).bytes <= open.bytes && open == old(open).(bytes := open.bytes, stats := open.stats)
        && (old(stableEOF) == 1 && stableEOF == 1 ==> open.stats == old(open).stats)
      case Left(drained, size) =>
        && old(stableEOF) == 1 && size <= old(offset) + |drained|
        && closed == old(closed) + [old(open).(bytes := old(open).bytes + drained, stats := old(open).stats + [size])]
        && lines == SwitchLines(opts.maxLineBytes, old(parser.View()), drained, openLines)
        && |lines| <= 2 * opts.maxLinesPerPoll && OpenedAs(false)
    }

    /** This poll was the first, since the file last had more to read, to find it replaced and
        read to its end. */
    predicate FirstSight(before: nat)
      reads this
    {
      before == 0 && stableEOF == 1
    }

    /** The old file's final partial line, then the start of whatever is at the path now. */
    method SwitchFile(ghost current: nat) returns (lines: seq<Line>, err: Option<Failure>)
      requires Stable() && file.Some? && stableEOF == 0
      requires env.calm ==>
                 && ClosedOk(opts, env.disk, closed, closedLines) && open.file == file.value && open.End() == offset
                 && OpenOk(opts, env.disk, open, parser.View(), openLines) && |open.stats| == 1 && current <= offset
                 && open.file in env.disk.retired && NotClosed(closed, open.file)
      modifies this, parser, env
      ensures Valid() && env.Kept()
      ensures Emitted() == old(Emitted()) + lines && |openLines| <= opts.maxLinesPerPoll
      ensures lines == Flushed(old(parser.View())) + openLines
      ensures polled == old(polled) && OpenedAs(false)
      ensures err.Some? ==> env.faults > old(env.faults)
      ensures err == None ==> file.Some? && (env.calm ==> Advanced(|lines|, 0, old(env.disk)))
      ensures closed == old(closed) + [old(open).(stats := old(open).stats + [current])]
    {
      ghost var emitted := Emitted();
      var flushed := CloseReplaced(current);
      assert closedLines == emitted + flushed;
      var more;
      more, err := OpenPath(false);
      lines := flushed + more;
      assert closedLines + openLines == emitted + lines;
    }

    /** The replaced file is read to its measured size: the second such poll leaves it. */
    method AtItsEnd(current: nat) returns (lines: seq<Line>, err: Option<Failure>)
      requires Valid() && file.Some? && current <= offset && (env.calm ==> file.value in env.disk.retired)
      modifies this, parser, env
      ensures Valid() && env.Kept() && polled == old(polled)
      ensures Emitted() == old(Emitted()) + lines
      ensures err.Some? ==> env.faults > old(env.faults)
      ensures err == None ==> file.Some?
      ensures old(stableEOF) == 0 ==>
                && lines == [] && err == None && closed == old(closed) && file == old(file) && offset == old(offset) && stableEOF == 1
                && open == old(open).(stats := [current])
      ensures old(stableEOF) == 1 ==>
                && closed == old(closed) + [old(open).(stats := old(open).stats + [current])]
                && lines == Flushed(old(parser.View())) + openLines && |openLines| <= opts.maxLinesPerPoll
                && (err == None && env.calm ==> Advanced(|lines|, 0, old(env.disk)))
                && OpenedAs(false)
    {
      if stableEOF == 0 {
        stableEOF := 1;
        open := open.(stats := [current]);
        return [], None;
      }
      stableEOF := 0;
      lines, err := SwitchFile(current);
    }

    /** Read on in the replaced file; whether that leaves it behind its measured size, or might. */
    method DrainReplaced(current: nat) returns (lines: seq<Line>, failed: bool, behind: bool, ghost drained: Bytes)
      requires Valid() && file.Some?
      modifies this`position, this`offset, this`open, this`openLines, this`stableEOF, parser, env
      ensures Valid() && env.Kept()
      ensures failed ==> env.faults > old(env.faults)
      ensures |lines| <= opts.maxLinesPerPoll && openLines == old(openLines) + lines
      ensures (parser.View(), lines) == Feed(opts.maxLineBytes, old(parser.View()), drained)
      ensures open == old(open).(bytes := old(open).bytes + drained, stats := open.stats) && offset == old(offset) + |drained|
      ensures !failed && env.calm ==> Advanced(|lines|, old(offset), old(env.disk))
      ensures !failed ==> (behind <==> |lines| == opts.maxLinesPerPoll || current > offset)
      ensures failed || !behind ==> stableEOF == old(stableEOF) && open.stats == old(open.stats)
      ensures !failed && behind ==> stableEOF == 0
    {
      lines, failed, drained := ReadMore();
      behind := |lines| == opts.maxLinesPerPoll || current > offset;
      if !failed && behind {
        stableEOF := 0;
        open := open.(stats := []);
      }
    }

    /** A poll that found another file at the path; `current` is the open file's size. */
    method PollReplaced(current: nat, cause: nat) returns (lines: seq<Line>, err: Option<Failure>, ghost step: Step)
      requires Valid() && file.Some? && (env.calm ==> current <= |env.disk.files[file.value]| && file.value in env.disk.retired)
      modifies this, parser, env
      ensures Valid() && env.Kept() && Emitted() == old(Emitted()) + lines && polled == old(polled)
      ensures Stepped(step, lines) && (step.Left? ==> step.size == current)
      ensures step == Stayed && FirstSight(old(stableEOF)) ==> current <= offset && open.stats == [current]
      ensures err.Some? ==> env.faults > old(env.faults)
      ensures err == None ==> file.Some?
      ensures err == None && env.calm ==> Advanced(|lines|, if step.Left? then 0 else old(offset), old(env.disk))
      ensures err == None && step == Stayed ==>
                |lines| >= opts.maxLinesPerPoll || current > offset || FirstSight(old(stableEOF))
      ensures !PathMissing(step, err)
    {
      var failed, behind;
      ghost var drained;
      lines, failed, behind, drained := DrainReplaced(current);
      step := if failed || behind || stableEOF == 0 then Stayed else Left(drained, current);
      if failed || behind {
        err := if failed then Some(Failure(ReadOp, cause)) else None;
        return;
      }
      ghost var emitted := Emitted();
      var more;
      more, err := AtItsEnd(current);
      assert emitted + more == old(Emitted()) + (lines + more);
      lines := lines + more;
    }

    /** Whether the file at the path, of the given size, still continues what was read of it: if it is
        shorter, or its first bytes have changed, reading starts over. */
    method CheckSame(pathSize: nat) returns (checked: bool)
      requires Valid() && file.Some? && (env.calm ==> pathSize >= offset)
      modifies this`position, this`offset, parser, env
      ensures Valid() && env.Kept()
      ensures !checked ==> env.faults > old(env.faults)
      ensures checked ==>
                if pathSize < old(offset) || (old(offset) > 0 && !Prefix(prefixSample, env.disk.files[file.value]))
                then offset == 0 && parser.View() == FRESH && !env.calm
                else offset == old(offset) && parser.View() == old(parser.View())
      ensures !checked ==> offset == old(offset) && parser.View() == old(parser.View())
    {
      if pathSize >= offset && offset > 0 {
        var changed := PrefixChanged();
        if changed.None? {
          return false;
        }
        if changed.value {
          Rewind();
        }
      }
      if pathSize < offset {
        Rewind();
      }
      checked := true;
    }

    /** A poll that found the open file still at the path, with the given size. What it reads goes on
        from the offset, or from the start again if the file was rewritten or cut. */
    method PollSame(pathSize: nat, cause: nat) returns (lines: seq<Line>, err: Option<Failure>, ghost again: bool, ghost taken: Bytes)
      requires Valid() && file.Some? && (env.calm ==> pathSize >= offset)
      modifies this, parser, env
      ensures Valid() && env.Kept()
      ensures openLines == old(openLines) + lines && |lines| <= opts.maxLinesPerPoll
      ensures err.Some? ==> env.faults > old(env.faults)
      ensures err == None && env.calm ==> Advanced(|lines|, old(offset), old(env.disk))
      ensures closed == old(closed) && closedLines == old(closedLines) && file == old(file) && polled == old(polled)
      ensures !PathMissing(Stayed, err)
      ensures stableEOF == old(stableEOF) && open == old(open).(bytes := old(open).bytes + taken)
      ensures (parser.View(), lines) == Feed(opts.maxLineBytes, if again then FRESH else old(parser.View()), taken)
      ensures offset == (if again then 0 else old(offset)) + |taken|
      ensures err == None && pathSize < old(offset) ==> again
      ensures again ==> !env.calm
    {
      var checked := CheckSame(pathSize);
      again, taken := false, [];
      if !checked {
        return [], Some(Failure(CheckOp, cause)), again, taken;
      }
      again := offset != old(offset) || parser.View() != old(parser.View());
      var failed;
      lines, failed, taken := ReadMore();
      err := if failed then Some(Failure(ReadOp, cause)) else None;
    }

    /** Start over: only an in-place rewrite or truncation leads here. */
    method Rewind()
      requires Stable() && file.Some? && stableEOF < 2 && !env.calm
      modifies this`offset, this`position, parser
      ensures Valid() && offset == 0 && parser.View() == FRESH
    {
      offset := 0;
      parser.Reset();
      position := 0;
    }

    /** The poll reports that there is nothing at the path. */
    static predicate PathMissing(step: Step, err: Option<Failure>) { step == Stayed && err.Some? && err.value.op == StatOp }

    /** A poll that found nothing at the path: the open file is read on all the same. */
    method PollMissing(cause: nat) returns (lines: seq<Line>, err: Option<Failure>)
      requires Valid() && file.Some?
      modifies this`position, this`offset, this`open, this`openLines, parser, env
      ensures Valid() && env.Kept()
      ensures err == Some(Failure(StatOp, cause)) || (err == Some(Failure(ReadOp, cause)) && env.faults > old(env.faults))
      ensures |lines| <= opts.maxLinesPerPoll && openLines == old(openLines) + lines
      ensures old(open).bytes <= open.bytes && open == old(open).(bytes := open.bytes)
      ensures err.value.op == StatOp && env.calm ==> Advanced(|lines|, old(offset), old(env.disk))
    {
      var failed;
      ghost var taken;
      lines, failed, taken := ReadMore();
      err := Some(Failure(if failed then ReadOp else StatOp, cause));
    }

    /** What is at the path, and then the size of the open file. While calm, a file that is not at
        the path has left it for good. */
    method Measure() returns (info: Option<(FileId, nat)>, current: Option<nat>)
      requires Valid() && file.Some?
      modifies env
      ensures Valid() && env.Kept()
      ensures info == None || current == None ==> env.faults > old(env.faults)
      ensures info.Some? && current.Some? && env.calm ==>
                && |old(env.disk).files[file.value]| <= current.value <= |env.disk.files[file.value]|
                && (if info.value.0 == file.value then info.value.1 >= offset else file.value in env.disk.retired)
                && (file.value in old(env.disk).retired ==> info.value.0 != file.value)
    {
      current := None;
      info := PathInfo();
      if info.Some? {
        current := OpenFileSize();
      }
    }

    /** What was read so far of a file opened after another one. */
    ghost function Started(): Bytes
      reads this
    {
      if file.Some? then open.bytes else []
    }

    /** One poll of a source whose file is open. */
    method PollOpen(cause: nat) returns (lines: seq<Line>, err: Option<Failure>, ghost step: Step)
      requires Valid() && file.Some?
      modifies this, parser, env
      ensures Valid() && env.Kept() && Emitted() == old(Emitted()) + lines && polled == old(polled)
      ensures Stepped(step, lines)
      ensures step == Stayed && FirstSight(old(stableEOF)) && env.calm ==> SeenReplaced(old(env.disk))
      ensures step.Left? && env.calm ==> |old(env.disk).files[old(file).value]| <= step.size
      ensures step.Left? ==>
                (|lines| > opts.maxLinesPerPoll <==>
                 EndedLines(old(parser.View()), step.drained) + Newlines(Started()) > opts.maxLinesPerPoll)
      ensures err.Some? ==> env.faults > old(env.faults)
      ensures err == None ==> file.Some?
      ensures err == None && env.calm ==> Advanced(|lines|, if step.Left? then 0 else old(offset), old(env.disk))
      ensures err == None && env.calm && step == Stayed && old(file).value in old(env.disk).retired ==> Behind(|lines|, old(stableEOF))
      ensures PathMissing(step, err) && env.calm ==> Advanced(|lines|, old(offset), old(env.disk))
    {
      step := Stayed;
      var info, current := Measure();
      if info.None? {
        lines, err := PollMissing(cause);
        return;
      }
      if current.None? {
        return [], Some(Failure(StatOpenOp, cause)), step;
      }
      var (pathFile, pathSize) := info.value;
      if pathFile != file.value {
        ghost var p := parser.View();
        lines, err, step := PollReplaced(current.value, cause);
        if step.Left? {
          SwitchExceedsExactly(opts.maxLineBytes, p, step.drained, Started(), lines, opts.maxLinesPerPoll);
        }
        return;
      }
      ghost var again, taken;
      lines, err, again, taken := PollSame(pathSize, cause);
    }

    /** The open file has left the path and is read up to the size it was measured at, which takes
        in all that was in it before. */
    ghost predicate SeenReplaced(before: Disk)
      reads this, env
    {
      && file.Some? && file.value in env.disk.retired && file.value in before.files && |open.stats| == 1
      && |before.files[file.value]| <= open.stats[0] <= offset
    }

    /** A poll that stayed with a file that has left the path spent its line budget, is behind the
        file's size, or was the first to find the file replaced. */
    predicate Behind(lines: nat, before: nat)
      reads this, env
    {
      || lines >= opts.maxLinesPerPoll
      || (file.Some? && file.value in env.disk.files && offset < |env.disk.files[file.value]|)
      || FirstSight(before)
    }

    /** One poll of the source. */
    method Poll(initial: bool) returns (lines: seq<Line>, err: Option<Failure>, ghost step: Step)
      requires Valid()
      modifies this, parser, env
      ensures Valid() && env.Kept() && Emitted() == old(Emitted()) + lines
      ensures polled == old(polled) + [Response(lines, err)]
      ensures old(file) == None ==> closed == old(closed) && OpenedAs(initial)
      ensures old(file) == None ==> |lines| <= if initial then opts.tailLines else opts.maxLinesPerPoll
      ensures old(file).Some? ==> Stepped(step, lines)
      ensures old(file).Some? && step == Stayed && FirstSight(old(stableEOF)) && env.calm ==> SeenReplaced(old(env.disk))
      ensures old(file).Some? && step.Left? && env.calm ==> |old(env.disk).files[old(file).value]| <= step.size
      ensures old(file).Some? && step.Left? ==>
                (|lines| > opts.maxLinesPerPoll <==>
                 EndedLines(old(parser.View()), step.drained) + Newlines(Started()) > opts.maxLinesPerPoll)
      ensures err.Some? ==> env.faults > old(env.faults)
      ensures err == None ==> file.Some?
      ensures err == None && env.calm ==>
                Advanced(|lines|, if old(file).Some? && step == Stayed then old(offset) else 0, old(env.disk))
      ensures err == None && env.calm && old(file).Some? && step == Stayed && old(file).value in old(env.disk).retired ==>
                Behind(|lines|, old(stableEOF))
      ensures old(file).Some? && PathMissing(step, err) && env.calm ==> Advanced(|lines|, old(offset), old(env.disk))
      ensures if old(Begun()) then Begun() && (old(FirstAs(true)) ==> FirstAs(true)) && (old(FirstAs(false)) ==> FirstAs(false))
              else FirstAs(initial) && (err == None ==> Begun())
      ensures old(TailedOnce()) && (initial ==> old(closed) == []) ==> TailedOnce()
    {
      var cause: nat := *;
      if file.None? {
        step := Stayed;
        lines, err := OpenPath(initial);
      } else {
        lines, err, step := PollOpen(cause);
      }
      polled := polled + [Response(lines, err)];
    }
  }

  const OLD_FILE: FileId := 0
  const NEW_FILE: FileId := 1

  /** The rotated file holds "a", the one now at the path "b" and a newline. */
  const ROTATED: Disk := Disk(map[OLD_FILE := [97], NEW_FILE := [98, LF]], Some(NEW_FILE), {OLD_FILE})

  const ONE_LINE_A_POLL := Opts(0, 16, 16, 16, 1, 0)

  const OLD_SEGMENT := Segment(OLD_FILE, false, [], 0, [97], [1])

  lemma OldSegmentOk(p: Parse, lines: seq<Line>)
    requires (p, lines) == Feed(16, FRESH, [97])
    ensures lines == [] && p.active
    ensures ClosedOk(ONE_LINE_A_POLL, ROTATED, [], []) && OpenOk(ONE_LINE_A_POLL, ROTATED, OLD_SEGMENT, p, [])
  {
    FeedPartial(16, [97]);
    assert ROTATED.files[OLD_FILE][0..1] == [97];
  }

  method FeedOldFile(parser: LineParser) returns (lines: seq<Line>)
    requires parser.View() == FRESH && parser.max == 16
    modifies parser
    ensures (parser.View(), lines) == Feed(16, FRESH, [97])
  {
    var data: Bytes := [97];
    var consumed;
    consumed, lines := parser.Consume(data, 1);
    FeedLineCount(16, FRESH, data[..consumed]);
    assert consumed == 1 && data[..1] == data;
  }

  /** A state in which a poll may exceed the line budget: it is the second to find the file
      replaced and read to its end, the budget is one line, and leaving the file for the next one,
      if that is read to its end, delivers two. */
  method OverBudgetState() returns (state: SourceState)
    ensures fresh(state) && state.env.disk == ROTATED && state.env.calm && state.opts == ONE_LINE_A_POLL
    ensures state.Valid() && state.file == Some(OLD_FILE) && OLD_FILE in ROTATED.retired
    ensures state.stableEOF == 1 && state.offset == |ROTATED.files[OLD_FILE]|
    ensures |SwitchLines(16, state.parser.View(), [], Feed(16, FRESH, ROTATED.files[NEW_FILE]).1)| == 2 > state.opts.maxLinesPerPoll
  {
    var env := new Env(ROTATED);
    state := new SourceState(env, ONE_LINE_A_POLL);
    var lines := FeedOldFile(state.parser);
    OldSegmentOk(state.parser.View(), lines);
    TwoLines(16, state.parser.View());
    state.file, state.stableEOF, state.prefixSample := Some(OLD_FILE), 1, [97];
    state.offset, state.position := 1, 1;
    state.open, state.openLines := OLD_SEGMENT, [];
    assert state.CoherentOn(env.disk);
  }

  // ----- Answering requests -----

  datatype Response = Response(lines: seq<Line>, err: Option<Failure>)

  function LinesIn(responses: seq<Response>, n: nat): seq<Line>
    requires n <= |responses|
  {
    if n == 0 then [] else LinesIn(responses, n - 1) + responses[n - 1].lines
  }

  lemma {:induction false} LinesInPrefix(a: seq<Response>, b: seq<Response>, n: nat)
    requires n <= |a| && n <= |b| && forall i :: 0 <= i < n ==> a[i] == b[i]
    ensures LinesIn(a, n) == LinesIn(b, n)
  {
    if n > 0 { LinesInPrefix(a, b, n - 1); }
  }

  /** A failure equal to the one just before it is not reported again. */
  function Collapsed(polled: seq<Response>, i: nat): Option<Failure>
    requires i < |polled|
  {
    if i > 0 && polled[i - 1].err == polled[i].err then None else polled[i].err
  }

  /** One response a poll: its lines, and its error unless it repeats the one before. */
  ghost predicate Reports(responses: seq<Response>, polled: seq<Response>) {
    && |responses| == |polled|
    && forall i :: 0 <= i < |responses| ==> responses[i] == Response(polled[i].lines, Collapsed(polled, i))
  }

  lemma ReportsMore(responses: seq<Response>, polled: seq<Response>, lines: seq<Line>, err: Option<Failure>, result: Option<Failure>)
    requires Reports(responses, polled)
    requires err == if polled != [] && polled[|polled| - 1].err == result then None else result
    ensures Reports(responses + [Response(lines, err)], polled + [Response(lines, result)])
    ensures LinesIn(responses + [Response(lines, err)], |responses| + 1) == LinesIn(responses, |responses|) + lines
  {
    var more := polled + [Response(lines, result)];
    LinesInPrefix(responses, responses + [Response(lines, err)], |responses|);
    forall i | 0 <= i < |polled|
      ensures Collapsed(more, i) == Collapsed(polled, i)
    {
    }
  }

  function LastError(polled: seq<Response>): Option<Failure> {
    if polled == [] then None else polled[|polled| - 1].err
  }

  /** One request: the poll's lines, and its error unless it repeats the last one. */
  method Answer(state: SourceState, initial: bool, lastErr: Option<Failure>, ghost responses: seq<Response>,
                ghost first: bool)
    returns (response: Response, result: Option<Failure>)
    requires state.Valid() && Reports(responses, state.polled)
    requires state.Emitted() == LinesIn(responses, |responses|)
    requires lastErr == LastError(state.polled)
    requires state.Begun() ==> state.FirstAs(first)
    modifies state, state.parser, state.env
    ensures if old(state.Begun()) then state.Begun() && state.FirstAs(first)
            else state.FirstAs(initial) && (result == None ==> state.Begun())
    ensures state.Valid() && (state.env.calm ==> old(state.env.calm))
    ensures Reports(responses + [response], state.polled) && result == LastError(state.polled)
    ensures state.Emitted() == LinesIn(responses + [response], |responses| + 1)
    ensures old(state.TailedOnce()) && (initial ==> old(state.closed) == []) ==> state.TailedOnce()
  {
    var lines;
    ghost var step;
    ghost var polled := state.polled;
    lines, result, step := state.Poll(initial);
    response := Response(lines, if result.Some? && result == lastErr then None else result);
    ReportsMore(responses, polled, response.lines, response.err, result);
  }

  /** Only the first request asks for the last lines, as the first round of a stream does. */
  predicate FirstAlone(requests: seq<bool>) { forall i :: 0 < i < |requests| ==> !requests[i] }

  /** The goroutine of one source: a poll a request, repeated failures reported once. */
  method RunSource(env: Env, opts: Opts, requests: seq<bool>) returns (responses: seq<Response>, state: SourceState)
    requires env.Ok() && Usable(opts)
    modifies env
    ensures fresh(state) && state.env == env && state.opts == opts && state.Valid() && (env.calm ==> old(env.calm))
    ensures |responses| == |requests| && Reports(responses, state.polled)
    ensures state.Emitted() == LinesIn(responses, |responses|)
    ensures FirstAlone(requests) ==> state.TailedOnce()
    ensures requests != [] && state.polled[0].err == None ==> state.Begun() && state.FirstAs(requests[0])
  {
    state := new SourceState(env, opts);
    responses := [];
    var lastErr: Option<Failure> := None;
    ghost var first := false;
    for i := 0 to |requests|
      invariant fresh(state) && fresh(state.parser) && state.env == env && state.opts == opts
      invariant state.Valid() && (env.calm ==> old(env.calm))
      invariant |responses| == i && Reports(responses, state.polled)
      invariant state.Emitted() == LinesIn(responses, i)
      invariant lastErr == LastError(state.polled)
      invariant i == 0 ==> state.closed == []
      invariant FirstAlone(requests) ==> state.TailedOnce()
      invariant i > 0 && state.polled[0].err == None ==> state.Begun() && state.FirstAs(requests[0])
      invariant i == 0 ==> !state.Begun()
      invariant state.Begun() ==> state.FirstAs(first)
    {
      ghost var begun := state.Begun();
      var response, result := Answer(state, requests[i], lastErr, responses, first);
      first := if begun then first else requests[i];
      lastErr := result;
      responses := responses + [response];
    }
  }

  /** Following a path from the start: as long as others only appended, renamed and created, all
      lines delivered are the last lines of the first file and the parse of everything read of it
      since, and of every later file from its start, in order. */
  method Follow(env: Env, opts: Opts, requests: seq<bool>) returns (responses: seq<Response>, state: SourceState)
    requires env.Ok() && Usable(opts) && FirstAlone(requests)
    modifies env
    ensures |responses| == |requests| && Reports(responses, state.polled) && state.TailedOnce()
    ensures env.calm ==>
              var delivered := LinesIn(responses, |responses|);
              if state.file.None? then ClosedOk(opts, env.disk, state.closed, delivered)
              else && ClosedOk(opts, env.disk, state.closed, state.closedLines)
                   && OpenOk(opts, env.disk, state.open, state.parser.View(), state.openLines)
                   && NotClosed(state.closed, state.open.file)
                   && delivered == state.closedLines + state.openLines
  {
    responses, state := RunSource(env, opts, requests);
    assert state.file.None? ==> state.closedLines + [] == state.closedLines;
  }
}
