/** The framing of a followed byte stream into log lines (logcodec.Adapter). */
module Framing {
  import opened Lines

  // ----- The one way to frame a byte sequence -----

  /** The lines completed by the first n bytes after a pending part, and the new pending part. */
  function FrameTo(pending: Bytes, data: Bytes, n: nat): (seq<Bytes>, Bytes)
    requires n <= |data|
  {
    if n == 0 then ([], pending)
    else
      var (lines, rest) := FrameTo(pending, data, n - 1);
      if data[n - 1] == LF then (lines + [DropCR(rest)], []) else (lines, rest + [data[n - 1]])
  }

  function Frame(pending: Bytes, data: Bytes): (seq<Bytes>, Bytes) { FrameTo(pending, data, |data|) }

  function FinalLine(rest: Bytes): seq<Bytes> { if rest == [] then [] else [DropCR(rest)] }

  /** Every framed line of the data, an unterminated last one included. */
  function Frames(data: Bytes): seq<Bytes> {
    var (lines, rest) := Frame([], data);
    lines + FinalLine(rest)
  }

  function Concat(chunks: seq<Bytes>, n: nat): Bytes
    requires n <= |chunks|
  {
    if n == 0 then [] else Concat(chunks, n - 1) + chunks[n - 1]
  }

  // ----- Framing in pieces -----

  lemma {:induction false} FrameToPrefix(pending: Bytes, a: Bytes, b: Bytes, n: nat)
    requires n <= |a| && n <= |b| && forall i :: 0 <= i < n ==> a[i] == b[i]
    ensures FrameTo(pending, a, n) == FrameTo(pending, b, n)
  {
    if n > 0 { FrameToPrefix(pending, a, b, n - 1); }
  }

  lemma {:induction false} FrameToAppend(pending: Bytes, a: Bytes, b: Bytes, n: nat)
    requires n <= |b|
    ensures var (first, rest) := Frame(pending, a);
            var (second, end) := FrameTo(rest, b, n);
            FrameTo(pending, a + b, |a| + n) == (first + second, end)
  {
    if n == 0 {
      FrameToPrefix(pending, a, a + b, |a|);
      assert Frame(pending, a).0 + [] == Frame(pending, a).0;
    } else {
      FrameToAppend(pending, a, b, n - 1);
      assert (a + b)[|a| + n - 1] == b[n - 1];
      var (first, rest) := Frame(pending, a);
      var (second, end) := FrameTo(rest, b, n - 1);
      assert first + (second + [DropCR(end)]) == (first + second) + [DropCR(end)];
    }
  }

  /** Framing a concatenation is framing its parts one after the other. */
  lemma FrameAppend(pending: Bytes, a: Bytes, b: Bytes)
    ensures var (first, rest) := Frame(pending, a);
            var (second, end) := Frame(rest, b);
            Frame(pending, a + b) == (first + second, end)
  {
    FrameToAppend(pending, a, b, |b|);
  }

  lemma {:induction false} FrameOneLine(pending: Bytes, data: Bytes, n: nat)
    requires n <= |data| && LF !in data[..n]
    ensures FrameTo(pending, data, n) == ([], pending + data[..n])
  {
    if n == 0 {
      assert pending + data[..0] == pending;
    } else {
      assert data[..n] == data[..n - 1] + [data[n - 1]];
      assert data[n - 1] in data[..n];
      FrameOneLine(pending, data, n - 1);
      assert pending + data[..n] == (pending + data[..n - 1]) + [data[n - 1]];
    }
  }

  /** Framing up to the first newline completes one line. */
  lemma FrameFirstLine(pending: Bytes, data: Bytes, i: nat)
    requires i < |data| && data[i] == LF && LF !in data[..i]
    ensures Frame(pending, data[..i + 1]) == ([DropCR(pending + data[..i])], [])
  {
    var whole := data[..i + 1];
    assert whole[..i] == data[..i];
    FrameOneLine(pending, whole, i);
    assert whole[|whole| - 1] == LF;
    var none: seq<Bytes> := [];
    assert none + [DropCR(pending + data[..i])] == [DropCR(pending + data[..i])];
  }

  // ----- Agreement with the exact line format and with the bounded parser -----

  function Texts(contents: seq<Bytes>): seq<Bytes> {
    seq(|contents|, i requires 0 <= i < |contents| => DropCR(contents[i]))
  }

  /** However data splits into lines, those are the framed lines, each without its final CR. */
  lemma {:induction false} FrameSplits(data: Bytes, contents: seq<Bytes>, rest: Bytes)
    requires Splits(data, contents, rest)
    ensures Frame([], data) == (Texts(contents), rest)
    decreases |contents|
  {
    if contents == [] {
      assert data == rest && data[..|data|] == data && [] + data == data;
      FrameOneLine([], data, |data|);
    } else {
      var n := |contents| - 1;
      var head := Joined(contents[..n]) + contents[n];
      FrameSplits(head, contents[..n], contents[n]);
      FrameToPrefix([], head, head + [LF], |head|);
      assert Texts(contents) == Texts(contents[..n]) + [DropCR(contents[n])];
      assert Frame([], head + [LF]) == (Texts(contents), []);
      assert data == (head + [LF]) + rest;
      FrameAppend([], head + [LF], rest);
      assert rest[..|rest|] == rest && [] + rest == rest;
      FrameOneLine([], rest, |rest|);
      assert Texts(contents) + [] == Texts(contents);
    }
  }

  function LineTexts(lines: seq<Line>): seq<Bytes> {
    seq(|lines|, i requires 0 <= i < |lines| => lines[i].text)
  }

  /** A parser that clips nothing, then flushed, reads the very lines that framing yields. */
  lemma FramesAgreeWithParser(max: nat, data: Bytes)
    requires |data| <= max
    ensures LineTexts(AllLines(max, data)) == Frames(data)
    ensures forall i :: 0 <= i < |AllLines(max, data)| ==> !AllLines(max, data)[i].truncated
  {
    var contents, rest := SplitExists(data);
    AllLinesSplits(max, data, contents, rest);
    FrameSplits(data, contents, rest);
    assert Clip(max, rest) == rest;
    forall i | 0 <= i < |contents|
      ensures |contents[i]| <= |data| && LineOf(max, contents[i], true) == Line(DropCR(contents[i]), false, true)
    {
      JoinedLonger(contents, i);
      assert Clip(max, contents[i]) == contents[i];
    }
  }

  lemma {:induction false} JoinedLonger(contents: seq<Bytes>, i: nat)
    requires i < |contents|
    ensures |contents[i]| < |Joined(contents)|
  {
    if i < |contents| - 1 { JoinedLonger(contents[..|contents| - 1], i); }
  }

  // ----- The adapter -----

  datatype Error = NoError | Closed | WriteFailed | ReadFailed

  /** Every attempt from `from` to `to` succeeds. */
  ghost predicate AllWork(works: nat -> bool, from: nat, to: nat) {
    forall k: nat :: from <= k < to ==> works(k)
  }

  /** The sink: whether its k-th write succeeds is not the adapter's choice. */
  class Adapter {
    const works: nat -> bool
    var attempts: nat
    var out: seq<Bytes>
    var pending: Bytes
    var closed: bool
    var err: Error

    constructor (works: nat -> bool)
      ensures this.works == works && attempts == 0 && out == [] && pending == [] && !closed && err == NoError
    {
      this.works := works;
      attempts, out, pending, closed, err := 0, [], [], false, NoError;
    }

    method EmitLine(line: Bytes) returns (e: Error)
      modifies this`attempts, this`out
      ensures attempts == old(attempts) + 1
      ensures e == if works(old(attempts)) then NoError else WriteFailed
      ensures out == if e == NoError then old(out) + [line] else old(out)
    {
      attempts := attempts + 1;
      if works(attempts - 1) {
        out := out + [line];
        e := NoError;
      } else {
        e := WriteFailed;
      }
    }

    /** Writes consume all of p while the sink works; the first write the sink refuses ends the
        call just after that line's newline. */
    method Write(p: Bytes) returns (n: nat, e: Error)
      modifies this
      ensures closed == old(closed)
      ensures old(closed) ==> n == 0 && e == Closed
      ensures !old(closed) && old(err) != NoError ==> n == 0 && e == old(err)
      ensures old(closed) || old(err) != NoError ==>
                attempts == old(attempts) && out == old(out) && pending == old(pending) && err == old(err)
      ensures !old(closed) && old(err) == NoError ==> e == err && n <= |p|
      ensures !old(closed) && old(err) == NoError ==>
                Wrote(works, old(attempts), old(out), old(pending), p[..n], attempts, out, pending, e)
      ensures !old(closed) && old(err) == NoError && e == NoError ==> n == |p|
    {
      if closed {
        return 0, Closed;
      }
      if err != NoError {
        return 0, err;
      }
      n := 0;
      while n < |p|
        invariant n <= |p| && !closed && err == NoError
        invariant Wrote(works, old(attempts), old(out), old(pending), p[..n], attempts, out, pending, NoError)
        decreases |p| - n
      {
        var i := IndexOfNewline(p[n..]);
        label Before:
        if i == |p[n..]| {
          pending := pending + p[n..];
          WroteTail(works, old(attempts), old(out), old(pending), p, n, attempts, out, old@Before(pending));
          return |p|, NoError;
        }
        TakeLine(p[n..][..i]);
        WroteLine(works, old(attempts), old(out), old(pending), p, n, i, old@Before(attempts), old@Before(out), old@Before(pending));
        n := n + i + 1;
        if err != NoError {
          return n, err;
        }
      }
      e := NoError;
    }

    /** The end of a line, without its newline: the line is emitted, or stays pending. */
    method TakeLine(part: Bytes)
      requires err == NoError
      modifies this`attempts, this`out, this`pending, this`err
      ensures attempts == old(attempts) + 1
      ensures works(old(attempts)) ==> err == NoError && out == old(out) + [DropCR(old(pending) + part)] && pending == []
      ensures !works(old(attempts)) ==> err == WriteFailed && out == old(out) && pending == old(pending) + part
    {
      pending := pending + part;
      err := EmitLine(DropCR(pending));
      if err == NoError {
        pending := [];
      }
    }

    /** An unterminated line is emitted; an empty buffer emits nothing. */
    method Flush() returns (e: Error)
      modifies this
      ensures closed == old(closed) && e == err
      ensures old(err) != NoError || old(pending) == [] ==>
                err == old(err) && out == old(out) && pending == old(pending) && attempts == old(attempts)
      ensures old(err) == NoError && old(pending) != [] ==>
                && attempts == old(attempts) + 1
                && err == (if works(old(attempts)) then NoError else WriteFailed)
                && out == old(out) + (if err == NoError then FinalLine(old(pending)) else [])
                && pending == (if err == NoError then [] else old(pending))
    {
      if err != NoError {
        return err;
      }
      if |pending| == 0 {
        return NoError;
      }
      e := EmitLine(DropCR(pending));
      if e != NoError {
        err := e;
        return;
      }
      pending := [];
    }

    method Close() returns (e: Error)
      modifies this
      ensures closed && e == err
      ensures old(closed) || old(err) != NoError ==> err == old(err) && out == old(out)
      ensures !old(closed) && old(err) == NoError ==>
                && pending == []
                && err == (if old(pending) == [] || works(old(attempts)) then NoError else WriteFailed)
                && out == old(out) + (if err == NoError then FinalLine(old(pending)) else [])
    {
      if closed {
        return err;
      }
      closed := true;
      if err == NoError && |pending| > 0 {
        err := EmitLine(DropCR(pending));
        pending := [];
      }
      e := err;
    }
  }

  method IndexOfNewline(p: Bytes) returns (i: nat)
    ensures i <= |p| && LF !in p[..i] && (i < |p| ==> p[i] == LF)
  {
    i := 0;
    while i < |p| && p[i] != LF
      invariant i <= |p| && LF !in p[..i]
    {
      assert p[..i + 1] == p[..i] + [p[i]];
      i := i + 1;
    }
  }

  /** What writing `data` does: its framed lines reach the sink one attempt each, all of them
      if none fails; otherwise the last one failed and stays pending. */
  ghost predicate Wrote(works: nat -> bool, attempts0: nat, out0: seq<Bytes>, pending0: Bytes, data: Bytes,
                        attempts: nat, out: seq<Bytes>, pending: Bytes, e: Error)
  {
    var (lines, rest) := Frame(pending0, data);
    if e == NoError then
      attempts == attempts0 + |lines| && AllWork(works, attempts0, attempts) && out == out0 + lines && pending == rest
    else
      && e == WriteFailed && lines != [] && attempts == attempts0 + |lines|
      && AllWork(works, attempts0, attempts - 1) && !works(attempts - 1)
      && out == out0 + lines[..|lines| - 1] && rest == [] && DropCR(pending) == lines[|lines| - 1]
  }

  lemma WroteTail(works: nat -> bool, attempts0: nat, out0: seq<Bytes>, pending0: Bytes, p: Bytes, n: nat,
                  attempts: nat, out: seq<Bytes>, pending: Bytes)
    requires n <= |p| && Wrote(works, attempts0, out0, pending0, p[..n], attempts, out, pending, NoError)
    requires LF !in p[n..]
    ensures Wrote(works, attempts0, out0, pending0, p[..|p|], attempts, out, pending + p[n..], NoError)
  {
    assert p[n..][..|p[n..]|] == p[n..];
    FrameOneLine(pending, p[n..], |p[n..]|);
    FrameAppend(pending0, p[..n], p[n..]);
    assert p[..|p|] == p[..n] + p[n..];
  }

  lemma WroteLine(works: nat -> bool, attempts0: nat, out0: seq<Bytes>, pending0: Bytes, p: Bytes, n: nat, i: nat,
                  attempts: nat, out: seq<Bytes>, pending: Bytes)
    requires n + i < |p| && Wrote(works, attempts0, out0, pending0, p[..n], attempts, out, pending, NoError)
    requires LF !in p[n..][..i] && p[n + i] == LF
    ensures var line := pending + p[n..][..i];
            && (works(attempts) ==>
                  Wrote(works, attempts0, out0, pending0, p[..n + i + 1], attempts + 1, out + [DropCR(line)], [], NoError))
            && (!works(attempts) ==>
                  Wrote(works, attempts0, out0, pending0, p[..n + i + 1], attempts + 1, out, line, WriteFailed))
  {
    var rest := p[n..];
    FrameFirstLine(pending, rest, i);
    FrameAppend(pending0, p[..n], rest[..i + 1]);
    assert p[..n + i + 1] == p[..n] + rest[..i + 1];
  }

  // ----- Any number of writes, then Close -----

  /** The sink refused line k, and got those before it. */
  ghost predicate CutShort(works: nat -> bool, all: seq<Bytes>, k: nat, out: seq<Bytes>) {
    k < |all| && !works(k) && AllWork(works, 0, k) && out == all[..k]
  }

  /** Convert: whatever chunks the reader returns, the lines that reach the sink are those of the
      whole stream. If the sink fails, they are the ones before the line it refused; if the reader
      fails after the chunks, the adapter is not closed and they are the completed ones. */
  method Convert(works: nat -> bool, chunks: seq<Bytes>, readFails: bool) returns (out: seq<Bytes>, e: Error)
    ensures e in {NoError, WriteFailed, ReadFailed}
    ensures e == NoError ==> !readFails && out == Frames(Concat(chunks, |chunks|))
    ensures e == ReadFailed ==> readFails && out == Frame([], Concat(chunks, |chunks|)).0
    ensures AllWork(works, 0, |Frames(Concat(chunks, |chunks|))|) ==> e == if readFails then ReadFailed else NoError
    ensures e == WriteFailed ==> exists k: nat :: CutShort(works, Frames(Concat(chunks, |chunks|)), k, out)
  {
    var adapter := new Adapter(works);
    assert Wrote(works, 0, [], [], [], 0, [], [], NoError);
    for i := 0 to |chunks|
      invariant adapter.works == works && !adapter.closed && adapter.err == NoError && fresh(adapter)
      invariant Wrote(works, 0, [], [], Concat(chunks, i), adapter.attempts, adapter.out, adapter.pending, NoError)
    {
      label Before:
      var n;
      n, e := adapter.Write(chunks[i]);
      WroteMore(works, Concat(chunks, i), chunks[i][..n],
                old@Before(adapter.attempts), old@Before(adapter.out), old@Before(adapter.pending),
                adapter.attempts, adapter.out, adapter.pending, e);
      if e != NoError {
        ConcatSplit(chunks, i, n);
        RefusedLine(works, Concat(chunks, i) + chunks[i][..n], chunks[i][n..] + Rest(chunks, i + 1),
                    adapter.attempts, adapter.out, adapter.pending, e);
        return adapter.out, e;
      }
      assert chunks[i][..n] == chunks[i];
    }
    if readFails {
      return adapter.out, ReadFailed;
    }
    var before := adapter.out;
    e := adapter.Close();
    out := adapter.out;
    ghost var data := Concat(chunks, |chunks|);
    if e != NoError {
      assert CutShort(works, Frames(data), |before|, out);
    }
  }

  ghost function Rest(chunks: seq<Bytes>, i: nat): Bytes
    requires i <= |chunks|
    decreases |chunks| - i
  {
    if i == |chunks| then [] else chunks[i] + Rest(chunks, i + 1)
  }

  lemma {:induction false} ConcatRest(chunks: seq<Bytes>, i: nat)
    requires i <= |chunks|
    ensures Concat(chunks, |chunks|) == Concat(chunks, i) + Rest(chunks, i)
    decreases |chunks| - i
  {
    if i < |chunks| { ConcatRest(chunks, i + 1); }
  }

  lemma ConcatSplit(chunks: seq<Bytes>, i: nat, n: nat)
    requires i < |chunks| && n <= |chunks[i]|
    ensures Concat(chunks, |chunks|) == Concat(chunks, i) + chunks[i][..n] + (chunks[i][n..] + Rest(chunks, i + 1))
  {
    ConcatRest(chunks, i);
    assert chunks[i] == chunks[i][..n] + chunks[i][n..];
  }

  lemma WroteMore(works: nat -> bool, a: Bytes, b: Bytes, attempts0: nat, out0: seq<Bytes>, pending0: Bytes,
                  attempts: nat, out: seq<Bytes>, pending: Bytes, e: Error)
    requires Wrote(works, 0, [], [], a, attempts0, out0, pending0, NoError)
    requires Wrote(works, attempts0, out0, pending0, b, attempts, out, pending, e)
    ensures Wrote(works, 0, [], [], a + b, attempts, out, pending, e)
  {
    FrameAppend([], a, b);
  }

  lemma RefusedLine(works: nat -> bool, done: Bytes, rest: Bytes, attempts: nat, out: seq<Bytes>, pending: Bytes, e: Error)
    requires Wrote(works, 0, [], [], done, attempts, out, pending, e) && e != NoError
    ensures attempts > 0 && CutShort(works, Frames(done + rest), attempts - 1, out)
  {
    FrameAppend([], done, rest);
  }
}
