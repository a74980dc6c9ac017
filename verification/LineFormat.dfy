/** How a line looks when it is delivered or framed, byte for byte (logstream/parser.go,
    logcodec/logcodec.go). */
module LineFormat {
  import opened Lines
  import opened Framing

  /** The text is what was read, without its last byte exactly if that is a carriage return. */
  predicate ShownAs(read: Bytes, text: Bytes) {
    if read != [] && read[|read| - 1] == 13 then text + [13] == read else text == read
  }

  /** The line for some content: its first `max` bytes, a final carriage return of these left out, and
      marked as truncated exactly if there are more. */
  predicate Delivers(max: nat, content: Bytes, terminated: bool, line: Line) {
    && ShownAs(if |content| > max then content[..max] else content, line.text)
    && (line.truncated <==> |content| > max) && (line.terminated <==> terminated)
  }

  lemma LineIsDelivered(max: nat, content: Bytes, terminated: bool)
    ensures Delivers(max, content, terminated, LineOf(max, content, terminated))
  {
  }

  /** However data splits at its newlines, every content is delivered as one line, in order, and so is
      the unterminated rest unless it is empty. */
  lemma ContentsDelivered(max: nat, data: Bytes, contents: seq<Bytes>, rest: Bytes)
    requires Splits(data, contents, rest)
    ensures var lines := AllLines(max, data);
            && |lines| == |contents| + (if rest == [] then 0 else 1)
            && (forall i :: 0 <= i < |contents| ==> Delivers(max, contents[i], true, lines[i]))
            && (rest != [] ==> Delivers(max, rest, false, lines[|contents|]))
  {
    AllLinesSplits(max, data, contents, rest);
    LineIsDelivered(max, rest, false);
    var lines := AllLines(max, data);
    forall i | 0 <= i < |contents|
      ensures Delivers(max, contents[i], true, lines[i])
    {
      LineIsDelivered(max, contents[i], true);
    }
  }

  lemma OneContent(content: Bytes)
    requires 10 !in content
    ensures Splits(content + [13, 10], [content + [13]], [])
  {
    var read := content + [13];
    assert [read][..0] == [] && [] + read == read && read + [10] == content + [13, 10];
    assert Joined([read]) == content + [13, 10];
  }

  /** A line that ends in a carriage return and a newline is delivered without either. */
  lemma CrlfLine(max: nat, content: Bytes)
    requires 10 !in content && |content| < max
    ensures AllLines(max, content + [13, 10]) == [Line(content, false, true)]
  {
    OneContent(content);
    ContentsDelivered(max, content + [13, 10], [content + [13]], []);
    var line := AllLines(max, content + [13, 10])[0];
    assert Delivers(max, [content + [13]][0], true, line);
    assert line.text == (line.text + [13])[..|content|] == content;
  }

  /** Every content is framed as one line, only a final carriage return left out, and so is the
      unterminated rest unless it is empty. */
  lemma ContentsFramed(data: Bytes, contents: seq<Bytes>, rest: Bytes)
    requires Splits(data, contents, rest)
    ensures var frames := Frames(data);
            && |frames| == |contents| + (if rest == [] then 0 else 1)
            && (forall i :: 0 <= i < |contents| ==> ShownAs(contents[i], frames[i]))
            && (rest != [] ==> ShownAs(rest, frames[|contents|]))
  {
    FrameSplits(data, contents, rest);
  }

  /** A line that ends in a carriage return and a newline is framed without either. */
  lemma CrlfFrame(content: Bytes)
    requires 10 !in content
    ensures Frames(content + [13, 10]) == [content]
  {
    OneContent(content);
    ContentsFramed(content + [13, 10], [content + [13]], []);
    var text := Frames(content + [13, 10])[0];
    assert ShownAs([content + [13]][0], text);
    assert text == (text + [13])[..|content|] == content;
  }
}
