/** Newline framing of a character stream that arrives in arbitrary chunks: append the chunk
    to the buffer, split at newlines, keep the last piece.  The MCP stdio client and the
    gateway's stream reader both work this way. */
module LineFraming {

  /** `s.split("\n")`: always at least one piece. */
  function Split(s: string): (parts: seq<string>)
    ensures |parts| >= 1
  {
    if s == [] then [""]
    else
      var rest := Split(s[1..]);
      if s[0] == '\n' then [""] + rest else [[s[0]] + rest[0]] + rest[1..]
  }

  function Join(parts: seq<string>): string
    requires |parts| >= 1
  {
    if |parts| == 1 then parts[0] else parts[0] + "\n" + Join(parts[1..])
  }

  ghost predicate Unbroken(s: string) {
    '\n' !in s
  }

  ghost predicate AllUnbroken(parts: seq<string>) {
    forall i :: 0 <= i < |parts| ==> Unbroken(parts[i])
  }

  // ----- What splitting means ---------------------------------------------------------------

  lemma {:induction false} SplitThenJoin(s: string)
    ensures AllUnbroken(Split(s)) && Join(Split(s)) == s
  {
    if s != [] {
      SplitThenJoin(s[1..]);
      var rest := Split(s[1..]);
      assert s == [s[0]] + s[1..];
      if s[0] == '\n' {
        JoinLineBreak(rest);
      } else {
        JoinLonger(s[0], rest);
      }
    }
  }

  lemma JoinLineBreak(rest: seq<string>)
    requires |rest| >= 1 && AllUnbroken(rest)
    ensures AllUnbroken([""] + rest) && Join([""] + rest) == "\n" + Join(rest)
  {
    var parts := [""] + rest;
    assert forall i :: 0 < i < |parts| ==> parts[i] == rest[i - 1];
    assert parts[1..] == rest;
  }

  lemma JoinLonger(c: char, rest: seq<string>)
    requires |rest| >= 1 && AllUnbroken(rest) && c != '\n'
    ensures var parts := [[c] + rest[0]] + rest[1..];
      AllUnbroken(parts) && Join(parts) == [c] + Join(rest)
  {
    var parts := [[c] + rest[0]] + rest[1..];
    assert Unbroken(rest[0]);
    assert forall i :: 0 < i < |parts| ==> parts[i] == rest[i];
    assert parts[1..] == rest[1..];
    if |rest| > 1 {
      JoinFirst(parts);
      JoinFirst(rest);
      hide Join;
      Regroup([c], rest[0], "\n", Join(rest[1..]));
    }
  }

  lemma JoinFirst(parts: seq<string>)
    requires |parts| > 1
    ensures Join(parts) == parts[0] + "\n" + Join(parts[1..])
  {
  }

  lemma Regroup(a: string, b: string, c: string, d: string)
    ensures (a + b) + c + d == a + (b + c + d)
  {
  }

  /** Splitting is the only way to write a string as newline-separated unbroken pieces. */
  lemma {:induction false} JoinThenSplit(parts: seq<string>)
    requires |parts| >= 1 && AllUnbroken(parts)
    ensures Split(Join(parts)) == parts
    decreases |parts|, |parts[0]|
  {
    var s := Join(parts);
    if parts[0] != "" {
      var shorter := parts[0 := parts[0][1..]];
      assert Unbroken(parts[0]);
      JoinThenSplit(shorter);
      if |parts| > 1 {
        assert shorter[1..] == parts[1..];
        var tail := Join(parts[1..]);
        assert s == parts[0] + "\n" + tail;
        assert parts[0] == [parts[0][0]] + parts[0][1..];
        assert s == [parts[0][0]] + (parts[0][1..] + "\n" + tail);
      }
      assert s[1..] == Join(shorter) && s[0] == parts[0][0];
      assert s[0] in parts[0];
      assert [s[0]] + shorter[0] == parts[0];
      assert [[s[0]] + shorter[0]] + shorter[1..] == parts;
    } else if |parts| > 1 {
      JoinThenSplit(parts[1..]);
      assert s == ['\n'] + Join(parts[1..]);
      assert s[1..] == Join(parts[1..]);
      assert parts == [""] + parts[1..];
    }
  }

  // ----- Chunks ----------------------------------------------------------------------------

  /** The lines a chunk completes, and what stays in the buffer. */
  datatype Framed = Framed(lines: seq<string>, rest: string)

  function Feed(buffer: string, chunk: string): Framed {
    var parts := Split(buffer + chunk);
    Framed(parts[..|parts| - 1], parts[|parts| - 1])
  }

  function FeedAll(buffer: string, chunks: seq<string>): Framed
    decreases |chunks|
  {
    if chunks == [] then Framed([], buffer)
    else
      var first := Feed(buffer, chunks[0]);
      var others := FeedAll(first.rest, chunks[1..]);
      Framed(first.lines + others.lines, others.rest)
  }

  function Concat(chunks: seq<string>): string {
    if chunks == [] then "" else chunks[0] + Concat(chunks[1..])
  }

  lemma SplitHead(c: char, s: string)
    ensures var rest := Split(s);
      Split([c] + s) == if c == '\n' then [""] + rest else [[c] + rest[0]] + rest[1..]
  {
    assert ([c] + s)[1..] == s;
  }

  lemma {:induction false} SplitConcat(a: string, b: string)
    ensures var p := Split(a);
      Split(a + b) == p[..|p| - 1] + Split(p[|p| - 1] + b)
  {
    if a == [] {
      assert a + b == b && Split(a)[0] + b == b;
    } else {
      SplitConcat(a[1..], b);
      assert a + b == [a[0]] + (a[1..] + b) && a == [a[0]] + a[1..];
      SplitHead(a[0], a[1..] + b);
      SplitHead(a[0], a[1..]);
      hide Split;
      var q := Split(a[1..]);
      if a[0] != '\n' && |q| == 1 {
        SplitConcatOnePiece(a[0], q[0], b);
        assert q[..0] == [];
      } else {
        PrependPiece(a[0], q, Split(q[|q| - 1] + b));
      }
    }
  }

  lemma SplitConcatOnePiece(c: char, piece: string, b: string)
    requires c != '\n'
    ensures Split(([c] + piece) + b) == [[c] + Split(piece + b)[0]] + Split(piece + b)[1..]
  {
    assert ([c] + piece) + b == [c] + (piece + b);
    SplitHead(c, piece + b);
  }

  lemma PrependPiece(c: char, q: seq<string>, tail: seq<string>)
    requires |q| >= 1 && (c == '\n' || |q| > 1)
    ensures var p := if c == '\n' then [""] + q else [[c] + q[0]] + q[1..];
      var whole := q[..|q| - 1] + tail;
      && |p| > 1 && p[|p| - 1] == q[|q| - 1]
      && p[..|p| - 1] + tail == (if c == '\n' then [""] + whole else [[c] + whole[0]] + whole[1..])
  {
    var p := if c == '\n' then [""] + q else [[c] + q[0]] + q[1..];
    if c == '\n' {
      assert p[..|p| - 1] == [""] + q[..|q| - 1];
    } else {
      assert p[..|p| - 1] == [[c] + q[0]] + q[1..|q| - 1];
    }
  }

  lemma FeedTwice(buffer: string, a: string, b: string)
    ensures var first := Feed(buffer, a);
      var second := Feed(first.rest, b);
      Feed(buffer, a + b) == Framed(first.lines + second.lines, second.rest)
  {
    hide Split;
    SplitConcat(buffer + a, b);
    assert (buffer + a) + b == buffer + (a + b);
  }

  lemma FeedNothing(buffer: string)
    requires Unbroken(buffer)
    ensures Feed(buffer, "") == Framed([], buffer)
  {
    assert buffer + "" == buffer;
    JoinThenSplit([buffer]);
  }

  /** What stays in the buffer never holds a newline, and neither does a delivered line. */
  lemma FeedUnbroken(buffer: string, chunk: string)
    ensures Unbroken(Feed(buffer, chunk).rest) && AllUnbroken(Feed(buffer, chunk).lines)
  {
    SplitThenJoin(buffer + chunk);
  }

  /** Chunking independence: the lines delivered and the buffer left depend only on the
      concatenation of the chunks. */
  lemma {:induction false} ChunkingIndependence(buffer: string, chunks: seq<string>)
    requires Unbroken(buffer)
    ensures FeedAll(buffer, chunks) == Feed(buffer, Concat(chunks))
    decreases |chunks|
  {
    if chunks == [] {
      FeedNothing(buffer);
    } else {
      FeedUnbroken(buffer, chunks[0]);
      ChunkingIndependence(Feed(buffer, chunks[0]).rest, chunks[1..]);
      FeedTwice(buffer, chunks[0], Concat(chunks[1..]));
    }
  }

  // ----- A leftover buffer ------------------------------------------------------------------

  /** An unbroken leftover is glued to the first piece of the stream. */
  lemma {:induction false} SplitAfterLeftover(buffer: string, stream: string)
    requires Unbroken(buffer)
    ensures Split(buffer + stream) == [buffer + Split(stream)[0]] + Split(stream)[1..]
  {
    if buffer == [] {
      assert buffer + stream == stream && buffer + Split(stream)[0] == Split(stream)[0];
    } else {
      SplitAfterLeftover(buffer[1..], stream);
      assert buffer + stream == [buffer[0]] + (buffer[1..] + stream);
      SplitHead(buffer[0], buffer[1..] + stream);
      assert buffer[0] in buffer;
      assert [buffer[0]] + (buffer[1..] + Split(stream)[0]) == buffer + Split(stream)[0];
    }
  }

  lemma {:induction false} PiecesCountBreaks(s: string)
    ensures |Split(s)| == 1 <==> Unbroken(s)
  {
    if s != [] {
      PiecesCountBreaks(s[1..]);
      assert s == [s[0]] + s[1..];
      assert '\n' in s <==> s[0] == '\n' || '\n' in s[1..];
      assert |Split(s)| == |Split(s[1..])| + (if s[0] == '\n' then 1 else 0);
    }
  }

  /** A leftover buffer leaves the lines of a stream as they are if and only if it is empty or
      the stream completes no line. */
  lemma LeftoverMatters(buffer: string, stream: string)
    requires Unbroken(buffer)
    ensures Feed(buffer, stream).lines == Feed("", stream).lines <==> buffer == "" || Unbroken(stream)
  {
    SplitAfterLeftover(buffer, stream);
    PiecesCountBreaks(stream);
    assert "" + stream == stream;
    if buffer != "" && !Unbroken(stream) {
      assert |Feed(buffer, stream).lines[0]| > |Feed("", stream).lines[0]|;
    }
  }
}
