/** Reading bounded lines from a stream that arrives in arbitrary pieces: backend/internal/mcp/stdio.go. */
module LineReader {
  type Byte = b: int | 0 <= b < 256

  const NEWLINE: Byte := 10

  /** What a read reports beside its bytes: the buffer is full, or the stream has ended (with
      io.EOF or a read error). */
  datatype Status = Fine | BufferFull | Ended

  predicate Bare(s: seq<Byte>) {
    forall i :: 0 <= i < |s| ==> s[i] != NEWLINE
  }

  /** The position of the first newline; the length of the stream when there is none. */
  function LineEnd(s: seq<Byte>): (i: nat)
    ensures i <= |s| && Bare(s[..i]) && (i < |s| ==> s[i] == NEWLINE)
  {
    if s == [] || s[0] == NEWLINE then 0
    else
      var i := LineEnd(s[1..]);
      assert s[..i + 1] == [s[0]] + s[1..][..i];
      i + 1
  }

  /** A piece that ends with its only newline. */
  predicate Closed(s: seq<Byte>) {
    s != [] && s[|s| - 1] == NEWLINE && Bare(s[..|s| - 1])
  }

  /** bufio.Reader: how much of the stream each call finds in its buffer is beyond the caller's control. */
  class Reader {
    var stream: seq<Byte>

    constructor (stream: seq<Byte>)
      ensures this.stream == stream
    {
      this.stream := stream;
    }

    /** ReadSlice('\n'): up to and with the newline, or a piece of the line, or what is left at the end. */
    method ReadSlice() returns (frag: seq<Byte>, status: Status)
      modifies this
      ensures old(stream) == frag + stream
      ensures status == Fine ==> Closed(frag)
      ensures status == BufferFull ==> frag != [] && Bare(frag)
      ensures status == Ended ==> Bare(frag) && stream == []
    {
      var end := LineEnd(stream);
      var size := *;
      if 0 < size <= end {
        frag, status := stream[..size], BufferFull;
        assert frag == stream[..end][..size];
        stream := stream[size..];
      } else if end < |stream| {
        frag, status := stream[..end + 1], Fine;
        assert frag[..|frag| - 1] == stream[..end];
        stream := stream[end + 1..];
      } else {
        frag, status := stream, Ended;
        stream := [];
        assert frag[..end] == frag;
      }
    }
  }

  datatype Line = Line(bytes: seq<Byte>, tooLong: bool, status: Status)

  /** The first line of a stream, whatever the pieces. */
  function FirstLine(s: seq<Byte>, limit: nat): (Line, seq<Byte>) {
    var end := LineEnd(s);
    if end < |s| then
      (if end > limit then Line([], true, Fine) else Line(s[..end + 1], false, Fine), s[end + 1..])
    else (if |s| > limit then Line([], true, Ended) else Line(s, false, Ended), [])
  }

  lemma {:induction false} EndAfter(a: seq<Byte>, b: seq<Byte>)
    requires Bare(a)
    ensures LineEnd(a + b) == |a| + LineEnd(b)
  {
    if a == [] {
      assert a + b == b;
    } else {
      assert (a + b)[0] == a[0] && (a + b)[1..] == a[1..] + b;
      EndAfter(a[1..], b);
    }
  }

  /** The first line, where its end is in sight. */
  lemma FirstLineFound(a: seq<Byte>, b: seq<Byte>, limit: nat)
    requires Closed(a)
    ensures FirstLine(a + b, limit) == (if |a| - 1 > limit then Line([], true, Fine) else Line(a, false, Fine), b)
  {
    var front := a[..|a| - 1];
    var s := a + b;
    assert s == front + ([NEWLINE] + b);
    EndAfter(front, [NEWLINE] + b);
    assert LineEnd([NEWLINE] + b) == 0;
    hide LineEnd, Bare;
    assert s[..|a|] == a && s[|a|..] == b;
  }

  lemma FirstLineMissing(a: seq<Byte>, limit: nat)
    requires Bare(a)
    ensures FirstLine(a, limit) == (if |a| > limit then Line([], true, Ended) else Line(a, false, Ended), [])
  {
    EndAfter(a, []);
    assert a + [] == a;
    hide LineEnd, Bare;
  }

  lemma BareJoin(a: seq<Byte>, b: seq<Byte>)
    requires Bare(a)
    ensures Bare(b) ==> Bare(a + b)
    ensures Closed(b) ==> Closed(a + b)
  {
    if Closed(b) {
      assert (a + b)[..|a + b| - 1] == a + b[..|b| - 1];
    }
  }

  lemma Reassociate(a: seq<Byte>, b: seq<Byte>, c: seq<Byte>)
    ensures a + (b + c) == a + b + c
  {
  }

  /** The next line and exactly its bytes are consumed, whatever the fragmentation; never more
      than the limit is kept while it is being read, and none of a line that exceeds it. */
  method ReadBoundedLine(reader: Reader, limit: nat) returns (line: Line)
    modifies reader
    ensures (line, reader.stream) == FirstLine(old(reader.stream), limit)
    ensures |line.bytes| <= limit + 1
  {
    ghost var whole := reader.stream;
    ghost var seen: seq<Byte> := [];
    var buf: seq<Byte> := [];
    var tooLong := false;
    assert whole == [] + whole && Bare([]);
    hide *;
    while true
      invariant whole == seen + reader.stream && Bare(seen)
      invariant tooLong <==> |seen| > limit
      invariant buf == if tooLong then [] else seen
      decreases |reader.stream|
    {
      ghost var before := reader.stream;
      var frag, status := reader.ReadSlice();
      Reassociate(seen, frag, reader.stream);
      BareJoin(seen, frag);
      seen := seen + frag;
      if status == Fine {
        FirstLineFound(seen, reader.stream, limit);
        if tooLong || |buf| + |frag| - 1 > limit {
          return Line([], true, Fine);
        }
        return Line(buf + frag, false, Fine);
      }
      if !tooLong {
        if |buf| + |frag| > limit {
          tooLong, buf := true, [];
        } else {
          buf := buf + frag;
        }
      }
      if status == Ended {
        assert seen + [] == seen;
        FirstLineMissing(seen, limit);
        return Line(buf, tooLong, Ended);
      }
    }
  }

  // --- All lines ------------------------------------------------------------------------

  /** What successive calls return until the stream has ended. */
  function Lines(s: seq<Byte>, limit: nat): seq<Line>
    decreases |s|
  {
    var (line, rest) := FirstLine(s, limit);
    if line.status == Ended then [line] else [line] + Lines(rest, limit)
  }

  /** The serve loop's reads: one line after the other until the end. */
  method ReadAll(reader: Reader, limit: nat) returns (lines: seq<Line>)
    modifies reader
    ensures lines == Lines(old(reader.stream), limit)
  {
    lines := [];
    ghost var all := Lines(reader.stream, limit);
    while true
      invariant all == lines + Lines(reader.stream, limit)
      decreases |reader.stream|
    {
      ghost var before := lines;
      ghost var rest := Lines(FirstLine(reader.stream, limit).1, limit);
      var line := ReadBoundedLine(reader, limit);
      lines := lines + [line];
      if line.status == Ended {
        return;
      }
      assert before + ([line] + rest) == before + [line] + rest;
    }
  }

  /** The contents between the newlines, with what stands behind the last one. */
  function Split(s: seq<Byte>): (parts: seq<seq<Byte>>)
    ensures parts != []
  {
    if s == [] then [[]]
    else
      var rest := Split(s[1..]);
      if s[0] == NEWLINE then [[]] + rest else [[s[0]] + rest[0]] + rest[1..]
  }

  function Unsplit(parts: seq<seq<Byte>>): seq<Byte> {
    if parts == [] then [] else if |parts| == 1 then parts[0] else parts[0] + [NEWLINE] + Unsplit(parts[1..])
  }

  lemma {:induction false} SplitAfter(a: seq<Byte>, b: seq<Byte>)
    requires Bare(a)
    ensures Split(a + ([NEWLINE] + b)) == [a] + Split(b)
  {
    var s := a + ([NEWLINE] + b);
    if a == [] {
      assert s == [NEWLINE] + b && s[1..] == b;
    } else {
      SplitAfter(a[1..], b);
      assert s[0] == a[0] && s[1..] == a[1..] + ([NEWLINE] + b);
      assert [a[0]] + a[1..] == a;
    }
  }

  lemma {:induction false} SplitBare(a: seq<Byte>)
    requires Bare(a)
    ensures Split(a) == [a]
  {
    if a != [] {
      SplitBare(a[1..]);
      assert [a[0]] + a[1..] == a;
    }
  }

  lemma UnsplitCons(part: seq<Byte>, rest: seq<seq<Byte>>)
    requires rest != []
    ensures Unsplit([part] + rest) == part + ([NEWLINE] + Unsplit(rest))
  {
    assert ([part] + rest)[1..] == rest;
  }

  /** The stream cut at its first newline. */
  lemma CutAtEnd(s: seq<Byte>) returns (front: seq<Byte>, rest: seq<Byte>)
    ensures Bare(front) && |front| == LineEnd(s)
    ensures if LineEnd(s) < |s| then s == front + ([NEWLINE] + rest) && rest == s[LineEnd(s) + 1..] else s == front
  {
    front := s[..LineEnd(s)];
    rest := if LineEnd(s) < |s| then s[LineEnd(s) + 1..] else [];
  }

  /** Splitting loses nothing and leaves no newline. */
  lemma {:induction false} SplitIsExact(s: seq<Byte>)
    ensures Unsplit(Split(s)) == s
    ensures forall i :: 0 <= i < |Split(s)| ==> Bare(Split(s)[i])
    decreases |s|
  {
    var front, rest := CutAtEnd(s);
    hide Bare, LineEnd;
    if LineEnd(s) < |s| {
      SplitAfter(front, rest);
      SplitIsExact(rest);
      UnsplitCons(front, Split(rest));
    } else {
      SplitBare(front);
    }
  }

  lemma LinesStep(s: seq<Byte>, limit: nat, front: seq<Byte>, rest: seq<Byte>)
    requires Bare(front)
    ensures s == front + ([NEWLINE] + rest) ==>
      var first := if |front| > limit then Line([], true, Fine) else Line(front + [NEWLINE], false, Fine);
      Lines(s, limit) == [first] + Lines(rest, limit)
    ensures s == front ==> Lines(s, limit) == [if |front| > limit then Line([], true, Ended) else Line(front, false, Ended)]
  {
    if s == front + ([NEWLINE] + rest) {
      var whole := front + [NEWLINE];
      assert whole[..|whole| - 1] == front && s == whole + rest;
      FirstLineFound(whole, rest, limit);
      hide FirstLine, Bare;
    } else if s == front {
      FirstLineMissing(front, limit);
      hide FirstLine, Bare;
    }
  }

  /** The calls return exactly the lines of the stream, in order: each with its newline, the last
      one as the unterminated tail it is; a line is flagged, and its bytes withheld, exactly when
      its content exceeds the limit. */
  lemma {:induction false} LinesAreTheLines(s: seq<Byte>, limit: nat, i: nat)
    requires i < |Split(s)|
    ensures |Lines(s, limit)| == |Split(s)|
    ensures var part := Split(s)[i];
            var last := i == |Split(s)| - 1;
            && Lines(s, limit)[i].tooLong == (|part| > limit)
            && Lines(s, limit)[i].status == (if last then Ended else Fine)
            && Lines(s, limit)[i].bytes == if |part| > limit then [] else if last then part else part + [NEWLINE]
    decreases |s|
  {
    var front, rest := CutAtEnd(s);
    LinesStep(s, limit, front, rest);
    assert |Split(rest)| > 0;
    hide Bare, LineEnd, Lines;
    if LineEnd(s) < |s| {
      SplitAfter(front, rest);
      LinesAreTheLines(rest, limit, if i > 0 then i - 1 else 0);
    } else {
      SplitBare(front);
    }
  }
}
