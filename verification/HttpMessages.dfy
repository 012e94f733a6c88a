/**
  HTTP messages on the wire (sections 2.1, 6 and 7.1 of RFC 9112): a head of lines, a blank line, and a
  body of the announced length or in chunks. Client and sink take a stream of them apart into exactly
  those messages, wherever it is cut.
 */
module HttpMessages {
  import opened Wrappers
  import opened Framing
  import opened HttpStreams
  import K = HttpSink

  // ---- the first occurrence ----

  predicate At(buf: seq<byte>, pattern: seq<byte>, j: nat) {
    j + |pattern| <= |buf| && buf[j..j + |pattern|] == pattern
  }

  /** The first occurrence from `from` on is at `k`. */
  ghost predicate FirstAt(buf: seq<byte>, pattern: seq<byte>, from: nat, k: nat) {
    from <= k && At(buf, pattern, k) && forall j: nat | from <= j < k :: !At(buf, pattern, j)
  }

  /** `find` gives the first occurrence exactly if there is one. */
  lemma {:induction false} FindIsFirst(buf: seq<byte>, pattern: seq<byte>, from: nat)
    ensures match Find(buf, pattern, from)
      case None => forall j: nat | from <= j :: !At(buf, pattern, j)
      case Some(k) => FirstAt(buf, pattern, from, k)
    decreases |buf| - from
  {
    if from + |pattern| <= |buf| && buf[from..from + |pattern|] != pattern {
      FindIsFirst(buf, pattern, from + 1);
    }
  }

  lemma AtInside(pre: seq<byte>, x: seq<byte>, more: seq<byte>, pattern: seq<byte>, j: nat)
    requires j + |pattern| <= |x|
    ensures At(pre + x + more, pattern, |pre| + j) <==> At(x, pattern, j)
  {
    assert (pre + x + more)[|pre| + j..|pre| + j + |pattern|] == x[j..j + |pattern|];
  }

  /** What comes before and after does not hide an occurrence. */
  lemma FindInside(pre: seq<byte>, x: seq<byte>, more: seq<byte>, pattern: seq<byte>, k: nat)
    requires FirstAt(x, pattern, 0, k)
    ensures Find(pre + x + more, pattern, |pre|) == Some(|pre| + k)
  {
    var buf := pre + x + more;
    FindIsFirst(buf, pattern, |pre|);
    AtInside(pre, x, more, pattern, k);
    forall j: nat | |pre| <= j < |pre| + k
      ensures !At(buf, pattern, j)
    {
      AtInside(pre, x, more, pattern, j - |pre|);
      assert !At(x, pattern, j - |pre|);
    }
    OnlyOneFirst(buf, pattern, |pre|, |pre| + k);
  }

  lemma OnlyOneFirst(buf: seq<byte>, pattern: seq<byte>, from: nat, k: nat)
    requires FirstAt(buf, pattern, from, k)
    ensures Find(buf, pattern, from) == Some(k)
  {
    FindIsFirst(buf, pattern, from);
  }

  // ---- messages ----

  function Wire(m: Message): seq<byte> { m.head + BLANK_LINE + m.body }

  /** The blank line behind the head is the first one. */
  ghost predicate HeadEnds(head: seq<byte>) { FirstAt(head + BLANK_LINE, BLANK_LINE, 0, |head|) }

  /** A chunk: its size line, which may have extensions, and its data. */
  datatype Chunk = Chunk(line: seq<byte>, data: seq<byte>)

  function EncodeChunk(c: Chunk): seq<byte> { c.line + CRLF + c.data + CRLF }

  ghost predicate LineEnds(line: seq<byte>) { FirstAt(line + CRLF, CRLF, 0, |line|) }

  ghost predicate IsChunk(h: Heads, c: Chunk) { LineEnds(c.line) && h.chunkSize(c.line) == |c.data| > 0 }

  ghost predicate AreChunks(h: Heads, chunks: seq<Chunk>) { forall c | c in chunks :: IsChunk(h, c) }

  /** The chunks, the size line of the last chunk, the trailer lines behind a line break each, and a blank line. */
  function ChunkedBody(chunks: seq<Chunk>, last: seq<byte>, trailer: seq<byte>): seq<byte> {
    if chunks == [] then last + (trailer + BLANK_LINE)
    else EncodeChunk(chunks[0]) + ChunkedBody(chunks[1..], last, trailer)
  }

  ghost predicate IsLast(h: Heads, last: seq<byte>, trailer: seq<byte>) {
    && LineEnds(last) && h.chunkSize(last) == 0
    && CRLF <= trailer + BLANK_LINE && FirstAt(trailer + BLANK_LINE, BLANK_LINE, 0, |trailer|)
  }

  ghost predicate IsChunked(h: Heads, body: seq<byte>) {
    exists chunks, last, trailer :: AreChunks(h, chunks) && IsLast(h, last, trailer)
      && body == ChunkedBody(chunks, last, trailer)
  }

  ghost predicate WellFormed(h: Heads, m: Message) {
    HeadEnds(m.head) && if h.chunked(m.head) then IsChunked(h, m.body) else |m.body| == h.contentLength(m.head)
  }

  /** The first of two parts counted to what is before them. */
  lemma ShiftFront(pre: seq<byte>, a: seq<byte>, b: seq<byte>, rest: seq<byte>)
    ensures pre + (a + b) + rest == (pre + a) + b + rest
  {
  }

  lemma ShiftBack(pre: seq<byte>, a: seq<byte>, b: seq<byte>, rest: seq<byte>)
    ensures pre + (a + b) + rest == pre + a + (b + rest)
  {
  }

  lemma LineIsFound(pre: seq<byte>, line: seq<byte>, more: seq<byte>, buf: seq<byte>, e: nat)
    requires LineEnds(line) && buf == pre + (line + CRLF) + more && e == |pre| + |line|
    ensures Find(buf, CRLF, |pre|) == Some(e) && buf[|pre|..e] == line
  {
    FindInside(pre, line + CRLF, more, CRLF, |line|);
  }

  lemma BlankIsFound(pre: seq<byte>, text: seq<byte>, rest: seq<byte>, buf: seq<byte>, e: nat)
    requires FirstAt(text + BLANK_LINE, BLANK_LINE, 0, |text|) && buf == pre + (text + BLANK_LINE) + rest
    requires e == |pre| + |text|
    ensures Find(buf, BLANK_LINE, |pre|) == Some(e)
  {
    FindInside(pre, text + BLANK_LINE, rest, BLANK_LINE, |text|);
  }

  lemma LastIsFound(h: Heads, pre: seq<byte>, last: seq<byte>, trailer: seq<byte>, rest: seq<byte>, buf: seq<byte>,
                    end: nat)
    requires IsLast(h, last, trailer) && buf == pre + (last + (trailer + BLANK_LINE)) + rest
    requires end == |pre| + |last + (trailer + BLANK_LINE)|
    ensures ChunksEnd(h, buf, |pre|) == Some(end)
  {
    var e := |pre| + |last|;
    ShiftFront(pre, last, trailer + BLANK_LINE, rest);
    BlankIsFound(pre + last, trailer, rest, buf, end - 4);
    LastLineIsFound(pre, last, trailer + BLANK_LINE, rest, buf, e);
    assert |pre + last| == e;
    LastChunk(h, buf, |pre|, e, end);
  }

  lemma LastLineIsFound(pre: seq<byte>, last: seq<byte>, end: seq<byte>, rest: seq<byte>, buf: seq<byte>, e: nat)
    requires LineEnds(last) && CRLF <= end && buf == pre + (last + end) + rest && e == |pre| + |last|
    ensures Find(buf, CRLF, |pre|) == Some(e) && buf[|pre|..e] == last
  {
    var after := end[2..];
    assert end == CRLF + after;
    Associative(last, CRLF, after);
    ShiftBack(pre, last + CRLF, after, rest);
    LineIsFound(pre, last, after + rest, buf, e);
  }

  lemma ChunkIsPassed(h: Heads, pre: seq<byte>, c: Chunk, more: seq<byte>, buf: seq<byte>, j: nat, r: Option<nat>)
    requires IsChunk(h, c) && buf == pre + EncodeChunk(c) + more && j == |pre| + |EncodeChunk(c)|
    requires ChunksEnd(h, buf, j) == r
    ensures ChunksEnd(h, buf, |pre|) == r
  {
    var e, n := |pre| + |c.line|, |c.data|;
    ShiftBack(pre, c.line + CRLF, c.data + CRLF, more);
    Associative(c.line + CRLF, c.data, CRLF);
    LineIsFound(pre, c.line, c.data + CRLF + more, buf, e);
    assert j == e + 2 + n + 2 <= |buf|;
    OneChunk(h, buf, |pre|, e, n, r);
  }

  lemma {:induction false} ChunksReadBack(h: Heads, pre: seq<byte>, chunks: seq<Chunk>, last: seq<byte>,
                                          trailer: seq<byte>, rest: seq<byte>, buf: seq<byte>, end: nat)
    requires AreChunks(h, chunks) && IsLast(h, last, trailer)
    requires buf == pre + ChunkedBody(chunks, last, trailer) + rest
    requires end == |pre| + |ChunkedBody(chunks, last, trailer)|
    ensures ChunksEnd(h, buf, |pre|) == Some(end)
    decreases |chunks|
  {
    if chunks == [] {
      LastIsFound(h, pre, last, trailer, rest, buf, end);
    } else {
      var c, later := chunks[0], ChunkedBody(chunks[1..], last, trailer);
      assert c in chunks;
      var pre' := pre + EncodeChunk(c);
      ShiftFront(pre, EncodeChunk(c), later, rest);
      ShiftBack(pre, EncodeChunk(c), later, rest);
      ChunksReadBack(h, pre', chunks[1..], last, trailer, rest, buf, end);
      ChunkIsPassed(h, pre, c, later + rest, buf, |pre'|, Some(end));
    }
  }

  lemma BodyReadsBack(h: Heads, pre: seq<byte>, body: seq<byte>, rest: seq<byte>, buf: seq<byte>, end: nat)
    requires IsChunked(h, body) && buf == pre + body + rest && end == |pre| + |body|
    ensures ChunksEnd(h, buf, |pre|) == Some(end)
  {
    var chunks, last, trailer :| AreChunks(h, chunks) && IsLast(h, last, trailer)
      && body == ChunkedBody(chunks, last, trailer);
    ChunksReadBack(h, pre, chunks, last, trailer, rest, buf, end);
  }

  lemma HeadIsFound(m: Message, rest: seq<byte>, buf: seq<byte>)
    requires HeadEnds(m.head) && buf == Wire(m) + rest
    ensures Find(buf, BLANK_LINE, 0) == Some(|m.head|) && buf[..|m.head|] == m.head
    ensures buf == (m.head + BLANK_LINE) + m.body + rest && buf[|m.head| + 4..|Wire(m)|] == m.body
  {
    var pre := m.head + BLANK_LINE;
    assert buf == [] + pre + (m.body + rest);
    FindInside([], pre, m.body + rest, BLANK_LINE, |m.head|);
  }

  /** A well-formed message at the head of any stream is found, with its head, its body and its size. */
  lemma MessageReadsBack(h: Heads, m: Message, rest: seq<byte>)
    requires WellFormed(h, m)
    ensures ParseResponse(h, Wire(m) + rest) == Some(Found(m, |Wire(m)|))
  {
    var buf := Wire(m) + rest;
    HeadIsFound(m, rest, buf);
    if h.chunked(m.head) {
      BodyReadsBack(h, m.head + BLANK_LINE, m.body, rest, buf, |Wire(m)|);
    }
  }

  /** As long as a byte of it is missing, nothing is found. */
  lemma PartOfAMessage(h: Heads, m: Message, part: seq<byte>)
    requires WellFormed(h, m) && part < Wire(m)
    ensures ParseResponse(h, part).None?
  {
    if ParseResponse(h, part).Some? {
      var more := Wire(m)[|part|..];
      assert part + more == Wire(m) == Wire(m) + [];
      ParseResponseExtends(h, part, more);
      MessageReadsBack(h, m, []);
      assert false;
    }
  }

  /** The same for a request, of which only the announced length counts, and for a part of one. */
  lemma RequestReadsBack(h: Heads, m: Message, rest: seq<byte>, part: seq<byte>)
    requires HeadEnds(m.head) && |m.body| == h.contentLength(m.head) && part < Wire(m)
    ensures ParseRequest(h, Wire(m) + rest) == Some(Found(m, |Wire(m)|)) && ParseRequest(h, part).None?
  {
    var g := h.(chunked := (head: seq<byte>) => false);
    MessageReadsBack(g, m, rest);
    PartOfAMessage(g, m, part);
    assert ParseRequest(h, Wire(m) + rest) == ParseResponse(g, Wire(m) + rest);
    assert ParseRequest(h, part) == ParseResponse(g, part);
  }

  /** What is found is what stands on the wire, and no shorter head or body would do. */
  lemma FoundIsOnTheWire(h: Heads, buf: seq<byte>)
    requires ParseResponse(h, buf).Some?
    ensures var Found(m, size) := ParseResponse(h, buf).value;
      && buf[..size] == Wire(m) && HeadEnds(m.head)
      && (!h.chunked(m.head) ==> WellFormed(h, m))
  {
    var Found(m, size) := ParseResponse(h, buf).value;
    FindIsFirst(buf, BLANK_LINE, 0);
    var k := |m.head|;
    assert buf[..k] == m.head && buf[k..k + 4] == BLANK_LINE;
    assert buf[..size] == Wire(m);
    var front := m.head + BLANK_LINE;
    assert front == buf[..k + 4];
    forall j: nat | j < k
      ensures !At(front, BLANK_LINE, j)
    {
      assert front[j..j + 4] == buf[j..j + 4];
      assert !At(buf, BLANK_LINE, j);
    }
    assert front[k..k + 4] == BLANK_LINE;
  }

  // ---- streams of messages ----

  function Stream(ms: seq<Message>): seq<byte> { FlatMap(Wire, ms) }

  /** A stream of messages, the last of them perhaps still incomplete, is taken apart into exactly those messages. */
  lemma {:induction false} StreamReadsBack(h: Heads, ms: seq<Message>, part: seq<byte>)
    requires (forall m | m in ms :: WellFormed(h, m)) && ParseResponse(h, part).None?
    ensures Take(Responses(h), Stream(ms) + part) == Scan(ms, part)
    decreases |ms|
  {
    if ms == [] {
      assert Stream(ms) + part == part;
      assert Responses(h)(part) == ParseResponse(h, part);
    } else {
      var m, rest := ms[0], Stream(ms[1..]) + part;
      var buf := Stream(ms) + part;
      assert buf == Wire(m) + rest && buf[|Wire(m)|..] == rest;
      MessageReadsBack(h, m, rest);
      assert Responses(h)(buf) == Some(Found(m, |Wire(m)|));
      StreamReadsBack(h, ms[1..], part);
      assert [m] + ms[1..] == ms;
    }
  }

  lemma NothingThere(h: Heads)
    ensures ParseResponse(h, []).None?
  {
  }

  /** However a stream of responses is cut, each is reported once, in order, and nothing is left over. */
  lemma ResponsesAreReported(h: Heads, ms: seq<Message>, chunks: seq<seq<byte>>)
    requires (forall m | m in ms :: WellFormed(h, m)) && KeepAlive(h, ms) && Concat(chunks) == Stream(ms)
    ensures HandleAll(h, [], chunks) == Intake(FlatMap(Status(h), ms), [], false)
  {
    NothingThere(h);
    assert Stream(ms) + [] == Stream(ms) == [] + Stream(ms);
    StreamReadsBack(h, ms, []);
    HandleIsMessagewise(h, Stream(ms));
    ClientIgnoresChunking(h, [], chunks);
  }

  /** A response that closes the connection is the last one reported; what follows it stays unread. */
  lemma {:induction false} ClosingResponse(h: Heads, ms: seq<Message>, bye: Message, after: seq<byte>)
    requires (forall m | m in ms :: WellFormed(h, m)) && KeepAlive(h, ms) && WellFormed(h, bye) && h.close(bye.head)
    ensures Handle(h, Stream(ms) + (Wire(bye) + after))
      == Intake(FlatMap(Status(h), ms) + [h.status(bye.head)], after, true)
    decreases |ms|
  {
    var tail := Wire(bye) + after;
    if ms == [] {
      assert Stream(ms) + tail == tail;
      MessageReadsBack(h, bye, after);
      assert tail[|Wire(bye)|..] == after;
    } else {
      var m, rest := ms[0], Stream(ms[1..]) + tail;
      var buf := Stream(ms) + tail;
      assert buf == Wire(m) + rest && buf[|Wire(m)|..] == rest;
      MessageReadsBack(h, m, rest);
      ClosingResponse(h, ms[1..], bye, after);
      Associative([h.status(m.head)], FlatMap(Status(h), ms[1..]), [h.status(bye.head)]);
    }
  }

  /** The sink, which knows no chunked bodies, answers and counts every request it is sent, however they are cut. */
  lemma RequestsAreCounted(h: Heads, ms: seq<Message>, chunks: seq<seq<byte>>)
    requires forall m | m in ms :: HeadEnds(m.head) && |m.body| == h.contentLength(m.head)
    requires Concat(chunks) == Stream(ms)
    ensures K.Requested(h, Stream(ms)) == Scan(ms, []) && K.CountAll(h, [], chunks) == |ms|
  {
    var g := h.(chunked := (head: seq<byte>) => false);
    NothingThere(g);
    assert Stream(ms) + [] == Stream(ms);
    StreamReadsBack(g, ms, []);
    SameParser(h, g, Stream(ms));
    K.SinkIgnoresChunking(h, chunks);
  }

  lemma {:induction false} SameParser(h: Heads, g: Heads, buf: seq<byte>)
    requires g == h.(chunked := g.chunked) && forall b :: ParseRequest(h, b) == ParseResponse(g, b)
    ensures Take(Requests(h), buf) == Take(Responses(g), buf)
    decreases |buf|
  {
    assert Requests(h)(buf) == ParseRequest(h, buf) && Responses(g)(buf) == ParseResponse(g, buf);
    if ParseRequest(h, buf).Some? {
      SameParser(h, g, buf[ParseRequest(h, buf).value.size..]);
    }
  }

  // ---- heads and trailers of lines ----

  /** A line that is neither empty nor has a carriage return in it. */
  predicate IsLine(line: seq<byte>) { line != [] && 13 !in line }

  /** Lines, each behind a line break. */
  function Lines(lines: seq<seq<byte>>): seq<byte> {
    if lines == [] then [] else CRLF + lines[0] + Lines(lines[1..])
  }

  lemma BlankNeedsReturns(buf: seq<byte>, j: nat)
    requires j < |buf| && (buf[j] != 13 || (j + 2 < |buf| && buf[j + 2] != 13))
    ensures !At(buf, BLANK_LINE, j)
  {
    assert j + 4 <= |buf| ==> buf[j..j + 4][0] == buf[j] && buf[j..j + 4][2] == buf[j + 2];
  }

  /** The first blank line behind lines is the one that ends them. */
  lemma {:induction false} LinesEnd(lines: seq<seq<byte>>)
    requires forall l | l in lines :: IsLine(l)
    ensures FirstAt(Lines(lines) + BLANK_LINE, BLANK_LINE, 0, |Lines(lines)|)
    ensures CRLF <= Lines(lines) + BLANK_LINE
    decreases |lines|
  {
    if lines != [] {
      var front, later := CRLF + lines[0], Lines(lines[1..]) + BLANK_LINE;
      var buf := Lines(lines) + BLANK_LINE;
      LinesEnd(lines[1..]);
      assert IsLine(lines[0]) && buf == front + later;
      BehindTheFront(front, later, |Lines(lines[1..])|);
    }
  }

  /** Bytes without a blank line's two returns in front of a text do not add a blank line. */
  lemma BehindTheFront(front: seq<byte>, later: seq<byte>, k: nat)
    requires FirstAt(later, BLANK_LINE, 0, k)
    requires forall j | 0 <= j < |front| :: front[j] != 13 || (j + 2 < |front| && front[j + 2] != 13)
    ensures FirstAt(front + later, BLANK_LINE, 0, |front| + k)
  {
    var buf := front + later;
    forall j: nat | j < |front| + k
      ensures !At(buf, BLANK_LINE, j)
    {
      if j < |front| {
        BlankNeedsReturns(buf, j);
      } else {
        assert !At(later, BLANK_LINE, j - |front|);
        assert j + 4 <= |buf| ==> buf[j..j + 4] == later[j - |front|..j - |front| + 4];
      }
    }
    assert buf[|front| + k..|front| + k + 4] == later[k..k + 4];
  }

  /** A start line and field lines make a head whose blank line is the first one. */
  lemma HeadOfLines(start: seq<byte>, fields: seq<seq<byte>>)
    requires 13 !in start && forall l | l in fields :: IsLine(l)
    ensures HeadEnds(start + Lines(fields))
  {
    LinesEnd(fields);
    Associative(start, Lines(fields), BLANK_LINE);
    BehindTheFront(start, Lines(fields) + BLANK_LINE, |Lines(fields)|);
  }

  lemma SizeLine(line: seq<byte>)
    requires 13 !in line
    ensures LineEnds(line)
  {
    var buf := line + CRLF;
    forall j: nat | j < |line|
      ensures !At(buf, CRLF, j)
    {
      assert buf[j..j + 2][0] == line[j];
    }
    assert buf[|line|..|line| + 2] == CRLF;
  }

  // ---- two responses byte by byte ----

  /** "HTTP/1.1 204 No Content" */
  const NO_CONTENT: seq<byte> :=
    [72, 84, 84, 80, 47, 49, 46, 49, 32, 50, 48, 52, 32, 78, 111, 32, 67, 111, 110, 116, 101, 110, 116]

  /** One message and nothing else in the buffer. */
  lemma OneMessage(h: Heads, m: Message, buf: seq<byte>)
    requires WellFormed(h, m) && !h.close(m.head) && buf == Wire(m)
    ensures Handle(h, buf) == Intake([h.status(m.head)], [], false)
  {
    assert Wire(m) + [] == buf && buf[|Wire(m)|..] == [];
    MessageReadsBack(h, m, []);
    NothingThere(h);
  }

  lemma NoContentIsReported(h: Heads)
    requires !h.chunked(NO_CONTENT) && h.contentLength(NO_CONTENT) == 0
    requires h.status(NO_CONTENT) == 204 && !h.close(NO_CONTENT)
    ensures Handle(h, NO_CONTENT + [13, 10, 13, 10]) == Intake([204], [], false)
  {
    HeadOfLines(NO_CONTENT, []);
    assert NO_CONTENT + Lines([]) == NO_CONTENT;
    OneMessage(h, Message(NO_CONTENT, []), NO_CONTENT + [13, 10, 13, 10]);
  }

  const HELLO: seq<byte> := [104, 101, 108, 108, 111]

  /** The chunked body of "hello": size line, data, zero chunk, and an empty trailer. */
  const CHUNKED_HELLO: seq<byte> := [53, 13, 10, 104, 101, 108, 108, 111, 13, 10, 48, 13, 10, 13, 10]

  lemma HelloIsChunked(h: Heads)
    requires h.chunkSize([53]) == 5 && h.chunkSize([48]) == 0
    ensures IsChunked(h, CHUNKED_HELLO)
  {
    var c := Chunk([53], HELLO);
    var chunks := [c];
    SizeLine([53]);
    SizeLine([48]);
    LinesEnd([]);
    assert AreChunks(h, chunks) && IsLast(h, [48], []);
    assert chunks[1..] == [] && ChunkedBody([], [48], []) == [48, 13, 10, 13, 10];
    assert ChunkedBody(chunks, [48], []) == CHUNKED_HELLO;
  }

  lemma ChunkedHelloIsReported(h: Heads, head: seq<byte>)
    requires 13 !in head && h.chunked(head) && !h.close(head) && h.chunkSize([53]) == 5 && h.chunkSize([48]) == 0
    ensures Handle(h, head + [13, 10, 13, 10] + CHUNKED_HELLO) == Intake([h.status(head)], [], false)
  {
    HeadOfLines(head, []);
    assert head + Lines([]) == head;
    HelloIsChunked(h);
    OneMessage(h, Message(head, CHUNKED_HELLO), head + [13, 10, 13, 10] + CHUNKED_HELLO);
  }
}
