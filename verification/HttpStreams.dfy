/**
  HTTP/1.1 framing as the load generator's client and sink do it. What a head says (status, body
  length, chunked or not) is a parameter; where a message ends in the byte stream is not.
 */
module HttpStreams {
  import opened Wrappers
  import opened Framing

  const CRLF: seq<byte> := [13, 10]
  const BLANK_LINE: seq<byte> := [13, 10, 13, 10]

  /** `bytes.find(pattern, from)`. */
  function Find(buf: seq<byte>, pattern: seq<byte>, from: nat): (r: Option<nat>)
    ensures r.Some? ==> from <= r.value && r.value + |pattern| <= |buf|
    decreases |buf| - from
  {
    if from + |pattern| > |buf| then None
    else if buf[from..from + |pattern|] == pattern then Some(from)
    else Find(buf, pattern, from + 1)
  }

  lemma {:induction false} FindExtends(buf: seq<byte>, more: seq<byte>, pattern: seq<byte>, from: nat)
    requires Find(buf, pattern, from).Some?
    ensures Find(buf + more, pattern, from) == Find(buf, pattern, from)
    decreases |buf| - from
  {
    assert (buf + more)[from..from + |pattern|] == buf[from..from + |pattern|];
    if buf[from..from + |pattern|] != pattern {
      FindExtends(buf, more, pattern, from + 1);
    }
  }

  /** What the scans of a head, and of a chunk-size line, come to. */
  datatype Heads = Heads(
    status: seq<byte> -> int,
    contentLength: seq<byte> -> nat,
    chunked: seq<byte> -> bool,
    close: seq<byte> -> bool,
    chunkSize: seq<byte> -> nat)

  /** The end of a chunked body (section 7.1 of RFC 9112) whose next size line starts at `i`. */
  function ChunksEnd(h: Heads, buf: seq<byte>, i: nat): (r: Option<nat>)
    ensures r.Some? ==> i < r.value <= |buf|
    decreases |buf| - i
  {
    match Find(buf, CRLF, i)
    case None => None
    case Some(e) =>
      var n := h.chunkSize(buf[i..e]);
      if n == 0 then
        match Find(buf, BLANK_LINE, e)
        case None => None
        case Some(end) => Some(end + 4)
      else if e + 2 + n + 2 > |buf| then None
      else ChunksEnd(h, buf, e + 2 + n + 2)
  }

  datatype Message = Message(head: seq<byte>, body: seq<byte>)

  /** A response at the head of the client's buffer (section 6.3 of RFC 9112). */
  function ParseResponse(h: Heads, buf: seq<byte>): (r: Option<Found<Message>>)
    ensures r.Some? ==> 0 < r.value.size <= |buf|
  {
    match Find(buf, BLANK_LINE, 0)
    case None => None
    case Some(he) =>
      var head := buf[..he];
      if h.chunked(head) then
        match ChunksEnd(h, buf, he + 4)
        case None => None
        case Some(end) => Some(Found(Message(head, buf[he + 4..end]), end))
      else
        var total := he + 4 + h.contentLength(head);
        if |buf| < total then None else Some(Found(Message(head, buf[he + 4..total]), total))
  }

  /** A request at the head of the sink's buffer: only Content-Length counts there. */
  function ParseRequest(h: Heads, buf: seq<byte>): (r: Option<Found<Message>>)
    ensures r.Some? ==> 0 < r.value.size <= |buf|
  {
    ParseResponse(h.(chunked := (head: seq<byte>) => false), buf)
  }

  function Responses(h: Heads): Parser<Message> { (buf: seq<byte>) => ParseResponse(h, buf) }

  function Requests(h: Heads): Parser<Message> { (buf: seq<byte>) => ParseRequest(h, buf) }

  lemma SliceOfLonger(buf: seq<byte>, more: seq<byte>, i: nat, e: nat)
    requires i <= e <= |buf|
    ensures (buf + more)[i..e] == buf[i..e]
  {
  }

  lemma LastChunk(h: Heads, buf: seq<byte>, i: nat, e: nat, end: nat)
    requires Find(buf, CRLF, i) == Some(e) && h.chunkSize(buf[i..e]) == 0
    requires end >= 4 && Find(buf, BLANK_LINE, e) == Some(end - 4)
    ensures ChunksEnd(h, buf, i) == Some(end)
  {
  }

  lemma OneChunk(h: Heads, buf: seq<byte>, i: nat, e: nat, n: nat, r: Option<nat>)
    requires Find(buf, CRLF, i) == Some(e) && h.chunkSize(buf[i..e]) == n > 0 && e + 2 + n + 2 <= |buf|
    requires ChunksEnd(h, buf, e + 2 + n + 2) == r
    ensures ChunksEnd(h, buf, i) == r
  {
  }

  lemma {:induction false} ChunksEndExtends(h: Heads, buf: seq<byte>, more: seq<byte>, i: nat)
    requires ChunksEnd(h, buf, i).Some?
    ensures ChunksEnd(h, buf + more, i) == ChunksEnd(h, buf, i)
    decreases |buf| - i
  {
    FindExtends(buf, more, CRLF, i);
    var e := Find(buf, CRLF, i).value;
    SliceOfLonger(buf, more, i, e);
    var n := h.chunkSize(buf[i..e]);
    if n == 0 {
      FindExtends(buf, more, BLANK_LINE, e);
      var end := Find(buf, BLANK_LINE, e).value + 4;
      LastChunk(h, buf, i, e, end);
      LastChunk(h, buf + more, i, e, end);
    } else {
      var r := ChunksEnd(h, buf, e + 2 + n + 2);
      ChunksEndExtends(h, buf, more, e + 2 + n + 2);
      OneChunk(h, buf, i, e, n, r);
      OneChunk(h, buf + more, i, e, n, r);
    }
  }

  lemma ParseResponseExtends(h: Heads, buf: seq<byte>, more: seq<byte>)
    requires ParseResponse(h, buf).Some?
    ensures ParseResponse(h, buf + more) == ParseResponse(h, buf)
  {
    FindExtends(buf, more, BLANK_LINE, 0);
    var he := Find(buf, BLANK_LINE, 0).value;
    var total := ParseResponse(h, buf).value.size;
    assert (buf + more)[..he] == buf[..he];
    assert (buf + more)[he + 4..total] == buf[he + 4..total];
    if h.chunked(buf[..he]) {
      ChunksEndExtends(h, buf, more, he + 4);
    }
  }

  lemma ResponsesAreStable(h: Heads)
    ensures Stable(Responses(h)) && Stable(Requests(h))
  {
    forall b, more | ParseResponse(h, b).Some?
      ensures ParseResponse(h, b + more) == ParseResponse(h, b)
    {
      ParseResponseExtends(h, b, more);
    }
    var g := h.(chunked := (head: seq<byte>) => false);
    forall b, more | ParseResponse(g, b).Some?
      ensures ParseResponse(g, b + more) == ParseResponse(g, b)
    {
      ParseResponseExtends(g, b, more);
    }
    assert forall b :: Requests(h)(b) == ParseRequest(h, b);
    assert forall b :: Responses(h)(b) == ParseResponse(h, b);
  }

  // ---- the loops of the source ----

  /** The walk over the chunk framing, from the first size line to the end of the trailer. */
  method WalkChunks(h: Heads, buf: seq<byte>, start: nat) returns (r: Option<nat>)
    ensures r == ChunksEnd(h, buf, start)
  {
    var i := start;
    while true
      invariant ChunksEnd(h, buf, start) == ChunksEnd(h, buf, i)
      decreases |buf| - i
    {
      var e := Find(buf, CRLF, i);
      if e == None {
        return None;
      }
      var n := h.chunkSize(buf[i..e.value]);
      if n == 0 {
        var end := Find(buf, BLANK_LINE, e.value);
        if end == None {
          return None;
        }
        return Some(end.value + 4);
      }
      i := e.value + 2 + n + 2;
      if i > |buf| {
        return None;
      }
    }
  }

  /** What one delivery comes to: the responses reported, the bytes kept, and whether to hang up. */
  datatype Intake = Intake(statuses: seq<int>, rest: seq<byte>, hangUp: bool)

  function Handle(h: Heads, buf: seq<byte>): Intake
    decreases |buf|
  {
    match ParseResponse(h, buf)
    case None => Intake([], buf, false)
    case Some(Found(m, size)) =>
      if h.close(m.head) then
        Intake([h.status(m.head)], buf[size..], true)
      else
        Behind([h.status(m.head)], Handle(h, buf[size..]))
  }

  function Behind(statuses: seq<int>, i: Intake): Intake {
    i.(statuses := statuses + i.statuses)
  }

  /** The receive loop of the client: one `on_response` per response, none after a close. */
  method HandleResponses(h: Heads, data: seq<byte>) returns (i: Intake)
    ensures i == Handle(h, data)
  {
    var buf, statuses := data, [];
    while true
      invariant Handle(h, data) == Behind(statuses, Handle(h, buf))
      decreases |buf|
    {
      var he := Find(buf, BLANK_LINE, 0);
      if he == None {
        return Intake(statuses, buf, false);
      }
      var head := buf[..he.value];
      var total := he.value + 4;
      if h.chunked(head) {
        var end := WalkChunks(h, buf, total);
        if end == None {
          return Intake(statuses, buf, false);
        }
        total := end.value;
      } else {
        total := total + h.contentLength(head);
        if |buf| < total {
          return Intake(statuses, buf, false);
        }
      }
      Associative(statuses, [h.status(head)], Handle(h, buf[total..]).statuses);
      buf := buf[total..];
      statuses := statuses + [h.status(head)];
      if h.close(head) {
        return Intake(statuses, buf, true);
      }
    }
  }

  // ---- chunking does not matter ----

  function HandleAll(h: Heads, buf: seq<byte>, chunks: seq<seq<byte>>): Intake
    decreases |chunks|
  {
    if chunks == [] then Intake([], buf, false) else
    var now := Handle(h, buf + chunks[0]);
    if now.hangUp then now else Behind(now.statuses, HandleAll(h, now.rest, chunks[1..]))
  }

  ghost predicate KeepAlive(h: Heads, ms: seq<Message>) {
    forall m | m in ms :: !h.close(m.head)
  }

  function Status(h: Heads): Message -> seq<int> { (m: Message) => [h.status(m.head)] }

  lemma {:induction false} HandleIsMessagewise(h: Heads, buf: seq<byte>)
    requires KeepAlive(h, Take(Responses(h), buf).frames)
    ensures var t := Take(Responses(h), buf); Handle(h, buf) == Intake(FlatMap(Status(h), t.frames), t.rest, false)
    decreases |buf|
  {
    assert Responses(h)(buf) == ParseResponse(h, buf);
    if ParseResponse(h, buf).Some? {
      var Found(m, size) := ParseResponse(h, buf).value;
      var t := Take(Responses(h), buf[size..]);
      assert Take(Responses(h), buf) == Scan([m] + t.frames, t.rest);
      assert ([m] + t.frames)[1..] == t.frames;
      assert forall m' | m' in t.frames :: m' in [m] + t.frames;
      HandleIsMessagewise(h, buf[size..]);
    }
  }

  /** Two deliveries in place of one: a hang-up in the first leaves the second unread. */
  lemma {:induction false} SplitDelivery(h: Heads, a: seq<byte>, b: seq<byte>)
    ensures var now := Handle(h, a);
      Handle(h, a + b) ==
        if now.hangUp then now.(rest := now.rest + b) else Behind(now.statuses, Handle(h, now.rest + b))
    ensures var now := Handle(h, a); now.hangUp || ParseResponse(h, now.rest).None?
    decreases |a|
  {
    if ParseResponse(h, a).Some? {
      var Found(m, size) := ParseResponse(h, a).value;
      ParseResponseExtends(h, a, b);
      assert (a + b)[size..] == a[size..] + b;
      SplitDelivery(h, a[size..], b);
      var tail := Handle(h, a[size..]);
      Associative([h.status(m.head)], tail.statuses, Handle(h, tail.rest + b).statuses);
    } else {
      assert Behind([], Handle(h, a + b)) == Handle(h, a + b);
    }
  }

  /** The same responses, the same hang-up, and what is unread after it is still to be delivered. */
  ghost predicate Agrees(cut: Intake, whole: Intake) {
    && cut.statuses == whole.statuses && cut.hangUp == whole.hangUp && cut.rest <= whole.rest
    && (!whole.hangUp ==> cut.rest == whole.rest)
  }

  lemma AgreesBehind(statuses: seq<int>, cut: Intake, whole: Intake)
    requires Agrees(cut, whole)
    ensures Agrees(Behind(statuses, cut), Behind(statuses, whole))
  {
  }

  /** However the stream is cut, the same responses are reported, and the same one hangs up. */
  lemma {:induction false} ClientIgnoresChunking(h: Heads, buf: seq<byte>, chunks: seq<seq<byte>>)
    requires ParseResponse(h, buf).None?
    ensures Agrees(HandleAll(h, buf, chunks), Handle(h, buf + Concat(chunks)))
    decreases |chunks|
  {
    if chunks == [] {
      assert buf + Concat(chunks) == buf;
    } else {
      var first, later := buf + chunks[0], Concat(chunks[1..]);
      var now := Handle(h, first);
      Associative(buf, chunks[0], later);
      SplitDelivery(h, first, later);
      if !now.hangUp {
        ClientIgnoresChunking(h, now.rest, chunks[1..]);
        AgreesBehind(now.statuses, HandleAll(h, now.rest, chunks[1..]), Handle(h, now.rest + later));
      }
    }
  }
}

/** The HTTP side of the calibration sink: count the request, answer 204, keep the connection. */
module HttpSink {
  import opened Framing
  import opened Wrappers
  import opened HttpStreams

  function Requested(h: Heads, buf: seq<byte>): Scan<Message> { Take(Requests(h), buf) }

  class HttpSinkProtocol {
    const heads: Heads
    var buf: seq<byte>
    var counted: nat  // added to the counter
    var answered: nat // copies of the 204 answer handed to the transport

    constructor (h: Heads)
      ensures heads == h && buf == [] && counted == answered == 0
    {
      heads, buf, counted, answered := h, [], 0, 0;
    }

    method DataReceived(data: seq<byte>)
      modifies this
      ensures buf == Requested(heads, old(buf) + data).rest
      ensures counted == old(counted) + |Requested(heads, old(buf) + data).frames|
      ensures answered == old(answered) + |Requested(heads, old(buf) + data).frames|
    {
      buf := buf + data;
      var n := 0;
      ghost var all := Requested(heads, buf);
      while true
        invariant counted == old(counted) && answered == old(answered)
        invariant all.rest == Requested(heads, buf).rest
        invariant |all.frames| == n + |Requested(heads, buf).frames|
        decreases |buf|
      {
        assert Requests(heads)(buf) == ParseRequest(heads, buf);
        var headEnd := Find(buf, BLANK_LINE, 0);
        if headEnd == None {
          break;
        }
        var total := headEnd.value + 4 + heads.contentLength(buf[..headEnd.value]);
        if |buf| < total {
          break;
        }
        buf := buf[total..];
        n := n + 1;
      }
      if n != 0 {
        answered := answered + n;
        counted := counted + n;
      }
    }
  }

  function CountAll(h: Heads, buf: seq<byte>, chunks: seq<seq<byte>>): nat
    decreases |chunks|
  {
    if chunks == [] then 0 else
    var now := Requested(h, buf + chunks[0]);
    |now.frames| + CountAll(h, now.rest, chunks[1..])
  }

  /** However the requests are cut, the sink answers and counts as many. */
  lemma {:induction false} SinkIgnoresChunking(h: Heads, chunks: seq<seq<byte>>)
    ensures CountAll(h, [], chunks) == |Requested(h, Concat(chunks)).frames|
  {
    assert [] + Concat(chunks) == Concat(chunks);
    assert Requests(h)([]) == ParseRequest(h, []);
    ResponsesAreStable(h);
    ChunkingIsIrrelevant(Requests(h), [], chunks);
    CountsTheFeed(h, [], chunks);
  }

  lemma {:induction false} CountsTheFeed(h: Heads, buf: seq<byte>, chunks: seq<seq<byte>>)
    ensures CountAll(h, buf, chunks) == |Feed(Requests(h), buf, chunks).frames|
    decreases |chunks|
  {
    if chunks != [] {
      CountsTheFeed(h, Requested(h, buf + chunks[0]).rest, chunks[1..]);
    }
  }
}
