/**
  The raw HTTP engine of one worker: a bounded pool of keep-alive connections, one request at a time
  on each, and the books of the worker that uses it. A full pool is reported, never queued.
 */
module HttpPool {
  import opened Wrappers
  import opened Framing
  import opened HttpStreams
  import opened MapSums
  import opened Sequences

  /**
    The pool as a value. `busy` and `closed` are the connections whose flag is set. `gathering` is the
    number of connections that `connect` waits for. A replacement is `replacing` until it has seen
    whether there is room, and `opening` while it waits for its new connection. `early` are the new
    connections that were lost while either was still waiting, and `missed` counts those that `connect`
    could not open.
   */
  datatype Pool<C(==)> = Pool(
    size: nat,
    free: seq<C>,
    all: seq<C>,
    busy: set<C>,
    closed: set<C>,
    inflight: int,
    lost: nat,
    replacing: nat,
    gathering: nat,
    opening: nat,
    early: set<C>,
    missed: nat,
    reconnects: nat,
    reconnectFailed: nat,
    closing: bool)

  const POOL_FULL := "pool_full"
  const CONN_LOST := "conn_lost"
  const DRAIN_INCOMPLETE := "drain_incomplete"

  function Digit(n: nat): char
    requires n < 10
  {
    ('0' as int + n) as char
  }

  function Decimal(n: nat): string { if n < 10 then [Digit(n)] else Decimal(n / 10) + [Digit(n % 10)] }

  /** How a status that is not a success is counted. */
  function HttpStatus(status: nat): string { "http_" + Decimal(status) }

  lemma {:induction false} DecimalIsInjective(m: nat, n: nat)
    ensures Decimal(m) == Decimal(n) <==> m == n
  {
    if Decimal(m) == Decimal(n) {
      var last := |Decimal(m)| - 1;
      assert Decimal(m)[last] == Digit(m % 10) && Decimal(n)[last] == Digit(n % 10);
      if m >= 10 && n >= 10 {
        assert Decimal(m)[..last] == Decimal(m / 10) && Decimal(n)[..last] == Decimal(n / 10);
        DecimalIsInjective(m / 10, n / 10);
      } else if m >= 10 {
        NotEmpty(m / 10);
      } else if n >= 10 {
        NotEmpty(n / 10);
      }
    }
  }

  lemma NotEmpty(n: nat)
    ensures |Decimal(n)| > 0
  {
  }

  /** No two reasons share a counter. */
  lemma ReasonsAreApart(status: nat, other: nat)
    ensures HttpStatus(status) !in [POOL_FULL, CONN_LOST, DRAIN_INCOMPLETE]
    ensures HttpStatus(status) == HttpStatus(other) <==> status == other
    ensures POOL_FULL != CONN_LOST && CONN_LOST != DRAIN_INCOMPLETE && POOL_FULL != DRAIN_INCOMPLETE
  {
    assert HttpStatus(status)[0] == 'h' && POOL_FULL[0] == 'p' && CONN_LOST[0] == 'c' && DRAIN_INCOMPLETE[0] == 'd';
    assert HttpStatus(status)[5..] == Decimal(status) && HttpStatus(other)[5..] == Decimal(other);
    DecimalIsInjective(status, other);
  }

  /** The pool with the counters of its `RawHttpSender`. */
  datatype Engine<C(==)> = Engine(
    pool: Pool<C>,
    dispatched: nat,
    attempted: nat,
    accepted: nat,
    blocked: nat,
    failed: map<string, nat>)

  /** `list.remove` of the first occurrence; a missing element is ignored. */
  function Remove<C(==)>(s: seq<C>, c: C): seq<C> {
    if s == [] then [] else if s[0] == c then s[1..] else [s[0]] + Remove(s[1..], c)
  }

  /** The outcome of `send`: the connection that carries the request, if there is one. */
  datatype Placement<C(==)> = Placement(pool: Pool<C>, conn: Option<C>)

  function Place<C(==)>(p: Pool<C>): Placement<C>
    decreases |p.free|
  {
    if p.free == [] then Placement(p, None) else
    var c := p.free[|p.free| - 1];
    var q := p.(free := p.free[..|p.free| - 1]);
    if c in p.closed then Place(q) else
    Placement(q.(busy := q.busy + {c}, inflight := q.inflight + 1), Some(c))
  }

  function DispatchStep<C(==)>(e: Engine<C>): Engine<C> {
    var sent := Place(e.pool);
    var e := e.(pool := sent.pool, dispatched := e.dispatched + 1);
    if sent.conn.None? then
      e.(blocked := e.blocked + 1, failed := Bump(e.failed, POOL_FULL, 1))
    else
      e.(attempted := e.attempted + 1)
  }

  /** `_on_result` of the sender. */
  function Result<C(==)>(e: Engine<C>, status: int): Engine<C> {
    if status < 0 then e.(failed := Bump(e.failed, CONN_LOST, 1))
    else if 200 <= status < 300 then e.(accepted := e.accepted + 1)
    else e.(failed := Bump(e.failed, HttpStatus(status), 1))
  }

  /** A response: the connection is no longer busy and goes back to the end of `free`. */
  function Respond<C(==)>(p: Pool<C>, c: C): Pool<C> {
    p.(busy := p.busy - {c}, inflight := p.inflight - 1, free := p.free + [c])
  }

  function ResponseStep<C(==)>(e: Engine<C>, c: C, status: int): Engine<C> {
    Result(e.(pool := Respond(e.pool, c)), status)
  }

  /** The connection is closed, whether it is in the pool or a replacement is still waiting for it. */
  function Shut<C(==)>(p: Pool<C>, c: C): Pool<C> {
    p.(closed := p.closed + {c}, early := if c in p.all then p.early else p.early + {c})
  }

  /** It leaves the pool with the request on it, and a replacement is under way. */
  function TakenOut<C(==)>(p: Pool<C>, c: C): Pool<C> {
    p.(lost := p.lost + 1,
       inflight := p.inflight - (if c in p.busy then 1 else 0),
       free := Remove(p.free, c),
       all := Remove(p.all, c),
       replacing := p.replacing + (if p.closing then 0 else 1))
  }

  function LoseConn<C(==)>(p: Pool<C>, c: C): Pool<C> { TakenOut(Shut(p, c), c) }

  function LoseStep<C(==)>(e: Engine<C>, c: C): Engine<C> {
    var e' := e.(pool := LoseConn(e.pool, c));
    if c in e.pool.busy then Result(e', -1) else e'
  }

  /** The connections among the results of `gather`; the others are exceptions. */
  function Opened<C(==)>(results: seq<Option<C>>): seq<C> {
    if results == [] then [] else (if results[0].None? then [] else [results[0].value]) + Opened(results[1..])
  }

  /** `connect` waits no longer; what was lost early is no longer apart from the pool. */
  function Gathered<C(==)>(p: Pool<C>, cs: seq<C>): Pool<C>
    requires |cs| <= p.gathering
  {
    p.(early := p.early - (set c | c in cs), missed := p.missed + p.gathering - |cs|, gathering := 0)
  }

  /** The end of `connect`: what was opened joins the pool, whatever became of it meanwhile. */
  function JoinStep<C(==)>(p: Pool<C>, cs: seq<C>): Pool<C>
    requires |cs| <= p.gathering
  {
    Gathered(p, cs).(all := p.all + cs, free := p.free + cs)
  }

  /** `_replace` up to the point where it waits for a new connection: there must be room for it. */
  function CheckStep<C(==)>(p: Pool<C>): Pool<C>
    requires p.replacing > 0
  {
    var p := p.(replacing := p.replacing - 1);
    if p.closing || |p.all| >= p.size then p else p.(opening := p.opening + 1)
  }

  /** The rest of `_replace`, with the new connection or with none. */
  function RegisterStep<C(==)>(p: Pool<C>, proto: Option<C>): Pool<C>
    requires p.opening > 0
  {
    var p := p.(opening := p.opening - 1);
    match proto
    case None => p.(reconnectFailed := p.reconnectFailed + 1)
    case Some(c) => p.(all := p.all + [c], free := p.free + [c], early := p.early - {c}, reconnects := p.reconnects + 1)
  }

  function DrainStep<C(==)>(e: Engine<C>): Engine<C> {
    if e.pool.inflight > 0 then e.(failed := Bump(e.failed, DRAIN_INCOMPLETE, e.pool.inflight)) else e
  }

  // ---- invariants ----

  /** The connections of the pool that still work. */
  ghost function Live<C>(p: Pool<C>): set<C> { Elements(p.all) - p.closed }

  /** The connections the pool has, and those that will be opened for it. */
  ghost function Places<C>(p: Pool<C>): int { |Live(p)| + p.replacing + Waiting(p) - |p.early| }

  /** The new connections that are waited for. */
  function Waiting<C(==)>(p: Pool<C>): nat { p.gathering + p.opening }

  /** `free` has exactly the working connections that are not busy, and `inflight` counts the busy ones. */
  ghost predicate Fits<C>(free: set<C>, all: set<C>, busy: set<C>, closed: set<C>, early: set<C>, inflight: int) {
    && free <= all - busy && all - closed - busy <= free
    && all * busy !! closed && inflight == |all * busy|
    && early <= closed && early !! all && early !! busy
  }

  ghost predicate Sound<C>(p: Pool<C>) {
    && NoDuplicates(p.free) && NoDuplicates(p.all)
    && Fits(Elements(p.free), Elements(p.all), p.busy, p.closed, p.early, p.inflight)
    && |p.early| <= Waiting(p) && Places(p) <= p.size
  }

  /** Every dispatched message is refused, answered, failed or in flight. */
  ghost predicate Balanced<C>(e: Engine<C>) {
    && Sound(e.pool)
    && e.dispatched == e.attempted + Get(e.failed, POOL_FULL) && e.blocked == Get(e.failed, POOL_FULL)
    && e.dispatched == e.accepted + Total(e.failed) + e.pool.inflight
    && DRAIN_INCOMPLETE !in e.failed
  }

  /** `connect` has asked for `size` connections. */
  function Connecting<C(==)>(size: nat): Engine<C> {
    Engine(Pool(size, [], [], {}, {}, 0, 0, 0, size, 0, {}, 0, 0, 0, false), 0, 0, 0, 0, map[])
  }

  /**
    The events of a run. A response comes for a request. A connection is lost once: while it is in the
    pool, or before `connect` or the replacement that opened it has registered it.
   */
  datatype Event<C(==)> =
    | Dispatch
    | Response(conn: C, status: int)
    | Lost(conn: C)
    | Joined(results: seq<Option<C>>)
    | Checked
    | Registered(proto: Option<C>)
    | Close

  predicate Fresh<C(==)>(p: Pool<C>, c: C) { c !in p.all && c !in p.busy && c !in p.closed }

  /** A new connection that is still waited for. */
  predicate Awaited<C(==)>(p: Pool<C>, c: C) { |p.early| < Waiting(p) && Fresh(p, c) }

  predicate Registrable<C(==)>(p: Pool<C>, proto: Option<C>) {
    p.opening > 0 && match proto
    case None => |p.early| < Waiting(p)
    case Some(c) => c in p.early || Awaited(p, c)
  }

  /** Connections that `connect` can have opened: new ones, all different, with those it still holds. */
  ghost predicate Joinable<C>(p: Pool<C>, cs: seq<C>) {
    && NoDuplicates(cs) && |cs| <= p.gathering
    && (forall c | c in cs :: c in p.early || Fresh(p, c)) && |p.early - Elements(cs)| <= p.opening
  }

  ghost predicate Enabled<C>(e: Engine<C>, ev: Event<C>) {
    var p := e.pool;
    match ev
    case Dispatch => true
    case Response(c, _) => c in p.all && c in p.busy
    case Lost(c) => (c in p.all && c !in p.closed) || Awaited(p, c)
    case Joined(results) => |results| == p.gathering && Joinable(p, Opened(results))
    case Checked => p.replacing > 0
    case Registered(proto) => Registrable(p, proto)
    case Close => true
  }

  ghost function Next<C>(e: Engine<C>, ev: Event<C>): Engine<C> {
    if !Enabled(e, ev) then e else
    match ev
    case Dispatch => DispatchStep(e)
    case Response(c, status) => ResponseStep(e, c, status)
    case Lost(c) => LoseStep(e, c)
    case Joined(results) => e.(pool := JoinStep(e.pool, Opened(results)))
    case Checked => e.(pool := CheckStep(e.pool))
    case Registered(proto) => e.(pool := RegisterStep(e.pool, proto))
    case Close => e.(pool := e.pool.(closing := true))
  }

  ghost function Run<C>(e: Engine<C>, evs: seq<Event<C>>): Engine<C>
    decreases |evs|
  {
    if evs == [] then e else Run(Next(e, evs[0]), evs[1..])
  }

  lemma SplitSet<C>(a: set<C>, b: set<C>)
    ensures |a| == |a * b| + |a - b|
  {
    assert a == a * b + (a - b);
  }

  /**
    The working connections are split between `free` and the requests in flight, and are never more than
    the size of the pool.
   */
  lemma FreeAndInflightMakeThePool<C>(p: Pool<C>)
    requires Sound(p)
    ensures |Elements(p.free) - p.closed| + p.inflight == |Live(p)| <= p.size
    ensures forall c | c in p.free :: c !in p.busy
  {
    SplitSet(Live(p), p.busy);
    assert Live(p) * p.busy == Elements(p.all) * p.busy;
    assert Live(p) - p.busy == Elements(p.free) - p.closed;
    forall c | c in p.free
      ensures c !in p.busy
    {
      assert c in Elements(p.free);
    }
  }

  lemma WithoutClosed<C>(s: seq<C>, closed: set<C>)
    requires NoDuplicates(s) && Elements(s) !! closed
    ensures |Elements(s) - closed| == |s|
  {
    DistinctCardinality(s);
    assert Elements(s) - closed == Elements(s);
  }

  /** Without a connection that was lost early this is all of `free` and all of the pool. */
  lemma WholePool<C>(p: Pool<C>)
    requires Sound(p) && Elements(p.all) !! p.closed
    ensures |p.free| + p.inflight == |p.all| <= p.size
  {
    FreeAndInflightMakeThePool(p);
    WithoutClosed(p.free, p.closed);
    WithoutClosed(p.all, p.closed);
  }

  lemma InFront<C>(x: C, r: seq<C>)
    requires NoDuplicates(r) && x !in Elements(r)
    ensures NoDuplicates([x] + r) && Elements([x] + r) == {x} + Elements(r)
  {
    assert forall y | y in r :: y in Elements(r);
  }

  lemma HeadAndTail<C>(s: seq<C>)
    requires NoDuplicates(s) && s != []
    ensures NoDuplicates(s[1..]) && s[0] !in Elements(s[1..]) && Elements(s) == {s[0]} + Elements(s[1..])
  {
  }

  lemma {:induction false} RemoveTakesOneOut<C>(s: seq<C>, c: C)
    requires NoDuplicates(s)
    ensures NoDuplicates(Remove(s, c)) && Elements(Remove(s, c)) == Elements(s) - {c}
  {
    if s != [] {
      HeadAndTail(s);
      if s[0] != c {
        RemoveTakesOneOut(s[1..], c);
        InFront(s[0], Remove(s[1..], c));
      }
    }
  }

  lemma AppendOne<C>(s: seq<C>, c: C)
    requires NoDuplicates(s) && c !in s
    ensures NoDuplicates(s + [c]) && Elements(s + [c]) == Elements(s) + {c}
  {
    assert forall i | 0 <= i < |s| :: (s + [c])[i] == s[i];
  }

  lemma SplitLast<C>(s: seq<C>)
    requires NoDuplicates(s) && s != []
    ensures var init, c := s[..|s| - 1], s[|s| - 1];
      NoDuplicates(init) && Elements(s) == Elements(init) + {c} && c !in Elements(init)
  {
    assert s == s[..|s| - 1] + [s[|s| - 1]];
  }

  lemma OneMoreCommon<C>(a: set<C>, b: set<C>, c: C)
    requires c in a && c !in b
    ensures a * (b + {c}) == a * b + {c} && |a * (b + {c})| == |a * b| + 1
  {
    assert a * (b + {c}) == a * b + {c};
  }

  lemma DiscardIsSound<C>(p: Pool<C>)
    requires Sound(p) && p.free != [] && p.free[|p.free| - 1] in p.closed
    ensures Sound(p.(free := p.free[..|p.free| - 1]))
    ensures Elements(p.free) <= p.closed <==> Elements(p.free[..|p.free| - 1]) <= p.closed
  {
    SplitLast(p.free);
  }

  lemma TakeIsSound<C>(p: Pool<C>, c: C)
    requires Sound(p) && p.free != [] && c == p.free[|p.free| - 1] && c !in p.closed
    ensures Sound(p.(free := p.free[..|p.free| - 1], busy := p.busy + {c}, inflight := p.inflight + 1))
    ensures c in p.all && c !in p.busy
  {
    SplitLast(p.free);
    assert c in Elements(p.all) && c in p.all;
    OneMoreCommon(Elements(p.all), p.busy, c);
  }

  /** `send` finds a connection exactly if one in `free` works, and takes an idle one that does. */
  lemma {:induction false} PlaceIsSound<C>(p: Pool<C>)
    requires Sound(p)
    ensures var sent := Place(p);
      && Sound(sent.pool)
      && (sent.conn.None? <==> Elements(p.free) <= p.closed)
      && sent.pool.inflight == p.inflight + (if sent.conn.Some? then 1 else 0)
      && (sent.conn.Some? ==>
            sent.conn.value in p.all && sent.conn.value !in p.busy + p.closed
              && sent.pool.busy == p.busy + {sent.conn.value})
      && sent.pool == p.(free := sent.pool.free, busy := sent.pool.busy, inflight := sent.pool.inflight)
    decreases |p.free|
  {
    if p.free != [] {
      var c := p.free[|p.free| - 1];
      if c in p.closed {
        DiscardIsSound(p);
        PlaceIsSound(p.(free := p.free[..|p.free| - 1]));
      } else {
        TakeIsSound(p, c);
        assert c in Elements(p.free);
      }
    }
  }

  /** The connection is the last one of `free` that works; it and the closed ones behind it are gone from there. */
  ghost predicate IsLastWorking<C>(p: Pool<C>, left: seq<C>, conn: Option<C>) {
    && left <= p.free && (forall i | |left| < i < |p.free| :: p.free[i] in p.closed)
    && match conn
       case None => left == [] && (p.free != [] ==> p.free[0] in p.closed)
       case Some(c) => |left| < |p.free| && p.free[|left|] == c && c !in p.closed
  }

  lemma {:induction false} SendTakesTheLast<C>(p: Pool<C>)
    ensures IsLastWorking(p, Place(p).pool.free, Place(p).conn)
    decreases |p.free|
  {
    if p.free != [] && p.free[|p.free| - 1] in p.closed {
      SendTakesTheLast(p.(free := p.free[..|p.free| - 1]));
    }
  }

  lemma RespondIsSound<C>(p: Pool<C>, c: C)
    requires Sound(p) && c in p.all && c in p.busy
    ensures Sound(Respond(p, c))
  {
    assert c in Elements(p.all);
    assert c !in Elements(p.free);
    AppendOne(p.free, c);
    assert Elements(p.all) * (p.busy - {c}) == Elements(p.all) * p.busy - {c};
  }

  lemma FitsWithout<C>(free: set<C>, all: set<C>, busy: set<C>, closed: set<C>, early: set<C>, inflight: int, c: C)
    requires Fits(free, all, busy, closed, early, inflight) && c in all && c !in closed
    ensures Fits(free - {c}, all - {c}, busy, closed + {c}, early, inflight - if c in busy then 1 else 0)
    ensures |all - {c} - (closed + {c})| == |all - closed| - 1
  {
    assert (all - {c}) * busy == all * busy - {c};
    assert all - {c} - (closed + {c}) == all - closed - {c};
  }

  /** A connection of the pool is lost. */
  lemma LoseIsSound<C>(p: Pool<C>, c: C)
    requires Sound(p) && c in p.all && c !in p.closed
    ensures Sound(LoseConn(p, c))
    ensures Places(LoseConn(p, c)) == Places(p) - if p.closing then 1 else 0
  {
    RemoveTakesOneOut(p.free, c);
    RemoveTakesOneOut(p.all, c);
    assert c in Elements(p.all);
    FitsWithout(Elements(p.free), Elements(p.all), p.busy, p.closed, p.early, p.inflight, c);
  }

  lemma FitsEarlyLoss<C>(free: set<C>, all: set<C>, busy: set<C>, closed: set<C>, early: set<C>, inflight: int, c: C)
    requires Fits(free, all, busy, closed, early, inflight) && c !in all && c !in closed && c !in busy
    ensures Fits(free - {c}, all - {c}, busy, closed + {c}, early + {c}, inflight)
    ensures |all - {c} - (closed + {c})| == |all - closed| && |early + {c}| == |early| + 1
  {
    assert all - {c} == all && free - {c} == free;
    assert all - (closed + {c}) == all - closed;
  }

  /** A new connection is lost before it is registered. */
  lemma LoseEarlyIsSound<C>(p: Pool<C>, c: C)
    requires Sound(p) && Awaited(p, c)
    ensures Sound(LoseConn(p, c))
    ensures Places(LoseConn(p, c)) == Places(p) - if p.closing then 1 else 0
  {
    RemoveTakesOneOut(p.free, c);
    RemoveTakesOneOut(p.all, c);
    FitsEarlyLoss(Elements(p.free), Elements(p.all), p.busy, p.closed, p.early, p.inflight, c);
  }

  lemma FitsWith<C>(free: set<C>, all: set<C>, busy: set<C>, closed: set<C>, early: set<C>, inflight: int, cs: set<C>)
    requires Fits(free, all, busy, closed, early, inflight)
    requires forall c | c in cs :: c !in all && c !in busy && (c in early || c !in closed)
    ensures Fits(free + cs, all + cs, busy, closed, early - cs, inflight) && free !! cs
    ensures |all + cs - closed| - |early - cs| == |all - closed| - |early| + |cs|
  {
    assert (all + cs) * busy == all * busy;
    assert all + cs - closed == (all - closed) + (cs - early);
    SplitSet(cs, early);
    SplitSet(early, cs);
    assert early * cs == cs * early;
  }

  lemma AppendAll<C>(s: seq<C>, more: seq<C>)
    requires NoDuplicates(s) && NoDuplicates(more) && Elements(s) !! Elements(more)
    ensures NoDuplicates(s + more) && Elements(s + more) == Elements(s) + Elements(more)
  {
    var all := s + more;
    forall i, j | 0 <= i < j < |all|
      ensures all[i] != all[j]
    {
      assert i < |s| ==> all[i] in Elements(s);
      assert j >= |s| ==> all[j] in Elements(more);
    }
  }

  /** Registered all the same, if it was lost early. */
  lemma RegisterOneIsSound<C>(p: Pool<C>, c: C)
    requires Sound(p) && p.opening > 0 && (c in p.early || Awaited(p, c))
    ensures Sound(RegisterStep(p, Some(c))) && Places(RegisterStep(p, Some(c))) == Places(p)
  {
    assert c !in Elements(p.all);
    FitsWith(Elements(p.free), Elements(p.all), p.busy, p.closed, p.early, p.inflight, {c});
    AppendOne(p.all, c);
    AppendOne(p.free, c);
  }

  /** So is all that `connect` opened; what it could not open is missing from then on. */
  lemma JoinIsSound<C>(p: Pool<C>, cs: seq<C>)
    requires Sound(p) && Joinable(p, cs)
    ensures Sound(JoinStep(p, cs)) && Places(JoinStep(p, cs)) + JoinStep(p, cs).missed == Places(p) + p.missed
  {
    forall c | c in Elements(cs)
      ensures c !in Elements(p.all) && c !in p.busy && (c in p.early || c !in p.closed)
    {
      assert c in cs;
    }
    FitsWith(Elements(p.free), Elements(p.all), p.busy, p.closed, p.early, p.inflight, Elements(cs));
    AppendAll(p.all, cs);
    AppendAll(p.free, cs);
    DistinctCardinality(cs);
    assert (set c | c in cs) == Elements(cs);
  }

  lemma RegisterIsSound<C>(p: Pool<C>, proto: Option<C>)
    requires Sound(p) && Registrable(p, proto)
    ensures Sound(RegisterStep(p, proto))
    ensures Places(RegisterStep(p, proto)) == Places(p) - if proto.None? then 1 else 0
  {
    if proto.Some? {
      RegisterOneIsSound(p, proto.value);
    }
  }

  /** A replacement finds the pool full only if it holds a connection that was lost early. */
  lemma FullMeansLostEarly<C>(p: Pool<C>)
    requires Sound(p) && p.replacing > 0 && |p.all| >= p.size
    ensures exists c :: c in p.all && c in p.closed
  {
    DistinctCardinality(p.all);
    SplitSet(Elements(p.all), p.closed);
    assert |Elements(p.all) * p.closed| > 0;
    var c :| c in Elements(p.all) * p.closed;
    assert c in p.all;
  }

  /** A response nobody asked for breaks the pool: this is exactly what the invariant excludes. */
  lemma OneResponsePerRequest<C>(p: Pool<C>, c: C)
    requires Sound(p) && c in p.all
    ensures Sound(Respond(p, c)) <==> c in p.busy
  {
    if c in p.busy {
      RespondIsSound(p, c);
    } else {
      assert p.busy - {c} == p.busy;
    }
  }

  lemma DispatchBalances<C>(e: Engine<C>)
    requires Balanced(e)
    ensures Balanced(DispatchStep(e))
  {
    PlaceIsSound(e.pool);
    TotalBump(e.failed, POOL_FULL, 1);
  }

  /** A result, of whatever status, raises exactly one counter by one. */
  lemma ResultCounts<C>(e: Engine<C>, status: int)
    ensures var r := Result(e, status);
      && r.accepted + Total(r.failed) == e.accepted + Total(e.failed) + 1
      && r == e.(accepted := r.accepted, failed := r.failed)
      && Get(r.failed, POOL_FULL) == Get(e.failed, POOL_FULL)
      && (DRAIN_INCOMPLETE in r.failed <==> DRAIN_INCOMPLETE in e.failed)
  {
    var reason := if status < 0 then CONN_LOST else HttpStatus(status);
    TotalBump(e.failed, reason, 1);
    ReasonsAreApart(if status < 0 then 0 else status, 0);
  }

  lemma ResponseBalances<C>(e: Engine<C>, c: C, status: int)
    requires Balanced(e) && c in e.pool.all && c in e.pool.busy
    ensures Balanced(ResponseStep(e, c, status))
  {
    RespondIsSound(e.pool, c);
    ResultCounts(e.(pool := Respond(e.pool, c)), status);
  }

  lemma LoseBalances<C>(e: Engine<C>, c: C)
    requires Balanced(e) && Enabled(e, Lost(c))
    ensures Balanced(LoseStep(e, c))
  {
    if c in e.pool.all {
      LoseIsSound(e.pool, c);
    } else {
      LoseEarlyIsSound(e.pool, c);
    }
    ResultCounts(e.(pool := LoseConn(e.pool, c)), -1);
    if c in e.pool.busy {
      assert c in e.pool.all;
    }
  }

  lemma StepBalances<C>(e: Engine<C>, ev: Event<C>)
    requires Balanced(e)
    ensures Balanced(Next(e, ev))
  {
    if Enabled(e, ev) {
      match ev
      case Dispatch => DispatchBalances(e);
      case Response(c, status) => ResponseBalances(e, c, status);
      case Lost(c) => LoseBalances(e, c);
      case Joined(results) => JoinIsSound(e.pool, Opened(results));
      case Checked =>
      case Registered(proto) => RegisterIsSound(e.pool, proto);
      case Close =>
    }
  }

  /** Conservation over every run, with lost connections, replacements and any statuses. */
  lemma {:induction false} RunsBalance<C>(e: Engine<C>, evs: seq<Event<C>>)
    requires Balanced(e)
    ensures Balanced(Run(e, evs))
    decreases |evs|
  {
    if evs != [] {
      StepBalances(e, evs[0]);
      RunsBalance(Next(e, evs[0]), evs[1..]);
    }
  }

  lemma ConnectingIsBalanced<C>(size: nat)
    ensures Balanced(Connecting<C>(size)) && Places(Connecting<C>(size).pool) == size
  {
  }

  /** After any run and `drain`, each dispatched message is in exactly one bucket. */
  lemma EveryMessageInOneBucket<C>(size: nat, evs: seq<Event<C>>)
    ensures var d := DrainStep(Run(Connecting(size), evs));
      && d.dispatched == d.accepted + Total(d.failed)
      && d.dispatched == d.attempted + Get(d.failed, POOL_FULL)
      && Get(d.failed, DRAIN_INCOMPLETE) == d.pool.inflight
  {
    ConnectingIsBalanced<C>(size);
    RunsBalance(Connecting(size), evs);
    var e := Run(Connecting(size), evs);
    TotalBump(e.failed, DRAIN_INCOMPLETE, if e.pool.inflight > 0 then e.pool.inflight else 0);
  }

  // ---- the classes ----

  class HttpConnection {
    var buf: seq<byte>
    var busy: bool
    var closed: bool
    var sent: nat // requests written

    constructor ()
      ensures buf == [] && !busy && !closed && sent == 0
    {
      buf, busy, closed, sent := [], false, false, 0;
    }

    method Send()
      modifies this`busy, this`sent
      ensures busy && sent == old(sent) + 1
    {
      busy := true;
      sent := sent + 1;
    }
  }

  ghost function Busy(known: set<HttpConnection>): set<HttpConnection>
    reads known
  {
    set c | c in known && c.busy
  }

  ghost function Closed(known: set<HttpConnection>): set<HttpConnection>
    reads known
  {
    set c | c in known && c.closed
  }

  /** `RawHttpClient` with the sender it reports to. */
  class RawHttpSender {
    const heads: Heads
    const size: nat
    var free: seq<HttpConnection>
    var all: seq<HttpConnection>
    var inflight: int
    var lost: nat
    var replacing: nat
    var opening: nat
    var reconnects: nat
    var reconnectFailed: nat
    var closing: bool

    var dispatched: nat
    var attempted: nat
    var accepted: nat
    var blocked: nat
    var failed: map<string, nat>

    ghost var known: set<HttpConnection> // every connection that was ever in the pool, or was lost
    ghost var early: set<HttpConnection> // those that were lost before they were in the pool
    ghost var gathering: nat // how many `connect` is waiting for
    ghost var missed: nat // how many it could not open

    /** The part that the client keeps. */
    ghost function PoolView(): Pool<HttpConnection>
      reads this, known
    {
      Pool(size, free, all, Busy(known), Closed(known), inflight, lost, replacing, gathering, opening, early, missed,
           reconnects, reconnectFailed, closing)
    }

    ghost function View(): Engine<HttpConnection>
      reads this, known
    {
      Engine(PoolView(), dispatched, attempted, accepted, blocked, failed)
    }

    ghost predicate Valid()
      reads this, known
    {
      && (forall c | c in free :: c in known)
      && (forall c | c in all :: c in known)
    }

    constructor (heads: Heads, size: nat)
      ensures Valid() && View() == Connecting(size) && this.heads == heads
    {
      this.heads, this.size := heads, size;
      free, all, gathering := [], [], size;
      inflight, lost, replacing, opening, missed, reconnects, reconnectFailed := 0, 0, 0, 0, 0, 0, 0;
      closing, early, known := false, {}, {};
      dispatched, attempted, accepted, blocked, failed := 0, 0, 0, 0, map[];
    }

    /** `connect`, from the end of `gather` on; returns the number of connections it believes to be open. */
    method ConnectEnds(results: seq<Option<HttpConnection>>) returns (ok: nat)
      requires Valid() && |Opened(results)| <= gathering
      requires forall c | c in Opened(results) && c !in known :: !c.busy && !c.closed
      modifies this`all, this`free, this`known, this`early, this`gathering, this`missed
      ensures Valid() && PoolView() == JoinStep(old(PoolView()), Opened(results))
      ensures ok == |all| == |old(all)| + |Opened(results)|
    {
      Gather(Opened(results));
      Append(results);
      ok := |all|;
    }

    ghost method Gather(cs: seq<HttpConnection>)
      requires Valid() && |cs| <= gathering && forall c | c in cs && c !in known :: !c.busy && !c.closed
      modifies this`known, this`early, this`gathering, this`missed
      ensures PoolView() == Gathered(old(PoolView()), cs) && known == old(known) + set c | c in cs
    {
      var busy, closed := Busy(known), Closed(known);
      missed := missed + gathering - |cs|;
      gathering := 0;
      early := early - set c | c in cs;
      known := known + set c | c in cs;
      assert Busy(known) == busy && Closed(known) == closed;
    }

    /** The loop over the results. */
    method Append(results: seq<Option<HttpConnection>>)
      modifies this`all, this`free
      ensures all == old(all) + Opened(results) && free == old(free) + Opened(results)
    {
      for i := 0 to |results|
        invariant all + Opened(results[i..]) == old(all) + Opened(results)
        invariant free + Opened(results[i..]) == old(free) + Opened(results)
      {
        assert results[i..][1..] == results[i + 1..];
        if results[i].Some? {
          Associative(all, [results[i].value], Opened(results[i + 1..]));
          Associative(free, [results[i].value], Opened(results[i + 1..]));
          all := all + [results[i].value];
          free := free + [results[i].value];
        }
      }
    }

    /** `send`: closed connections are discarded until one is found that is not. */
    method Send() returns (ok: bool)
      requires Valid()
      modifies this`free, this`inflight, known
      ensures Valid() && PoolView() == Place(old(PoolView())).pool
      ensures ok <==> Place(old(PoolView())).conn.Some?
    {
      ghost var start := PoolView();
      while free != []
        invariant Valid() && unchanged(known) && Place(PoolView()) == Place(start)
        decreases |free|
      {
        ghost var before := PoolView();
        var c := free[|free| - 1];
        free := free[..|free| - 1];
        if c.closed {
          assert PoolView() == before.(free := free);
          continue;
        }
        c.Send();
        inflight := inflight + 1;
        assert PoolView().busy == before.busy + {c};
        assert PoolView().closed == before.closed;
        return true;
      }
      return false;
    }

    /** `dispatch`, and the count of the message in `run_schedule`. */
    method Dispatch()
      requires Valid()
      modifies this, known
      ensures Valid() && View() == DispatchStep(old(View())) && known == old(known)
    {
      var ok := Send();
      dispatched := dispatched + 1;
      if !ok {
        blocked := blocked + 1;
        failed := Bump(failed, POOL_FULL, 1);
        return;
      }
      attempted := attempted + 1;
    }

    method OnResult(status: int)
      modifies this`accepted, this`failed
      ensures View() == Result(old(View()), status)
    {
      if status < 0 {
        failed := Bump(failed, CONN_LOST, 1);
      } else if 200 <= status < 300 {
        accepted := accepted + 1;
      } else {
        failed := Bump(failed, HttpStatus(status), 1);
      }
    }

    /** The end of `drain`: the wait is over, whatever is in flight is given up. */
    method Drain()
      requires Valid()
      modifies this`failed
      ensures Valid() && View() == DrainStep(old(View()))
    {
      if inflight > 0 {
        failed := Bump(failed, DRAIN_INCOMPLETE, inflight);
      }
    }

    /** One response: the part of `data_received` behind the framing, and `on_response`. */
    method OnResponse(conn: HttpConnection, status: int)
      requires Valid() && conn in known
      modifies this`inflight, this`free, this`accepted, this`failed, conn`busy
      ensures Valid() && View() == ResponseStep(old(View()), conn, status) && known == old(known)
    {
      ghost var before := PoolView();
      conn.busy := false;
      inflight := inflight - 1;
      free := free + [conn];
      assert PoolView().busy == before.busy - {conn};
      assert PoolView().closed == before.closed;
      OnResult(status);
    }

    /** The flag of the connection, and what is known of it. */
    method MarkClosed(conn: HttpConnection)
      requires Valid() && (conn in known || !conn.busy)
      modifies this`known, this`early, conn`closed
      ensures Valid() && PoolView() == Shut(old(PoolView()), conn) && known == old(known) + {conn}
      ensures conn.busy <==> conn in PoolView().busy
    {
      ghost var after := Shut(PoolView(), conn);
      conn.closed := true;
      known := known + {conn};
      early := if conn in all then early else early + {conn};
      assert Busy(known) == after.busy && Closed(known) == after.closed;
    }

    method TakeOut(conn: HttpConnection)
      requires Valid() && (conn.busy <==> conn in PoolView().busy)
      modifies this`lost, this`inflight, this`free, this`all, this`replacing
      ensures Valid() && PoolView() == TakenOut(old(PoolView()), conn)
    {
      RemoveKeeps(free, conn);
      RemoveKeeps(all, conn);
      lost := lost + 1;
      if conn.busy {
        inflight := inflight - 1;
      }
      free := Remove(free, conn);
      all := Remove(all, conn);
      if !closing {
        replacing := replacing + 1;
      }
    }

    /** `connection_lost`, of a connection of the pool or of a new one that is not registered yet. */
    method OnConnLost(conn: HttpConnection)
      requires Valid() && (conn in known || !conn.busy)
      modifies this, conn`closed
      ensures Valid() && View() == LoseStep(old(View()), conn) && known == old(known) + {conn}
    {
      MarkClosed(conn);
      TakeOut(conn);
      if conn.busy {
        OnResult(-1);
      }
    }

    /** `_replace`, until it waits for its connection or gives up. */
    method ReplaceBegins()
      requires Valid() && replacing > 0
      modifies this`replacing, this`opening
      ensures Valid() && PoolView() == CheckStep(old(PoolView()))
    {
      replacing := replacing - 1;
      if closing || |all| >= size {
        return;
      }
      opening := opening + 1;
    }

    /** `_replace`, from when its connection is there, or could not be opened. */
    method ReplaceEnds(proto: HttpConnection?)
      requires Valid() && opening > 0
      requires proto != null && proto !in known ==> !proto.busy && !proto.closed
      modifies this`all, this`free, this`known, this`early, this`opening, this`reconnects, this`reconnectFailed
      ensures Valid()
      ensures PoolView() == RegisterStep(old(PoolView()), if proto == null then None else Some(proto))
    {
      ghost var before := PoolView();
      opening := opening - 1;
      if proto == null {
        reconnectFailed := reconnectFailed + 1;
        return;
      }
      all := all + [proto];
      free := free + [proto];
      reconnects := reconnects + 1;
      known := known + {proto};
      early := early - {proto};
      assert PoolView().busy == before.busy;
      assert PoolView().closed == before.closed;
    }

    /** Bytes from the server: the framing loop, then the callbacks it makes, in order. */
    method OnData(conn: HttpConnection, data: seq<byte>)
      requires Valid() && conn in known
      modifies this, conn`buf, conn`busy
      ensures Valid() && known == old(known)
      ensures var i := Handle(heads, old(conn.buf) + data);
        conn.buf == i.rest && View() == RespondAll(old(View()), conn, i.statuses)
    {
      var i := HandleResponses(heads, conn.buf + data);
      ghost var start := View();
      conn.buf := i.rest;
      assert PoolView().busy == start.pool.busy && PoolView().closed == start.pool.closed;
      for k := 0 to |i.statuses|
        invariant Valid() && known == old(known) && conn.buf == i.rest
        invariant RespondAll(start, conn, i.statuses) == RespondAll(View(), conn, i.statuses[k..])
      {
        assert i.statuses[k..][1..] == i.statuses[k + 1..];
        OnResponse(conn, i.statuses[k]);
      }
      assert i.statuses[|i.statuses|..] == [];
    }
  }

  function RespondAll<C(==)>(e: Engine<C>, c: C, statuses: seq<int>): Engine<C>
    decreases |statuses|
  {
    if statuses == [] then e else RespondAll(ResponseStep(e, c, statuses[0]), c, statuses[1..])
  }

  lemma {:induction false} RemoveKeeps<C>(s: seq<C>, c: C)
    ensures forall x | x in Remove(s, c) :: x in s
  {
    if s != [] && s[0] != c {
      RemoveKeeps(s[1..], c);
    }
  }
}
