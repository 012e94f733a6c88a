/**
  Which counter an HTTP request ends in: over every run of the pool, each counter is the number of
  answers and losses that belong to it.
 */
module HttpReasons {
  import opened Wrappers
  import opened MapSums
  import opened Sequences
  import opened Sums
  import opened HttpPool

  /** What an event tells the sender about a request: a status, or -1 for a connection lost with a request on it. */
  ghost function Told<C>(e: Engine<C>, ev: Event<C>): seq<int> {
    if !Enabled(e, ev) then [] else
    match ev
    case Response(_, status) => [status]
    case Lost(c) => if c in e.pool.busy then [-1] else []
    case _ => []
  }

  ghost function ToldIn<C>(e: Engine<C>, evs: seq<Event<C>>): seq<int>
    decreases |evs|
  {
    if evs == [] then [] else Told(e, evs[0]) + ToldIn(Next(e, evs[0]), evs[1..])
  }

  /** The messages for which no connection in `free` works. */
  ghost function Refused<C>(e: Engine<C>, evs: seq<Event<C>>): nat
    decreases |evs|
  {
    if evs == [] then 0 else
    (if evs[0].Dispatch? && Elements(e.pool.free) <= e.pool.closed then 1 else 0) + Refused(Next(e, evs[0]), evs[1..])
  }

  predicate IsSuccess(status: int) { 200 <= status <= 299 }

  function Equals(status: int): int -> bool { (s: int) => s == status }

  predicate IsLoss(status: int) { status < 0 }

  /** The counters after `told`, counted from those before. */
  ghost predicate CountedAs<C>(e: Engine<C>, e': Engine<C>, told: seq<int>) {
    && e'.accepted == e.accepted + Count(IsSuccess, told)
    && Get(e'.failed, "conn_lost") == Get(e.failed, "conn_lost") + Count(IsLoss, told)
    && forall status: nat | !IsSuccess(status) ::
         Get(e'.failed, HttpStatus(status)) == Get(e.failed, HttpStatus(status)) + Count(Equals(status), told)
  }

  lemma ResultIsCounted<C>(e: Engine<C>, e': Engine<C>, status: int)
    requires e'.accepted == Result(e, status).accepted && e'.failed == Result(e, status).failed
    ensures CountedAs(e, e', [status])
    ensures Get(e'.failed, POOL_FULL) == Get(e.failed, POOL_FULL)
  {
    forall other: nat
      ensures HttpStatus(other) != CONN_LOST && HttpStatus(other) != POOL_FULL
      ensures status >= 0 ==> (HttpStatus(status) == HttpStatus(other) <==> status == other)
    {
      ReasonsAreApart(other, other);
      if status >= 0 {
        ReasonsAreApart(status, other);
      }
    }
    ReasonsAreApart(0, 0);
    CountOne(IsSuccess, status);
    CountOne(IsLoss, status);
    forall other: nat
      ensures Count(Equals(other), [status]) == if status == other then 1 else 0
    {
      CountOne(Equals(other), status);
    }
  }

  lemma NothingIsCounted<C>(e: Engine<C>, e': Engine<C>)
    requires e'.accepted == e.accepted
    requires forall r | r != POOL_FULL :: Get(e'.failed, r) == Get(e.failed, r)
    ensures CountedAs(e, e', [])
  {
    forall status: nat
      ensures HttpStatus(status) != POOL_FULL
    {
      ReasonsAreApart(status, status);
    }
    ReasonsAreApart(0, 0);
  }

  lemma StepIsCounted<C>(e: Engine<C>, ev: Event<C>)
    requires Balanced(e)
    ensures CountedAs(e, Next(e, ev), Told(e, ev))
    ensures Get(Next(e, ev).failed, "pool_full") == Get(e.failed, "pool_full")
      + if ev.Dispatch? && Elements(e.pool.free) <= e.pool.closed then 1 else 0
  {
    var e' := Next(e, ev);
    if Enabled(e, ev) && ev.Response? {
      ResultIsCounted(e, e', ev.status);
    } else if Enabled(e, ev) && ev.Lost? && ev.conn in e.pool.busy {
      ResultIsCounted(e, e', -1);
    } else {
      PlaceIsSound(e.pool);
      NothingIsCounted(e, e');
    }
  }

  lemma CountedTwice<C>(e: Engine<C>, mid: Engine<C>, e': Engine<C>, a: seq<int>, b: seq<int>)
    requires CountedAs(e, mid, a) && CountedAs(mid, e', b)
    ensures CountedAs(e, e', a + b)
  {
    CountAppend(IsSuccess, a, b);
    CountAppend(IsLoss, a, b);
    forall status: nat | !IsSuccess(status)
      ensures Get(e'.failed, HttpStatus(status))
        == Get(e.failed, HttpStatus(status)) + Count(Equals(status), a + b)
    {
      CountAppend(Equals(status), a, b);
    }
  }

  /**
    Over every run: accepted are the answers from 200 to 299, `conn_lost` the connections lost with a request
    on them, `http_s` the other answers with status s, and `pool_full` the messages no connection was free for.
   */
  lemma {:induction false} CountersAreTheAnswers<C>(e: Engine<C>, evs: seq<Event<C>>)
    requires Balanced(e)
    ensures CountedAs(e, Run(e, evs), ToldIn(e, evs))
    ensures Get(Run(e, evs).failed, "pool_full") == Get(e.failed, "pool_full") + Refused(e, evs)
    decreases |evs|
  {
    if evs == [] {
      NothingIsCounted(e, e);
    } else {
      StepIsCounted(e, evs[0]);
      StepBalances(e, evs[0]);
      CountersAreTheAnswers(Next(e, evs[0]), evs[1..]);
      CountedTwice(e, Next(e, evs[0]), Run(e, evs), Told(e, evs[0]), ToldIn(Next(e, evs[0]), evs[1..]));
    }
  }

  /** Two answers as they are written in the report. */
  lemma StatusNames()
    ensures HttpStatus(404) == "http_404" && HttpStatus(503) == "http_503" && HttpStatus(0) == "http_0"
  {
    assert Decimal(40) == "40" && Decimal(50) == "50";
  }
}
