/**
  The places of the HTTP pool: when every connection that is lost is made up for, and when its place is
  gone for good.
 */
module HttpPlaces {
  import opened Wrappers
  import opened HttpPool
  import opened Sequences

  /** 1 if a replacement finds the pool full and gives up. */
  function FullCheck<C(==)>(e: Engine<C>, ev: Event<C>): nat {
    if ev.Checked? && e.pool.replacing > 0 && |e.pool.all| >= e.pool.size then 1 else 0
  }

  ghost function FullChecks<C>(e: Engine<C>, evs: seq<Event<C>>): nat
    decreases |evs|
  {
    if evs == [] then 0 else FullCheck(e, evs[0]) + FullChecks(Next(e, evs[0]), evs[1..])
  }

  /** The places of the pool, with those that no connection could be opened for. */
  ghost function Unfilled<C>(p: Pool<C>): int { Places(p) + p.missed + p.reconnectFailed }

  lemma DispatchKeepsPlaces<C>(e: Engine<C>)
    requires Balanced(e)
    ensures var p := DispatchStep(e).pool; p.closing == e.pool.closing && Unfilled(p) == Unfilled(e.pool)
  {
    PlaceIsSound(e.pool);
  }

  lemma LossKeepsPlaces<C>(e: Engine<C>, c: C)
    requires Balanced(e) && Enabled(e, Lost(c)) && !e.pool.closing
    ensures var p := LoseStep(e, c).pool; !p.closing && Unfilled(p) == Unfilled(e.pool)
  {
    ResultCounts(e.(pool := LoseConn(e.pool, c)), -1);
    LostPlace(e.pool, c);
  }

  lemma LostPlace<C>(p: Pool<C>, c: C)
    requires Sound(p) && !p.closing && ((c in p.all && c !in p.closed) || Awaited(p, c))
    ensures Places(LoseConn(p, c)) == Places(p)
  {
    if c in p.all { LoseIsSound(p, c); } else { LoseEarlyIsSound(p, c); }
  }

  lemma ResponseKeepsPlaces<C>(e: Engine<C>, c: C, status: int)
    ensures var p := ResponseStep(e, c, status).pool; p.closing == e.pool.closing && Unfilled(p) == Unfilled(e.pool)
  {
    ResultCounts(e.(pool := Respond(e.pool, c)), status);
  }

  lemma CheckKeepsPlaces<C>(e: Engine<C>)
    requires e.pool.replacing > 0 && !e.pool.closing
    ensures var p := CheckStep(e.pool); !p.closing && Unfilled(p) + FullCheck(e, Checked) == Unfilled(e.pool)
  {
  }

  lemma RegisterKeepsPlaces<C>(p: Pool<C>, proto: Option<C>)
    requires Sound(p) && Registrable(p, proto)
    ensures RegisterStep(p, proto).closing == p.closing && Unfilled(RegisterStep(p, proto)) == Unfilled(p)
  {
    RegisterIsSound(p, proto);
  }

  lemma JoinKeepsPlaces<C>(p: Pool<C>, cs: seq<C>)
    requires Sound(p) && Joinable(p, cs)
    ensures JoinStep(p, cs).closing == p.closing && Unfilled(JoinStep(p, cs)) == Unfilled(p)
  {
    JoinIsSound(p, cs);
  }

  lemma StepKeepsPlaces<C>(e: Engine<C>, ev: Event<C>)
    requires Balanced(e) && !e.pool.closing && !ev.Close?
    ensures var p := Next(e, ev).pool; !p.closing && Unfilled(p) + FullCheck(e, ev) == Unfilled(e.pool)
  {
    if Enabled(e, ev) {
      match ev
      case Dispatch => DispatchKeepsPlaces(e);
      case Response(c, status) => ResponseKeepsPlaces(e, c, status);
      case Lost(c) => LossKeepsPlaces(e, c);
      case Joined(results) => JoinKeepsPlaces(e.pool, Opened(results));
      case Checked => CheckKeepsPlaces(e);
      case Registered(proto) => RegisterKeepsPlaces(e.pool, proto);
    }
  }

  /**
    Until the pool is closed no place gets lost: what is missing from it could not be opened, at first or
    later, or was given up by a replacement that found the pool full.
   */
  lemma {:induction false} PlacesAreConserved<C>(e: Engine<C>, evs: seq<Event<C>>)
    requires Balanced(e) && !e.pool.closing && forall ev | ev in evs :: !ev.Close?
    ensures Unfilled(Run(e, evs).pool) + FullChecks(e, evs) == Unfilled(e.pool)
    decreases |evs|
  {
    if evs != [] {
      var ev, rest := evs[0], evs[1..];
      assert ev in evs && forall r | r in rest :: r in evs;
      StepKeepsPlaces(e, ev);
      StepBalances(e, ev);
      PlacesAreConserved(Next(e, ev), rest);
    }
  }

  /** No connection is lost before it is registered. */
  ghost predicate NoneLostEarly<C>(e: Engine<C>, evs: seq<Event<C>>)
    decreases |evs|
  {
    evs == [] || ((evs[0].Lost? ==> evs[0].conn in e.pool.all) && NoneLostEarly(Next(e, evs[0]), evs[1..]))
  }

  /** Every connection of the pool works. */
  ghost predicate AllLive<C>(p: Pool<C>) { Elements(p.all) !! p.closed && p.early == {} }

  lemma JoinedAllLive<C>(p: Pool<C>, cs: seq<C>)
    requires AllLive(p) && Joinable(p, cs)
    ensures AllLive(JoinStep(p, cs))
  {
    assert Elements(p.all + cs) == Elements(p.all) + Elements(cs);
    assert forall c | c in Elements(cs) :: c in cs;
  }

  lemma LossKeepsAllLive<C>(e: Engine<C>, c: C)
    requires Balanced(e) && AllLive(e.pool) && c in e.pool.all
    ensures AllLive(LoseStep(e, c).pool)
  {
    ResultCounts(e.(pool := LoseConn(e.pool, c)), -1);
    RemoveTakesOneOut(e.pool.all, c);
  }

  lemma RegisterKeepsAllLive<C>(p: Pool<C>, proto: Option<C>)
    requires AllLive(p) && Registrable(p, proto)
    ensures AllLive(RegisterStep(p, proto))
  {
    if proto.Some? {
      assert Elements(p.all + [proto.value]) == Elements(p.all) + {proto.value};
    }
  }

  lemma StepKeepsAllLive<C>(e: Engine<C>, ev: Event<C>)
    requires Balanced(e) && AllLive(e.pool) && (ev.Lost? ==> ev.conn in e.pool.all)
    ensures AllLive(Next(e, ev).pool)
  {
    if Enabled(e, ev) {
      match ev
      case Dispatch => PlaceIsSound(e.pool);
      case Response(c, status) => ResultCounts(e.(pool := Respond(e.pool, c)), status);
      case Lost(c) => LossKeepsAllLive(e, c);
      case Joined(results) => JoinedAllLive(e.pool, Opened(results));
      case Checked =>
      case Registered(proto) => RegisterKeepsAllLive(e.pool, proto);
      case Close =>
    }
  }

  /** Then no replacement ever finds the pool full: a place is missing only if a reconnect failed. */
  lemma {:induction false} NoneGivenUp<C>(e: Engine<C>, evs: seq<Event<C>>)
    requires Balanced(e) && AllLive(e.pool) && NoneLostEarly(e, evs)
    ensures FullChecks(e, evs) == 0 && AllLive(Run(e, evs).pool)
    decreases |evs|
  {
    if evs != [] {
      if evs[0].Checked? && e.pool.replacing > 0 {
        WholePool(e.pool);
        assert Live(e.pool) == Elements(e.pool.all);
        DistinctCardinality(e.pool.all);
      }
      StepBalances(e, evs[0]);
      StepKeepsAllLive(e, evs[0]);
      NoneGivenUp(Next(e, evs[0]), evs[1..]);
    }
  }

  /** From the start: as many places as were asked for, less those that could not be opened or reopened. */
  lemma ThePoolIsRefilled<C>(size: nat, evs: seq<Event<C>>)
    requires NoneLostEarly(Connecting(size), evs) && forall ev | ev in evs :: !ev.Close?
    ensures var p := Run(Connecting(size), evs).pool;
      && |p.all| + p.replacing + Waiting(p) == size - p.missed - p.reconnectFailed
      && |p.free| + p.inflight == |p.all|
  {
    var e := Connecting<C>(size);
    ConnectingIsBalanced<C>(size);
    NoneGivenUp(e, evs);
    PlacesAreConserved(e, evs);
    RunsBalance(e, evs);
    var p := Run(e, evs).pool;
    WholePool(p);
    DistinctCardinality(p.all);
    assert Live(p) == Elements(p.all);
  }

  /** No connection works, and none is on its way. */
  ghost predicate Dead<C>(p: Pool<C>) {
    Live(p) == {} && p.replacing == 0 && p.gathering == 0 && p.opening == 0 && p.early == {}
  }

  lemma AllAreClosed<C>(p: Pool<C>, c: C)
    requires Sound(p) && Live(p) == {} && c in p.all
    ensures c in p.closed && c !in p.busy
  {
    assert c in Elements(p.all) && c !in Live(p);
  }

  lemma NothingIsSent<C>(p: Pool<C>)
    requires Sound(p) && Dead(p)
    ensures Place(p).conn == None && Dead(Place(p).pool)
  {
    PlaceIsSound(p);
    assert Elements(p.free) <= p.closed by {
      assert Elements(p.free) <= Elements(p.all);
      assert forall c | c in Elements(p.all) :: c !in Live(p);
    }
  }

  lemma NothingJoins<C>(p: Pool<C>, cs: seq<C>)
    requires Dead(p) && |cs| == 0
    ensures Dead(JoinStep(p, cs))
  {
    assert p.all + cs == p.all;
  }

  lemma NothingHappens<C>(e: Engine<C>, ev: Event<C>)
    requires Balanced(e) && Dead(e.pool)
    ensures Dead(Next(e, ev).pool) && Next(e, ev).attempted == e.attempted
  {
    if Enabled(e, ev) {
      match ev
      case Dispatch => NothingIsSent(e.pool);
      case Joined(results) => NothingJoins(e.pool, Opened(results));
      case Response(c, _) => AllAreClosed(e.pool, c);
      case Lost(c) => if c in e.pool.all { AllAreClosed(e.pool, c); }
      case Checked =>
      case Registered(_) =>
      case Close =>
    }
  }

  /** A dead pool refuses every message from then on. */
  lemma {:induction false} NoPlacesNoMessages<C>(e: Engine<C>, evs: seq<Event<C>>)
    requires Balanced(e) && Dead(e.pool)
    ensures Run(e, evs).attempted == e.attempted
    decreases |evs|
  {
    if evs != [] {
      NothingHappens(e, evs[0]);
      StepBalances(e, evs[0]);
      NoPlacesNoMessages(Next(e, evs[0]), evs[1..]);
    }
  }

  // ---- connections that are lost early ----

  lemma {:induction false} RunLast<C>(e: Engine<C>, evs: seq<Event<C>>, ev: Event<C>)
    ensures Run(e, evs + [ev]) == Next(Run(e, evs), ev)
    decreases |evs|
  {
    if evs == [] {
      assert evs + [ev] == [ev] && [ev][1..] == [];
    } else {
      assert (evs + [ev])[0] == evs[0] && (evs + [ev])[1..] == evs[1..] + [ev];
      RunLast(Next(e, evs[0]), evs[1..], ev);
    }
  }

  /** One more event of a run whose end is known. */
  lemma RunThen<C>(e: Engine<C>, evs: seq<Event<C>>, ev: Event<C>, mid: Engine<C>, end: Engine<C>)
    requires Run(e, evs) == mid && Next(mid, ev) == end
    ensures Run(e, evs + [ev]) == end
  {
    RunLast(e, evs, ev);
  }

  /** A pool in which no message was sent, `conns` are all free and no reconnect has failed. */
  function Idle<C>(size: nat, conns: seq<C>, closed: set<C>, lost: nat, replacing: nat, gathering: nat, opening: nat,
                   early: set<C>, reconnects: nat): Engine<C> {
    Engine(
      Pool(size, conns, conns, {}, closed, 0, lost, replacing, gathering, opening, early, 0, reconnects, 0, false),
      0, 0, 0, 0, map[])
  }

  lemma {:induction false} NothingToRemove<C>(s: seq<C>, c: C)
    requires c !in s
    ensures Remove(s, c) == s
  {
    if s != [] {
      NothingToRemove(s[1..], c);
    }
  }

  lemma NewIsLost<C>(size: nat, conns: seq<C>, closed: set<C>, lost: nat, replacing: nat, gathering: nat, opening: nat,
                     early: set<C>, reconnects: nat, c: C)
    requires c !in conns && c !in closed && |early| < gathering + opening
    ensures Next(Idle(size, conns, closed, lost, replacing, gathering, opening, early, reconnects), Lost(c))
      == Idle(size, conns, closed + {c}, lost + 1, replacing + 1, gathering, opening, early + {c}, reconnects)
  {
    NothingToRemove(conns, c);
  }

  lemma FirstIsLost<C>(size: nat, conns: seq<C>, closed: set<C>, lost: nat, replacing: nat, gathering: nat,
                       opening: nat,
                       early: set<C>, reconnects: nat)
    requires conns != [] && conns[0] !in closed
    ensures Next(Idle(size, conns, closed, lost, replacing, gathering, opening, early, reconnects), Lost(conns[0]))
      == Idle(size, conns[1..], closed + {conns[0]}, lost + 1, replacing + 1, gathering, opening, early, reconnects)
  {
  }

  lemma RoomIsFound<C>(size: nat, conns: seq<C>, closed: set<C>, lost: nat, replacing: nat, gathering: nat,
                       opening: nat,
                       early: set<C>, reconnects: nat)
    requires replacing > 0
    ensures Next(Idle(size, conns, closed, lost, replacing, gathering, opening, early, reconnects), Checked)
      == Idle(size, conns, closed, lost, replacing - 1, gathering, if |conns| >= size then opening else opening + 1,
              early, reconnects)
  {
  }

  lemma OpenedOne<C>(a: C)
    ensures Opened([Some(a)]) == [a]
  {
    assert [Some(a)][1..] == [];
  }

  lemma OpenedTwo<C>(a: C, b: C)
    ensures Opened([Some(a), Some(b)]) == [a, b]
  {
    OpenedOne(b);
    assert [Some(a), Some(b)][1..] == [Some(b)];
  }

  lemma OneJoins<C>(size: nat, conns: seq<C>, closed: set<C>, lost: nat, replacing: nat, gathering: nat, opening: nat,
                    early: set<C>, reconnects: nat, c: C)
    requires opening > 0 && c !in conns && (c in early || (c !in closed && |early| < gathering + opening))
    ensures Next(Idle(size, conns, closed, lost, replacing, gathering, opening, early, reconnects), Registered(Some(c)))
      == Idle(size, conns + [c], closed, lost, replacing, gathering, opening - 1, early - {c}, reconnects + 1)
  {
  }

  lemma {:induction false} AllJoin<C>(size: nat, conns: seq<C>, closed: set<C>, lost: nat, replacing: nat, opening: nat,
                                      early: set<C>,
                   reconnects: nat, results: seq<Option<C>>, cs: seq<C>)
    requires cs == Opened(results) && |results| == |cs| && NoDuplicates(cs) && early <= Elements(cs)
    requires forall c | c in cs :: c !in conns && (c in early || c !in closed)
    ensures Next(Idle(size, conns, closed, lost, replacing, |cs|, opening, early, reconnects), Joined(results))
      == Idle(size, conns + cs, closed, lost, replacing, 0, opening, {}, reconnects)
  {
    assert early - Elements(cs) == {} && early - (set c | c in cs) == {};
  }

  /** A pool of one: its connection is lost, and so is the next before it is registered. */
  function LostEarly<C>(a: C, b: C): seq<Event<C>> {
    [Joined([Some(a)])] + [Lost(a)] + [Checked] + [Lost(b)] + [Registered(Some(b))] + [Checked]
  }

  lemma FirstIsReplaced<C>(a: C)
    ensures Run(Connecting(1), [Joined([Some(a)])] + [Lost(a)] + [Checked]) == Idle(1, [], {a}, 1, 0, 0, 1, {}, 0)
  {
    var e: Engine<C>, evs: seq<Event<C>> := Connecting(1), [];
    OpenedOne(a);
    AllJoin(1, [], {}, 0, 0, 0, {}, 0, [Some(a)], [a]);
    assert [] + [a] == [a] && evs + [Joined([Some(a)])] == [Joined([Some(a)])];
    RunThen(e, evs, Joined([Some(a)]), e, Idle(1, [a], {}, 0, 0, 0, 0, {}, 0));
    evs := [Joined([Some(a)])];
    FirstIsLost(1, [a], {}, 0, 0, 0, 0, {}, 0);
    assert [a][1..] == [] && {} + {a} == {a};
    RunThen(e, evs, Lost(a), Idle(1, [a], {}, 0, 0, 0, 0, {}, 0), Idle(1, [], {a}, 1, 1, 0, 0, {}, 0));
    evs := evs + [Lost(a)];
    RoomIsFound(1, [], {a}, 1, 1, 0, 0, {}, 0);
    RunThen(e, evs, Checked, Idle(1, [], {a}, 1, 1, 0, 0, {}, 0), Idle(1, [], {a}, 1, 0, 0, 1, {}, 0));
  }

  lemma LostEarlyEnds<C>(a: C, b: C)
    requires a != b
    ensures Run(Connecting(1), LostEarly(a, b)) == Idle(1, [b], {a, b}, 2, 0, 0, 0, {}, 1)
  {
    var e: Engine<C>, evs: seq<Event<C>> := Connecting(1), [Joined([Some(a)])] + [Lost(a)] + [Checked];
    FirstIsReplaced(a);
    NewIsLost(1, [], {a}, 1, 0, 0, 1, {}, 0, b);
    assert {a} + {b} == {a, b} && {} + {b} == {b};
    RunThen(e, evs, Lost(b), Idle(1, [], {a}, 1, 0, 0, 1, {}, 0), Idle(1, [], {a, b}, 2, 1, 0, 1, {b}, 0));
    evs := evs + [Lost(b)];
    OneJoins(1, [], {a, b}, 2, 1, 0, 1, {b}, 0, b);
    assert [] + [b] == [b] && {b} - {b} == {};
    RunThen(e, evs, Registered(Some(b)), Idle(1, [], {a, b}, 2, 1, 0, 1, {b}, 0),
            Idle(1, [b], {a, b}, 2, 1, 0, 0, {}, 1));
    evs := evs + [Registered(Some(b))];
    RoomIsFound(1, [b], {a, b}, 2, 1, 0, 0, {}, 1);
    RunThen(e, evs, Checked, Idle(1, [b], {a, b}, 2, 1, 0, 0, {}, 1), Idle(1, [b], {a, b}, 2, 0, 0, 0, {}, 1));
  }

  /** The successor keeps the only place: nothing more is ever sent, and no reconnect has failed. */
  lemma LostEarlyEmptiesThePool<C>(a: C, b: C, evs: seq<Event<C>>)
    requires a != b
    ensures var e := Run(Connecting(1), LostEarly(a, b));
      e.pool.all == [b] && b in e.pool.closed && e.pool.reconnectFailed == 0 && Run(e, evs).attempted == 0
  {
    LostEarlyEnds(a, b);
    ConnectingIsBalanced<C>(1);
    RunsBalance(Connecting(1), LostEarly(a, b));
    var e := Run(Connecting(1), LostEarly(a, b));
    assert Live(e.pool) == {};
    NoPlacesNoMessages(e, evs);
  }

  /** A pool of two: one connection is lost, and made up for, while `connect` waits for the other. */
  function LostWhileConnecting<C>(a: C, b: C, c: C): seq<Event<C>> {
    [Lost(a)] + [Checked] + [Registered(Some(c))] + [Joined([Some(a), Some(b)])]
  }

  /** The lost one is registered all the same: `connect` reports three connections of a pool of two. */
  lemma LostWhileConnectingIsCounted<C>(a: C, b: C, c: C)
    requires a != b && b != c && a != c
    ensures Run(Connecting(2), LostWhileConnecting(a, b, c)) == Idle(2, [c, a, b], {a}, 1, 0, 0, 0, {}, 1)
  {
    var e: Engine<C>, evs: seq<Event<C>> := Connecting(2), [];
    NewIsLost(2, [], {}, 0, 0, 2, 0, {}, 0, a);
    assert {} + {a} == {a} && evs + [Lost(a)] == [Lost(a)];
    RunThen(e, evs, Lost(a), e, Idle(2, [], {a}, 1, 1, 2, 0, {a}, 0));
    evs := [Lost(a)];
    RoomIsFound(2, [], {a}, 1, 1, 2, 0, {a}, 0);
    RunThen(e, evs, Checked, Idle(2, [], {a}, 1, 1, 2, 0, {a}, 0), Idle(2, [], {a}, 1, 0, 2, 1, {a}, 0));
    evs := evs + [Checked];
    OneJoins(2, [], {a}, 1, 0, 2, 1, {a}, 0, c);
    assert [] + [c] == [c] && {a} - {c} == {a};
    RunThen(e, evs, Registered(Some(c)), Idle(2, [], {a}, 1, 0, 2, 1, {a}, 0), Idle(2, [c], {a}, 1, 0, 2, 0, {a}, 1));
    evs := evs + [Registered(Some(c))];
    OpenedTwo(a, b);
    AllJoin(2, [c], {a}, 1, 0, 0, {a}, 1, [Some(a), Some(b)], [a, b]);
    assert [c] + [a, b] == [c, a, b];
    RunThen(e, evs, Joined([Some(a), Some(b)]), Idle(2, [c], {a}, 1, 0, 2, 0, {a}, 1),
            Idle(2, [c, a, b], {a}, 1, 0, 0, 0, {}, 1));
  }

  /** And it keeps its place: the next loss is not made up for, and no reconnect has failed. */
  lemma ThenOneIsLeft<C>(a: C, b: C, c: C)
    requires a != b && b != c && a != c
    ensures var p := Run(Connecting(2), LostWhileConnecting(a, b, c) + [Lost(c)] + [Checked]).pool;
      Live(p) == {b} && Places(p) == 1 && p.missed == p.reconnectFailed == 0
  {
    var e, evs := Connecting(2), LostWhileConnecting(a, b, c);
    LostWhileConnectingIsCounted(a, b, c);
    FirstIsLost(2, [c, a, b], {a}, 1, 0, 0, 0, {}, 1);
    assert [c, a, b][1..] == [a, b] && {a} + {c} == {a, c};
    RunThen(e, evs, Lost(c), Idle(2, [c, a, b], {a}, 1, 0, 0, 0, {}, 1), Idle(2, [a, b], {a, c}, 2, 1, 0, 0, {}, 1));
    evs := evs + [Lost(c)];
    RoomIsFound(2, [a, b], {a, c}, 2, 1, 0, 0, {}, 1);
    RunThen(e, evs, Checked, Idle(2, [a, b], {a, c}, 2, 1, 0, 0, {}, 1), Idle(2, [a, b], {a, c}, 2, 0, 0, 0, {}, 1));
    assert Live(Run(e, evs + [Checked]).pool) == {b};
  }

  // ---- after the close ----

  lemma StepOpensNothing<C>(e: Engine<C>, ev: Event<C>)
    requires Balanced(e) && e.pool.closing
    ensures var p, p' := e.pool, Next(e, ev).pool;
      p'.closing && p'.opening <= p.opening && p'.replacing <= p.replacing && p'.gathering <= p.gathering
  {
    PlaceIsSound(e.pool);
  }

  /** A pool that is closing starts no replacement: only connections already waited for can still join it. */
  lemma {:induction false} ClosingOpensNothing<C>(e: Engine<C>, evs: seq<Event<C>>)
    requires Balanced(e) && e.pool.closing
    ensures var p, p' := e.pool, Run(e, evs).pool;
      p'.closing && p'.opening <= p.opening && p'.replacing <= p.replacing && p'.gathering <= p.gathering
    decreases |evs|
  {
    if evs != [] {
      StepOpensNothing(e, evs[0]);
      StepBalances(e, evs[0]);
      ClosingOpensNothing(Next(e, evs[0]), evs[1..]);
    }
  }
}
