/**
  The twin-state watch: each change is pushed as a difference against what was last seen, and what
  was last seen may be forgotten at any time. A subscriber that overlays the pushes must still hold
  the latest delivered value of everything.
 */
module TwinWatch {
  import opened Wrappers
  import opened Numbers

  datatype Json =
    | Null
    | Bool(b: bool)
    | Number(n: real)
    | String(s: string)
    | Array(items: seq<Json>)
    | Object(fields: map<string, Json>)

  datatype Value = Value(ts: int, value: Json)

  type Values = map<string, Value>

  type Scopes = map<string, Values>

  datatype State = State(
    entityType: string,
    tenantId: string,
    entityId: string,
    updatedTs: int,
    telemetry: Values,
    attributes: Scopes)

  const ZERO := State("", "", "", 0, map[], map[])

  datatype Change = Change(was: State, now: State)

  /** `twinstore.Key` is taken to be injective in its three arguments. */
  datatype EntityKey = EntityKey(entityType: string, tenantId: string, entityId: string)

  function KeyOf(s: State): EntityKey { EntityKey(s.entityType, s.tenantId, s.entityId) }

  type Last = map<EntityKey, State>

  function Stored(last: Last, k: EntityKey): State { if k in last then last[k] else ZERO }

  function Scope(a: Scopes, s: string): Values { if s in a then a[s] else map[] }

  // ---- differences ----

  /** A value that is not already in `old` with the same time and content. */
  predicate Differs(was: Values, k: string, v: Value) { !(k in was && was[k] == v) }

  function Diff(was: Values, now: Values): map<string, Json> {
    map k | k in now && Differs(was, k, now[k]) :: now[k].value
  }

  /** The latest time among the changed values, at least 0. */
  ghost predicate IsMaxTs(was: Values, now: Values, ts: int) {
    && (forall k | k in now && Differs(was, k, now[k]) :: now[k].ts <= ts)
    && ts >= 0 && (ts == 0 || exists k :: k in now && Differs(was, k, now[k]) && now[k].ts == ts)
  }

  /** Per scope, and only scopes in which something changed. */
  function DiffScopes(was: Scopes, now: Scopes): map<string, map<string, Json>> {
    map s | s in now && Diff(Scope(was, s), now[s]) != map[] :: Diff(Scope(was, s), now[s])
  }

  // ---- the fold ----

  function MergeScopes(a: Scopes, b: Scopes): Scopes {
    map s | s in a.Keys + b.Keys :: Scope(a, s) + Scope(b, s)
  }

  function Merge(prev: State, next: State): State {
    if prev.entityId == "" then next else
    prev.(updatedTs := Max(prev.updatedTs, next.updatedTs),
          telemetry := prev.telemetry + next.telemetry,
          attributes := MergeScopes(prev.attributes, next.attributes))
  }

  /** The base of the difference: what was last seen, or the change's own `old` for a first event. */
  function Base(last: Last, c: Change): State {
    var seen := Stored(last, KeyOf(c.now));
    if seen.entityId == "" then c.was else seen
  }

  function Fold(last: Last, c: Change): Last {
    last[KeyOf(c.now) := Merge(Stored(last, KeyOf(c.now)), c.now)]
  }

  // ---- the subscriber ----

  /** A place a subscriber holds a value for; no scope means telemetry. Pushes name the entity only. */
  datatype Slot = Slot(entityId: string, scope: Option<string>, key: string)

  type Subscriber = map<Slot, Json>

  /** The value a state carries for a slot, whatever entity the state is of. */
  function Carried(s: State, slot: Slot): Option<Value> {
    var values := if slot.scope.None? then s.telemetry else Scope(s.attributes, slot.scope.value);
    if slot.key in values then Some(values[slot.key]) else None
  }

  function Pushed(entityId: string, telemetry: map<string, Json>,
                  attributes: map<string, map<string, Json>>): Subscriber {
    map slot | slot in (set k | k in telemetry :: Slot(entityId, None, k))
                     + (set s, k | s in attributes && k in attributes[s] :: Slot(entityId, Some(s), k))
      :: if slot.scope.None? then telemetry[slot.key] else attributes[slot.scope.value][slot.key]
  }

  /** What one change makes the subscriber overlay. */
  function Push(last: Last, c: Change): Subscriber {
    var base := Base(last, c);
    Pushed(c.now.entityId, Diff(base.telemetry, c.now.telemetry), DiffScopes(base.attributes, c.now.attributes))
  }

  /** The push holds exactly the slots of the change that differ from the base. */
  lemma PushIsTheDifference(last: Last, c: Change, slot: Slot)
    ensures slot in Push(last, c) <==>
      && slot.entityId == c.now.entityId && Carried(c.now, slot).Some?
      && Carried(Base(last, c), slot) != Carried(c.now, slot)
    ensures slot in Push(last, c) ==> Push(last, c)[slot] == Carried(c.now, slot).value.value
  {
    var base := Base(last, c);
    if slot.scope.Some? && slot.entityId == c.now.entityId && slot.scope.value in c.now.attributes {
      var s := slot.scope.value;
      var d := Diff(Scope(base.attributes, s), c.now.attributes[s]);
      assert slot.key in d ==> d != map[];
    }
  }

  // ---- runs ----

  /** The value the most recent delivered event that has the slot gives it. */
  function Latest(h: seq<Change>, slot: Slot): Option<Value> {
    if h == [] then None else
    var c := h[|h| - 1];
    if c.now.entityId == slot.entityId && Carried(c.now, slot).Some? then Carried(c.now, slot)
    else Latest(h[..|h| - 1], slot)
  }

  /** After each fold any entries may be forgotten. */
  ghost predicate Forgets(folded: Last, last: Last) {
    forall k | k in last :: k in folded && last[k] == folded[k]
  }

  /** What is left of `folded` with room for `max` entries: all of it if it fits, otherwise any `max` entries. */
  ghost predicate Bounds(folded: Last, last: Last, max: nat) {
    Forgets(folded, last) && if |folded| <= max then last == folded else |last| == max
  }

  datatype Watch = Watch(last: Last, view: Subscriber)

  ghost predicate Step(w: Watch, c: Change, w': Watch) {
    && Forgets(Fold(w.last, c), w'.last)
    && w'.view == w.view + Push(w.last, c)
  }

  ghost predicate Steps(ws: seq<Watch>, cs: seq<Change>) {
    |ws| == |cs| + 1 && forall i | 0 <= i < |cs| :: Step(ws[i], cs[i], ws[i + 1])
  }

  ghost predicate IsRun(ws: seq<Watch>, cs: seq<Change>) { Steps(ws, cs) && ws[0] == Watch(map[], map[]) }

  /** Events name an entity, and no two entities share an identifier. */
  ghost predicate Identified(cs: seq<Change>) {
    && (forall c | c in cs :: c.now.entityId != "")
    && (forall c, d | c in cs && d in cs && c.now.entityId == d.now.entityId :: KeyOf(c.now) == KeyOf(d.now))
  }

  /** The `old` of a change says nothing but what the subscriber already holds; a zero `old` says nothing. */
  ghost predicate TruthfulOld(h: seq<Change>, c: Change) {
    forall slot: Slot | slot.entityId == c.now.entityId
      && Carried(c.was, slot).Some? :: Carried(c.was, slot) == Latest(h, slot)
  }

  lemma ZeroIsTruthful(h: seq<Change>, c: Change)
    requires c.was == ZERO
    ensures TruthfulOld(h, c)
  {
  }

  /** The subscriber holds exactly the latest values, and what is remembered is true. */
  ghost predicate Faithful(h: seq<Change>, w: Watch) {
    && (forall slot :: match Latest(h, slot)
          case None => slot !in w.view
          case Some(v) => slot in w.view && w.view[slot] == v.value)
    && (forall k | k in w.last :: k.entityId != "" && KeyOf(w.last[k]) == k)
    && (forall k, slot: Slot | k in w.last && slot.entityId == k.entityId && Carried(w.last[k], slot).Some? ::
          Carried(w.last[k], slot) == Latest(h, slot))
  }

  lemma CarriedByMerge(prev: State, next: State, slot: Slot)
    requires prev.entityId != ""
    ensures Carried(Merge(prev, next), slot) ==
      if Carried(next, slot).Some? then Carried(next, slot) else Carried(prev, slot)
  {
  }

  lemma LatestAfter(h: seq<Change>, c: Change, slot: Slot)
    ensures Latest(h + [c], slot) ==
      if c.now.entityId == slot.entityId && Carried(c.now, slot).Some? then Carried(c.now, slot) else Latest(h, slot)
  {
    assert (h + [c])[..|h|] == h;
  }

  /** Only the entity of the event is touched, and only one key has its identifier. */
  ghost predicate OnlyKey(last: Last, c: Change) {
    forall k | k in last && k.entityId == c.now.entityId :: k == KeyOf(c.now)
  }

  lemma BaseIsTrue(h: seq<Change>, w: Watch, c: Change, slot: Slot)
    requires Faithful(h, w) && TruthfulOld(h, c) && c.now.entityId != ""
    requires slot.entityId == c.now.entityId && Carried(Base(w.last, c), slot).Some?
    ensures Carried(Base(w.last, c), slot) == Latest(h, slot)
  {
    var k := KeyOf(c.now);
    assert k in w.last ==> KeyOf(w.last[k]) == k;
  }

  /** Pushing only the difference leaves the subscriber as pushing everything would. */
  lemma ViewStaysFaithful(h: seq<Change>, w: Watch, c: Change, slot: Slot)
    requires Faithful(h, w) && TruthfulOld(h, c) && c.now.entityId != ""
    ensures var view := w.view + Push(w.last, c);
      match Latest(h + [c], slot)
      case None => slot !in view
      case Some(v) => slot in view && view[slot] == v.value
  {
    LatestAfter(h, c, slot);
    PushIsTheDifference(w.last, c, slot);
    if slot.entityId == c.now.entityId && Carried(c.now, slot).Some? && slot !in Push(w.last, c) {
      BaseIsTrue(h, w, c, slot);
    }
  }

  lemma MemoryStaysTrue(h: seq<Change>, w: Watch, c: Change, k: EntityKey, slot: Slot)
    requires Faithful(h, w) && c.now.entityId != "" && OnlyKey(w.last, c)
    requires var folded := Fold(w.last, c); k in folded && slot.entityId == k.entityId && Carried(folded[k], slot).Some?
    ensures Carried(Fold(w.last, c)[k], slot) == Latest(h + [c], slot)
  {
    LatestAfter(h, c, slot);
    if k == KeyOf(c.now) && k in w.last {
      assert KeyOf(w.last[k]) == k;
      CarriedByMerge(w.last[k], c.now, slot);
    }
  }

  lemma StepIsFaithful(h: seq<Change>, w: Watch, c: Change, w': Watch)
    requires Faithful(h, w) && TruthfulOld(h, c) && c.now.entityId != "" && OnlyKey(w.last, c) && Step(w, c, w')
    ensures Faithful(h + [c], w')
  {
    forall slot
      ensures match Latest(h + [c], slot)
        case None => slot !in w'.view
        case Some(v) => slot in w'.view && w'.view[slot] == v.value
    {
      ViewStaysFaithful(h, w, c, slot);
    }
    forall k, slot: Slot | k in w'.last && slot.entityId == k.entityId && Carried(w'.last[k], slot).Some?
      ensures Carried(w'.last[k], slot) == Latest(h + [c], slot)
    {
      MemoryStaysTrue(h, w, c, k, slot);
    }
    forall k | k in w'.last
      ensures k.entityId != "" && KeyOf(w'.last[k]) == k
    {
      assert k in Fold(w.last, c);
    }
  }

  /** Only entities that had an event are remembered. */
  ghost predicate HadEvents(h: seq<Change>, last: Last) {
    forall k | k in last :: exists i :: 0 <= i < |h| && KeyOf(h[i].now) == k
  }

  /** What holds between the delivered events and the watch after every one of them. */
  ghost predicate Following(h: seq<Change>, w: Watch) { Faithful(h, w) && HadEvents(h, w.last) }

  lemma NextTouchesOnlyKey(h: seq<Change>, last: Last, c: Change)
    requires HadEvents(h, last) && Identified(h + [c])
    ensures OnlyKey(last, c) && c.now.entityId != ""
  {
    var all := h + [c];
    assert c == all[|h|] && c in all;
    forall k | k in last && k.entityId == c.now.entityId
      ensures k == KeyOf(c.now)
    {
      var i :| 0 <= i < |h| && KeyOf(h[i].now) == k;
      assert h[i] == all[i] && h[i] in all;
    }
  }

  lemma StillHadEvents(h: seq<Change>, c: Change, last: Last, last': Last)
    requires HadEvents(h, last) && Forgets(Fold(last, c), last')
    ensures HadEvents(h + [c], last')
  {
    var all := h + [c];
    forall k | k in last'
      ensures exists i :: 0 <= i < |all| && KeyOf(all[i].now) == k
    {
      if k == KeyOf(c.now) {
        assert all[|h|] == c;
      } else {
        assert k in Fold(last, c) && k in last;
        var i :| 0 <= i < |h| && KeyOf(h[i].now) == k;
        assert all[i] == h[i];
      }
    }
  }

  lemma StepFollows(h: seq<Change>, w: Watch, c: Change, w': Watch)
    requires Following(h, w) && Identified(h + [c]) && TruthfulOld(h, c) && Step(w, c, w')
    ensures Following(h + [c], w')
  {
    NextTouchesOnlyKey(h, w.last, c);
    StepIsFaithful(h, w, c, w');
    StillHadEvents(h, c, w.last, w'.last);
  }

  ghost predicate AllTruthful(cs: seq<Change>) {
    forall i | 0 <= i < |cs| :: TruthfulOld(cs[..i], cs[i])
  }

  lemma TruthfulAt(cs: seq<Change>, i: nat)
    requires AllTruthful(cs) && i < |cs|
    ensures TruthfulOld(cs[..i], cs[i])
  {
  }

  lemma IdentifiedPrefix(cs: seq<Change>, i: nat)
    requires Identified(cs) && i <= |cs|
    ensures Identified(cs[..i])
  {
    assert forall c | c in cs[..i] :: c in cs;
  }

  lemma NextFollows(h: seq<Change>, cs: seq<Change>, i: nat, w: Watch, w': Watch)
    requires i < |cs| && Identified(h + cs) && AllTruthful(h + cs)
    requires Following(h + cs[..i], w) && Step(w, cs[i], w')
    ensures Following(h + cs[..i + 1], w')
  {
    var all, n := h + cs, |h| + i;
    assert all[..n] == h + cs[..i] && all[..n + 1] == h + cs[..i] + [cs[i]] == h + cs[..i + 1];
    IdentifiedPrefix(all, n + 1);
    TruthfulAt(all, n);
    StepFollows(h + cs[..i], w, cs[i], w');
  }

  lemma StepOfRun(ws: seq<Watch>, cs: seq<Change>, i: nat)
    requires Steps(ws, cs) && i < |cs|
    ensures Step(ws[i], cs[i], ws[i + 1])
  {
  }

  /** What was true of the subscriber before a run is true after it. */
  lemma {:induction false} RunFollows(h: seq<Change>, ws: seq<Watch>, cs: seq<Change>, i: nat)
    requires Steps(ws, cs) && Identified(h + cs) && AllTruthful(h + cs) && i <= |cs|
    requires Following(h, ws[0])
    ensures Following(h + cs[..i], ws[i])
    decreases i
  {
    if i == 0 {
      assert h + cs[..0] == h;
    } else {
      var n := i - 1;
      RunFollows(h, ws, cs, n);
      StepOfRun(ws, cs, n);
      NextFollows(h, cs, n, ws[n], ws[n + 1]);
    }
  }

  /**
    Over every run and every forgetting: the subscriber holds, for every entity, scope and key, the
    value of the most recent delivered event, and nothing else.
   */
  lemma SubscriberHoldsTheLatest(ws: seq<Watch>, cs: seq<Change>)
    requires IsRun(ws, cs) && Identified(cs) && AllTruthful(cs)
    ensures Faithful(cs, ws[|cs|])
  {
    assert [] + cs == cs && [] + cs[..|cs|] == cs;
    RunFollows([], ws, cs, |cs|);
  }

  /** An event that gives one telemetry key of an entity. */
  function KeyEvent(e: EntityKey, k: string, v: Value): Change {
    Change(ZERO, State(e.entityType, e.tenantId, e.entityId, 0, map[k := v], map[]))
  }

  /** A watch step that forgets nothing. */
  function Remembering(w: Watch, c: Change): Watch { Watch(Fold(w.last, c), w.view + Push(w.last, c)) }

  function Remembered(cs: seq<Change>): Watch {
    if cs == [] then Watch(map[], map[]) else Remembering(Remembered(cs[..|cs| - 1]), cs[|cs| - 1])
  }

  lemma {:induction false} RememberedRun(cs: seq<Change>) returns (ws: seq<Watch>)
    ensures IsRun(ws, cs) && ws[|cs|] == Remembered(cs)
    decreases |cs|
  {
    if cs == [] {
      ws := [Watch(map[], map[])];
    } else {
      var n := |cs| - 1;
      var before := RememberedRun(cs[..n]);
      ws := before + [Remembered(cs)];
      forall i | 0 <= i < |cs|
        ensures Step(ws[i], cs[i], ws[i + 1])
      {
        if i < n {
          assert Step(before[i], cs[..n][i], before[i + 1]);
        }
      }
    }
  }

  /**
    Entities must not share an identifier: when two do, a value that one of them repeats is suppressed
    although the other has overwritten it at the subscriber.
   */
  lemma SharedIdentifierHidesAChange(j: EntityKey, m: EntityKey, k: string, x: Value, y: Value)
    requires j != m && j.entityId == m.entityId != "" && x.value != y.value
    ensures var cs := [KeyEvent(j, k, x), KeyEvent(m, k, y), KeyEvent(j, k, x)];
      var slot, view := Slot(j.entityId, None, k), Remembered(cs).view;
      Latest(cs, slot) == Some(x) && slot in view && view[slot] == y.value
  {
    var a, b := KeyEvent(j, k, x), KeyEvent(m, k, y);
    var cs, slot := [a, b, a], Slot(j.entityId, None, k);
    assert cs[..2] == [a, b] && [a, b][..1] == [a] && [a][..0] == [];
    assert Carried(a.now, slot) == Some(x) && Carried(b.now, slot) == Some(y);
    var w0 := Watch(map[], map[]);
    var w1 := Remembering(w0, a);
    var w2 := Remembering(w1, b);
    assert Remembered([]) == w0 && Remembered([a]) == w1 && Remembered([a, b]) == w2;
    assert w2.last[j] == a.now && KeyOf(a.now) == j && KeyOf(b.now) == m;
    PushIsTheDifference(w1.last, b, slot);
    PushIsTheDifference(w2.last, a, slot);
  }

  /** A run of events of the given entities that say nothing about what was before. */
  ghost predicate RunOf(ks: iset<EntityKey>, ws: seq<Watch>, cs: seq<Change>) {
    IsRun(ws, cs) && forall i | 0 <= i < |cs| :: cs[i].was == ZERO && KeyOf(cs[i].now) in ks
  }

  ghost predicate OwnIdentifiers(ks: iset<EntityKey>) {
    forall j, k | j in ks && k in ks && j.entityId == k.entityId :: j == k
  }

  lemma OwnIdentifiersSuffice(ks: iset<EntityKey>, ws: seq<Watch>, cs: seq<Change>)
    requires (forall k | k in ks :: k.entityId != "") && OwnIdentifiers(ks) && RunOf(ks, ws, cs)
    ensures Faithful(cs, ws[|cs|])
  {
    forall c | c in cs
      ensures c.was == ZERO && KeyOf(c.now) in ks
    {
    }
    forall i | 0 <= i < |cs|
      ensures TruthfulOld(cs[..i], cs[i])
    {
      ZeroIsTruthful(cs[..i], cs[i]);
    }
    SubscriberHoldsTheLatest(ws, cs);
  }

  lemma WrongValue(cs: seq<Change>, w: Watch, slot: Slot, v: Value)
    requires Latest(cs, slot) == Some(v) && slot in w.view && w.view[slot] != v.value
    ensures !Faithful(cs, w)
  {
  }

  lemma RunOfRemembered(ks: iset<EntityKey>, cs: seq<Change>) returns (ws: seq<Watch>)
    requires forall i | 0 <= i < |cs| :: cs[i].was == ZERO && KeyOf(cs[i].now) in ks
    ensures RunOf(ks, ws, cs) && ws[|cs|] == Remembered(cs)
  {
    ws := RememberedRun(cs);
  }

  lemma UnfaithfulRun(ks: iset<EntityKey>, j: EntityKey, m: EntityKey) returns (ws: seq<Watch>, cs: seq<Change>)
    requires j in ks && m in ks && j != m && j.entityId == m.entityId != ""
    ensures RunOf(ks, ws, cs) && !Faithful(cs, ws[|cs|])
  {
    var x, y := Value(0, Bool(false)), Value(0, Bool(true));
    cs := [KeyEvent(j, "k", x), KeyEvent(m, "k", y), KeyEvent(j, "k", x)];
    ws := RunOfRemembered(ks, cs);
    SharedIdentifierHidesAChange(j, m, "k", x, y);
    WrongValue(cs, Remembered(cs), Slot(j.entityId, None, "k"), x);
  }

  /**
    For the events of any entities: whatever the events and whatever is forgotten, the subscriber ends
    with the latest values, exactly if no two of the entities share an identifier.
   */
  lemma FaithfulIffOwnIdentifiers(ks: iset<EntityKey>)
    requires forall k | k in ks :: k.entityId != ""
    ensures (forall ws, cs | RunOf(ks, ws, cs) :: Faithful(cs, ws[|cs|])) <==> OwnIdentifiers(ks)
  {
    if OwnIdentifiers(ks) {
      forall ws, cs | RunOf(ks, ws, cs)
        ensures Faithful(cs, ws[|cs|])
      {
        OwnIdentifiersSuffice(ks, ws, cs);
      }
    } else {
      var j, m :| j in ks && m in ks && j.entityId == m.entityId && j != m;
      var ws, cs := UnfaithfulRun(ks, j, m);
      assert RunOf(ks, ws, cs) && !Faithful(cs, ws[|cs|]);
    }
  }

  // ---- no broadcast storm ----

  /** The attributes of `doc` are all remembered, with the same times and contents. */
  ghost predicate Remembers(last: Last, k: EntityKey, attributes: Scopes) {
    && k in last && last[k].entityId != ""
    && forall s, key | s in attributes && key in attributes[s] ::
      s in last[k].attributes && key in last[k].attributes[s] && last[k].attributes[s][key] == attributes[s][key]
  }

  /** After a full document its attributes are remembered, unless the entity is forgotten at once. */
  lemma DocumentIsRemembered(w: Watch, doc: Change, w': Watch)
    requires Step(w, doc, w') && doc.now.entityId != "" && KeyOf(doc.now) in w'.last
    ensures Remembers(w'.last, KeyOf(doc.now), doc.now.attributes)
  {
    var k := KeyOf(doc.now);
    assert w'.last[k] == Fold(w.last, doc)[k];
  }

  /** An event of another entity, or one without attributes, as the data plane writes them. */
  predicate LeavesAttributes(k: EntityKey, c: Change) { KeyOf(c.now) != k || c.now.attributes == map[] }

  lemma StepKeepsAttributes(w: Watch, c: Change, w': Watch, k: EntityKey, attributes: Scopes)
    requires Step(w, c, w') && Remembers(w.last, k, attributes) && LeavesAttributes(k, c) && k in w'.last
    ensures Remembers(w'.last, k, attributes)
  {
    assert k in Fold(w.last, c);
    var before, after := w.last[k].attributes, w'.last[k].attributes;
    assert forall s | s in before :: s in after && after[s] == before[s];
  }

  lemma {:induction false} AttributesAreKept(ws: seq<Watch>, cs: seq<Change>, k: EntityKey, attributes: Scopes, i: nat)
    requires Steps(ws, cs) && i <= |cs|
    requires Remembers(ws[0].last, k, attributes)
    requires forall c | c in cs :: LeavesAttributes(k, c)
    requires forall w | w in ws :: k in w.last
    ensures Remembers(ws[i].last, k, attributes)
    decreases i
  {
    if i > 0 {
      var n := i - 1;
      AttributesAreKept(ws, cs, k, attributes, n);
      StepOfRun(ws, cs, n);
      assert ws[n + 1] in ws && cs[n] in cs;
      StepKeepsAttributes(ws[n], cs[n], ws[n + 1], k, attributes);
    }
  }

  /**
    A full document whose attributes are remembered, after any number of attribute-less events and
    with the entity not forgotten, pushes no attributes.
   */
  lemma UnchangedAttributesAreQuiet(ws: seq<Watch>, cs: seq<Change>, doc: Change)
    requires Steps(ws, cs)
    requires Remembers(ws[0].last, KeyOf(doc.now), doc.now.attributes)
    requires forall c | c in cs :: LeavesAttributes(KeyOf(doc.now), c)
    requires forall w | w in ws :: KeyOf(doc.now) in w.last
    ensures DiffScopes(Base(ws[|cs|].last, doc).attributes, doc.now.attributes) == map[]
  {
    AttributesAreKept(ws, cs, KeyOf(doc.now), doc.now.attributes, |cs|);
    RememberedIsQuiet(ws[|cs|].last, doc);
  }

  // ---- as long as everything fits ----

  /** What is remembered if nothing is ever forgotten. */
  function FoldAll(last: Last, cs: seq<Change>): Last {
    if cs == [] then last else Fold(FoldAll(last, cs[..|cs| - 1]), cs[|cs| - 1])
  }

  /** The entities that have had events. */
  function Entities(cs: seq<Change>): set<EntityKey> { set c | c in cs :: KeyOf(c.now) }

  lemma FoldAllNext(last: Last, cs: seq<Change>, i: nat)
    requires i < |cs|
    ensures FoldAll(last, cs[..i + 1]) == Fold(FoldAll(last, cs[..i]), cs[i])
  {
    assert cs[..i + 1][..i] == cs[..i];
  }

  lemma {:induction false} FoldAllKeys(last: Last, cs: seq<Change>)
    ensures FoldAll(last, cs).Keys == last.Keys + Entities(cs)
  {
    if cs != [] {
      var before := cs[..|cs| - 1];
      FoldAllKeys(last, before);
      assert cs == before + [cs[|cs| - 1]];
      assert forall c | c in cs :: c in before || c == cs[|cs| - 1];
      assert Entities(cs) == Entities(before) + {KeyOf(cs[|cs| - 1].now)};
    }
  }

  ghost predicate IsLatestTime(cs: seq<Change>, k: EntityKey, ts: int) {
    && (forall i | 0 <= i < |cs| && KeyOf(cs[i].now) == k :: cs[i].now.updatedTs <= ts)
    && exists i :: 0 <= i < |cs| && KeyOf(cs[i].now) == k && cs[i].now.updatedTs == ts
  }

  /** The time that is remembered for an entity is the latest of its events. */
  lemma {:induction false} LatestTimeIsKept(cs: seq<Change>, k: EntityKey)
    requires (forall c | c in cs :: c.now.entityId != "") && k in Entities(cs)
    ensures var kept := FoldAll(map[], cs);
      k in kept && KeyOf(kept[k]) == k && IsLatestTime(cs, k, kept[k].updatedTs)
  {
    var init, c := cs[..|cs| - 1], cs[|cs| - 1];
    assert cs == init + [c] && c in cs;
    var before := FoldAll(map[], init);
    FoldAllKeys(map[], init);
    if k in Entities(init) {
      LatestTimeIsKept(init, k);
    }
    LatestTimeNext(init, c, k, before);
  }

  lemma LatestTimeNext(init: seq<Change>, c: Change, k: EntityKey, before: Last)
    requires c.now.entityId != "" && k in Entities(init + [c]) && (k in before <==> k in Entities(init))
    requires k in before ==> KeyOf(before[k]) == k && IsLatestTime(init, k, before[k].updatedTs)
    ensures var kept := Fold(before, c);
      k in kept && KeyOf(kept[k]) == k && IsLatestTime(init + [c], k, kept[k].updatedTs)
  {
    var cs, kept := init + [c], Fold(before, c);
    assert cs[|init|] == c;
    if k in before {
      var i :| 0 <= i < |init| && KeyOf(init[i].now) == k && init[i].now.updatedTs == before[k].updatedTs;
      assert cs[i] == init[i];
    } else {
      assert forall i | 0 <= i < |init| :: init[i] in init && KeyOf(init[i].now) in Entities(init);
    }
    forall i | 0 <= i < |cs| && KeyOf(cs[i].now) == k
      ensures cs[i].now.updatedTs <= kept[k].updatedTs
    {
      assert i < |init| ==> cs[i] == init[i];
    }
  }

  /** Before the last event there was at least as much room. */
  lemma FitsBefore(last: Last, cs: seq<Change>, i: nat, max: nat)
    requires i < |cs| && |FoldAll(last, cs[..i + 1])| <= max
    ensures |FoldAll(last, cs[..i])| <= max
  {
    FoldAllNext(last, cs, i);
    Subset(FoldAll(last, cs[..i]).Keys, FoldAll(last, cs[..i + 1]).Keys);
  }

  lemma {:induction false} Subset<T>(a: set<T>, b: set<T>)
    requires a <= b
    ensures |a| <= |b|
  {
    if a != {} {
      var x :| x in a;
      Subset(a - {x}, b - {x});
    }
  }

  /** One event in a bounded memory that is still complete. */
  lemma StillComplete(last: Last, cs: seq<Change>, i: nat, max: nat, now: Last, next: Last)
    requires i < |cs| && Bounds(Fold(now, cs[i]), next, max)
    requires |FoldAll(last, cs[..i])| <= max ==> now == FoldAll(last, cs[..i])
    ensures |FoldAll(last, cs[..i + 1])| <= max ==> next == FoldAll(last, cs[..i + 1])
  {
    FoldAllNext(last, cs, i);
    if |FoldAll(last, cs[..i + 1])| <= max {
      FitsBefore(last, cs, i, max);
    }
  }

  /** One event with room for `max` entries. */
  ghost predicate BoundedStep(w: Watch, c: Change, w': Watch, max: nat) {
    Bounds(Fold(w.last, c), w'.last, max) && w'.view == w.view + Push(w.last, c)
  }

  /** A run that forgets only what does not fit. */
  ghost predicate IsBoundedRun(ws: seq<Watch>, cs: seq<Change>, max: nat) {
    |ws| == |cs| + 1 && forall i | 0 <= i < |cs| :: BoundedStep(ws[i], cs[i], ws[i + 1], max)
  }

  /** A run over the first `i` events, from one state of the watch to another. */
  ghost predicate RunsTo(ws: seq<Watch>, cs: seq<Change>, i: nat, max: nat, from: Watch, to: Watch) {
    i <= |cs| && IsBoundedRun(ws, cs[..i], max) && ws[0] == from && ws[i] == to
  }

  lemma NoStep(cs: seq<Change>, max: nat, w: Watch)
    ensures RunsTo([w], cs, 0, max, w, w)
  {
  }

  lemma OneMoreStep(ws: seq<Watch>, cs: seq<Change>, i: nat, max: nat, from: Watch, to: Watch, to': Watch)
    requires RunsTo(ws, cs, i, max, from, to) && i < |cs| && BoundedStep(to, cs[i], to', max)
    ensures RunsTo(ws + [to'], cs, i + 1, max, from, to')
  {
    var more := ws + [to'];
    forall j | 0 <= j < i + 1
      ensures BoundedStep(more[j], cs[..i + 1][j], more[j + 1], max)
    {
      if j < i {
        assert BoundedStep(ws[j], cs[..i][j], ws[j + 1], max);
      }
    }
  }

  lemma BoundedRunsAreRuns(ws: seq<Watch>, cs: seq<Change>, max: nat)
    requires IsBoundedRun(ws, cs, max)
    ensures Steps(ws, cs)
  {
  }

  /** There is never more in the memory than there is room for. */
  lemma RunFits(ws: seq<Watch>, cs: seq<Change>, max: nat, i: nat)
    requires IsBoundedRun(ws, cs, max) && 0 < i <= |cs|
    ensures |ws[i].last| <= max
  {
    assert BoundedStep(ws[i - 1], cs[i - 1], ws[i - 1 + 1], max);
  }

  lemma {:induction false} NothingIsForgotten(ws: seq<Watch>, cs: seq<Change>, max: nat, i: nat)
    requires IsBoundedRun(ws, cs, max) && i <= |cs|
    ensures |FoldAll(ws[0].last, cs[..i])| <= max ==> ws[i].last == FoldAll(ws[0].last, cs[..i])
    decreases i
  {
    if i == 0 {
      assert cs[..0] == [];
    } else {
      NothingIsForgotten(ws, cs, max, i - 1);
      assert BoundedStep(ws[i - 1], cs[i - 1], ws[i - 1 + 1], max);
      StillComplete(ws[0].last, cs, i - 1, max, ws[i - 1].last, ws[i].last);
    }
  }

  /** A document is remembered from its event on, until the entity has other attributes. */
  lemma {:induction false} DocumentStaysRemembered(last: Last, cs: seq<Change>, i: nat)
    requires i < |cs| && cs[i].now.entityId != ""
    requires forall j | i < j < |cs| :: LeavesAttributes(KeyOf(cs[i].now), cs[j])
    ensures Remembers(FoldAll(last, cs), KeyOf(cs[i].now), cs[i].now.attributes)
    decreases |cs|
  {
    var n := |cs| - 1;
    var before, k := FoldAll(last, cs[..n]), KeyOf(cs[i].now);
    if i < n {
      DocumentStaysRemembered(last, cs[..n], i);
      assert LeavesAttributes(k, cs[n]);
      var a, b := before[k].attributes, Fold(before, cs[n])[k].attributes;
      assert forall s | s in a :: s in b && b[s] == a[s];
    }
  }

  lemma RememberedIsQuiet(last: Last, doc: Change)
    requires Remembers(last, KeyOf(doc.now), doc.now.attributes)
    ensures DiffScopes(Base(last, doc).attributes, doc.now.attributes) == map[]
  {
    var base := Base(last, doc);
    forall s | s in doc.now.attributes
      ensures Diff(Scope(base.attributes, s), doc.now.attributes[s]) == map[]
    {
    }
  }

  /**
    As long as no more entities have had events than the memory has room for: a document with the attributes
    of the last one of its entity pushes no attributes, whatever came in between.
   */
  lemma QuietWhileItFits(ws: seq<Watch>, cs: seq<Change>, max: nat, i: nat, doc: Change)
    requires IsBoundedRun(ws, cs, max) && |ws[0].last.Keys + Entities(cs)| <= max
    requires i < |cs| && cs[i].now.entityId != ""
    requires KeyOf(doc.now) == KeyOf(cs[i].now) && doc.now.attributes == cs[i].now.attributes
    requires forall j | i < j < |cs| :: LeavesAttributes(KeyOf(doc.now), cs[j])
    ensures DiffScopes(Base(ws[|cs|].last, doc).attributes, doc.now.attributes) == map[]
  {
    FoldAllKeys(ws[0].last, cs);
    assert cs[..|cs|] == cs;
    NothingIsForgotten(ws, cs, max, |cs|);
    DocumentStaysRemembered(ws[0].last, cs, i);
    RememberedIsQuiet(ws[|cs|].last, doc);
  }
}
