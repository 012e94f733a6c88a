/**
  The watch on the maps it really uses: nested, mutable, shared by reference. What is remembered is
  written in place, which is safe only because every map that is remembered was copied first.
 */
module TwinMaps {
  import opened Wrappers
  import opened Numbers
  import opened TwinWatch

  /** `map[string]Value`. */
  class ValueMap {
    var m: map<string, Value>

    constructor ()
      ensures m == map[]
    {
      m := map[];
    }
  }

  /** `map[string]map[string]Value`; an inner map may be nil. */
  class ScopeMap {
    var m: map<string, ValueMap?>

    constructor ()
      ensures m == map[]
    {
      m := map[];
    }
  }

  /** A state as it is passed around: the record is copied, its maps are shared. */
  datatype Twin = Twin(
    entityType: string,
    tenantId: string,
    entityId: string,
    updatedTs: int,
    telemetry: ValueMap?,
    attributes: ScopeMap?)

  const NO_TWIN := Twin("", "", "", 0, null, null)

  datatype TwinChange = TwinChange(was: Twin, now: Twin)

  // ---- what a map stands for, and where it lies ----

  ghost function ValuesOf(v: ValueMap?): Values
    reads v
  {
    if v == null then map[] else v.m
  }

  ghost function Inner(a: ScopeMap?): set<ValueMap>
    reads a
  {
    if a == null then {} else set s | s in a.m && a.m[s] != null :: a.m[s]
  }

  ghost function ScopesOf(a: ScopeMap?): Scopes
    reads a, Inner(a)
  {
    if a == null then map[] else map s | s in a.m :: ValuesOf(a.m[s])
  }

  /** Every map a state owns or borrows. */
  ghost function Maps(t: Twin): set<object>
    reads t.attributes
  {
    (if t.telemetry == null then {} else {t.telemetry}) +
    (if t.attributes == null then {} else {t.attributes} + Inner(t.attributes))
  }

  ghost function StateOf(t: Twin): State
    reads t.telemetry, t.attributes, Inner(t.attributes)
  {
    State(t.entityType, t.tenantId, t.entityId, t.updatedTs, ValuesOf(t.telemetry), ScopesOf(t.attributes))
  }

  /** No inner map is shared between two scopes. */
  ghost predicate Unshared(a: ScopeMap?)
    reads a
  {
    a != null ==> forall s, t | s in a.m && t in a.m && s != t && a.m[s] != null :: a.m[s] != a.m[t]
  }

  /** No map of the state is used twice in it. */
  ghost predicate Separate(t: Twin)
    reads t.attributes
  {
    Unshared(t.attributes) && (t.telemetry != null ==> t.telemetry !in Inner(t.attributes))
  }

  // ---- copying ----

  method CopyValues(v: ValueMap?) returns (c: ValueMap)
    ensures fresh(c) && c.m == ValuesOf(v)
  {
    c := new ValueMap();
    if v != null {
      var rest := v.m.Keys;
      while rest != {}
        invariant rest <= v.m.Keys && c.m == v.m - rest
        decreases rest
      {
        var k :| k in rest;
        c.m := c.m[k := v.m[k]];
        rest := rest - {k};
      }
      assert v.m - {} == v.m;
    }
  }

  /** A map put under a scope that has none yet. */
  method AddScope(a: ScopeMap, s: string, v: ValueMap)
    requires Unshared(a) && v !in Inner(a) && (s in a.m ==> a.m[s] == null)
    modifies a
    ensures a.m == old(a.m)[s := v] && Unshared(a) && Inner(a) == old(Inner(a)) + {v}
    ensures ScopesOf(a) == old(ScopesOf(a))[s := v.m]
  {
    ghost var before, m := Inner(a), a.m;
    a.m := a.m[s := v];
    forall w | w in before + {v}
      ensures w in Inner(a)
    {
      if w != v {
        var t :| t in m && m[t] == w;
        assert a.m[t] == w;
      } else {
        assert a.m[s] == w;
      }
    }
    assert Inner(a) == before + {v};
  }

  method CopyScopes(a: ScopeMap?) returns (c: ScopeMap)
    ensures fresh(c) && fresh(Inner(c)) && Unshared(c)
    ensures ScopesOf(c) == ScopesOf(a)
  {
    c := new ScopeMap();
    if a != null {
      CopyInto(c, a);
    }
  }

  method CopyScope(c: ScopeMap, s: string, v: ValueMap?, ghost all: Values)
    requires Unshared(c) && s !in c.m && all == ValuesOf(v)
    modifies c
    ensures Unshared(c) && fresh(Inner(c) - old(Inner(c))) && ScopesOf(c) == old(ScopesOf(c))[s := all]
  {
    var values := CopyValues(v);
    AddScope(c, s, values);
  }

  method CopyInto(c: ScopeMap, a: ScopeMap)
    requires c.m == map[] && c != a
    modifies c
    ensures fresh(Inner(c)) && Unshared(c) && ScopesOf(c) == old(ScopesOf(a))
  {
    ghost var all := ScopesOf(a);
    var rest := a.m.Keys;
    while rest != {}
      invariant rest <= a.m.Keys && fresh(Inner(c)) && Unshared(c) && ScopesOf(c) == all - rest
      decreases rest
    {
      var s :| s in rest;
      CopyScope(c, s, a.m[s], all[s]);
      rest := rest - {s};
    }
    assert all - {} == all;
  }

  /** `cloneTwinState`. */
  method CloneTwinState(t: Twin) returns (c: Twin)
    ensures StateOf(c) == StateOf(t) && Separate(c) && fresh(Maps(c))
  {
    var telemetry := CopyValues(t.telemetry);
    var attributes := CopyScopes(t.attributes);
    c := t.(telemetry := telemetry, attributes := attributes);
  }

  // ---- folding in place ----

  method MergeValues(into: ValueMap, from: ValueMap?)
    requires into != from
    modifies into
    ensures into.m == old(into.m) + ValuesOf(from)
  {
    if from != null {
      var rest := from.m.Keys;
      while rest != {}
        invariant rest <= from.m.Keys && into.m == old(into.m) + (from.m - rest)
        decreases rest
      {
        var k :| k in rest;
        into.m := into.m[k := from.m[k]];
        rest := rest - {k};
      }
      assert from.m - {} == from.m;
    }
  }

  /** The map of a scope; a missing or nil one is replaced by an empty one first. */
  method ScopeFor(into: ScopeMap, s: string) returns (target: ValueMap)
    requires Unshared(into)
    modifies into
    ensures Unshared(into) && s in into.m && into.m[s] == target
    ensures fresh(Inner(into) - old(Inner(into))) && old(Inner(into)) <= Inner(into)
    ensures ScopesOf(into) == old(ScopesOf(into))[s := Scope(old(ScopesOf(into)), s)]
  {
    if s !in into.m || into.m[s] == null {
      target := new ValueMap();
      AddScope(into, s, target);
    } else {
      target := into.m[s];
    }
  }

  /** One scope of the incoming attributes, written into the map of that scope. */
  method MergeScope(into: ScopeMap, s: string, from: ValueMap?)
    requires Unshared(into) && from !in Inner(into)
    modifies into, Inner(into)
    ensures Unshared(into) && fresh(Inner(into) - old(Inner(into)))
    ensures ScopesOf(into) == old(ScopesOf(into))[s := Scope(old(ScopesOf(into)), s) + old(ValuesOf(from))]
  {
    ghost var scopes, added := ScopesOf(into), ValuesOf(from);
    var target := ScopeFor(into, s);
    ghost var filled := ScopesOf(into);
    MergeValues(target, from);
    forall t | t in into.m && t != s
      ensures ValuesOf(into.m[t]) == filled[t]
    {
      assert into.m[t] != target;
    }
    OneScopeWritten(into, s, scopes, filled, Scope(scopes, s) + added);
  }

  lemma OneScopeWritten(into: ScopeMap, s: string, scopes: Scopes, filled: Scopes, merged: Values)
    requires filled == scopes[s := Scope(scopes, s)]
    requires into.m.Keys == filled.Keys && ValuesOf(into.m[s]) == merged
    requires forall t | t in into.m && t != s :: ValuesOf(into.m[t]) == filled[t]
    ensures ScopesOf(into) == scopes[s := merged]
  {
  }

  /** The scopes merged so far. */
  ghost function Part(b: Scopes, done: set<string>): Scopes { map t | t in b && t in done :: b[t] }

  lemma MergeNothing(a: Scopes, b: Scopes)
    ensures MergeScopes(a, Part(b, {})) == a
  {
    forall t | t in a
      ensures a[t] + map[] == a[t]
    {
    }
  }

  lemma MergedEntry(a: Scopes, b: Scopes, done: set<string>, s: string, t: string)
    requires s in b && s !in done && t in MergeScopes(a, Part(b, done + {s}))
    ensures var some, all := MergeScopes(a, Part(b, done)), MergeScopes(a, Part(b, done + {s}));
      if t == s then all[t] == Scope(some, s) + b[s] else t in some && all[t] == some[t]
  {
    if t == s {
      assert Scope(Part(b, done), s) == map[] && Scope(a, s) + map[] == Scope(a, s);
    }
  }

  lemma MergeOneMore(a: Scopes, b: Scopes, done: set<string>, s: string)
    requires s in b && s !in done
    ensures var some := MergeScopes(a, Part(b, done));
      MergeScopes(a, Part(b, done + {s})) == some[s := Scope(some, s) + b[s]]
  {
    var some, all := MergeScopes(a, Part(b, done)), MergeScopes(a, Part(b, done + {s}));
    forall t | t in all
      ensures if t == s then all[t] == Scope(some, s) + b[s] else t in some && all[t] == some[t]
    {
      MergedEntry(a, b, done, s, t);
    }
  }

  method MergeAttributes(into: ScopeMap, from: ScopeMap?)
    requires Unshared(into) && into != from && Inner(into) !! Inner(from)
    modifies into, Inner(into)
    ensures Unshared(into) && fresh(Inner(into) - old(Inner(into)))
    ensures ScopesOf(into) == MergeScopes(old(ScopesOf(into)), old(ScopesOf(from)))
  {
    ghost var a, b := ScopesOf(into), ScopesOf(from);
    ghost var done: set<string> := {};
    MergeNothing(a, b);
    if from != null {
      var rest := from.m.Keys;
      while rest != {}
        invariant done + rest == from.m.Keys && done !! rest
        invariant Unshared(into) && fresh(Inner(into) - old(Inner(into)))
        invariant ScopesOf(from) == b
        invariant ScopesOf(into) == MergeScopes(a, Part(b, done))
        decreases rest
      {
        var s :| s in rest;
        MergeOneMore(a, b, done, s);
        MergeScope(into, s, from.m[s]);
        done := done + {s};
        rest := rest - {s};
      }
    }
    assert b == Part(b, done);
  }

  /** The telemetry half of the fold: a nil map is replaced when there is something to write. */
  method FoldTelemetry(held: ValueMap?, from: ValueMap?) returns (r: ValueMap?)
    requires held != null ==> held != from
    modifies held
    ensures ValuesOf(r) == old(ValuesOf(held)) + old(ValuesOf(from))
    ensures r == held || fresh(r)
  {
    r := held;
    if r == null && from != null && from.m != map[] {
      r := new ValueMap();
    }
    if r != null {
      MergeValues(r, from);
    }
  }

  method FoldAttributes(held: ScopeMap?, from: ScopeMap?) returns (r: ScopeMap?)
    requires Unshared(held) && (held != null ==> held != from) && Inner(held) !! Inner(from)
    modifies held, Inner(held)
    ensures Unshared(r) && fresh(Inner(r) - old(Inner(held))) && (r == held || fresh(r))
    ensures ScopesOf(r) == MergeScopes(old(ScopesOf(held)), old(ScopesOf(from)))
  {
    r := held;
    if r == null && from != null && from.m != map[] {
      r := new ScopeMap();
    }
    if r != null {
      MergeAttributes(r, from);
    }
  }

  /** Scopes none of whose maps was written are as they were. */
  twostate lemma ScopesStay(a: ScopeMap?)
    requires a != null ==> unchanged(a)
    requires forall o | o in old(Inner(a)) :: unchanged(o)
    ensures ScopesOf(a) == old(ScopesOf(a))
  {
  }

  /** `mergeLastState`: a first event is copied; a later one is written into the maps already held. */
  method MergeLastState(prev: Twin, next: Twin) returns (r: Twin)
    requires Separate(prev) && Maps(prev) !! Maps(next)
    modifies Maps(prev)
    ensures StateOf(r) == Merge(old(StateOf(prev)), old(StateOf(next)))
    ensures Separate(r) && fresh(Maps(r) - old(Maps(prev)))
  {
    if prev.entityId == "" {
      r := CloneTwinState(next);
      return;
    }
    ghost var merged := Merge(StateOf(prev), StateOf(next));
    var telemetry := FoldTelemetry(prev.telemetry, next.telemetry);
    ScopesStay(prev.attributes);
    ScopesStay(next.attributes);
    var attributes := FoldAttributes(prev.attributes, next.attributes);
    assert ValuesOf(telemetry) == merged.telemetry && ScopesOf(attributes) == merged.attributes;
    r := prev.(updatedTs := Max(prev.updatedTs, next.updatedTs), telemetry := telemetry, attributes := attributes);
  }

  // ---- differences ----

  lemma MaxTsOneMore(base: Values, some: Values, k: string, v: Value, ts: int)
    requires k !in some && IsMaxTs(base, some, ts)
    ensures IsMaxTs(base, some[k := v], if Differs(base, k, v) && v.ts > ts then v.ts else ts)
  {
    var all := some[k := v];
    assert forall j | j in some :: all[j] == some[j];
    assert all[k] == v;
  }

  /** `changedTelemetry`. */
  method ChangedTelemetry(was: ValueMap?, now: ValueMap?) returns (changed: map<string, Json>, maxTs: int)
    ensures changed == Diff(ValuesOf(was), ValuesOf(now)) && IsMaxTs(ValuesOf(was), ValuesOf(now), maxTs)
  {
    changed, maxTs := map[], 0;
    if now == null {
      return;
    }
    var base := if was == null then map[] else was.m;
    var rest := now.m.Keys;
    while rest != {}
      invariant rest <= now.m.Keys && changed == Diff(base, now.m - rest) && IsMaxTs(base, now.m - rest, maxTs)
      decreases rest
    {
      var k :| k in rest;
      var v := now.m[k];
      MaxTsOneMore(base, now.m - rest, k, v, maxTs);
      assert now.m - (rest - {k}) == (now.m - rest)[k := v];
      rest := rest - {k};
      if !(k in base && base[k] == v) {
        changed := changed[k := v.value];
        if v.ts > maxTs {
          maxTs := v.ts;
        }
      }
    }
    assert now.m - {} == now.m;
  }

  /** `changedAttributes`, of the scopes `a` and `b`; a scope appears with its first change. */
  method ChangedAttributes(was: ScopeMap?, now: ScopeMap?, ghost a: Scopes, ghost b: Scopes)
    returns (changed: map<string, map<string, Json>>)
    requires a == ScopesOf(was) && b == ScopesOf(now)
    ensures changed == DiffScopes(a, b)
  {
    changed := map[];
    DiffNothing(a, b);
    if now == null {
      return;
    }
    ghost var done: set<string> := {};
    var rest := now.m.Keys;
    while rest != {}
      invariant done + rest == b.Keys == now.m.Keys && done !! rest
      invariant changed == DiffScopes(a, Part(b, done))
      decreases rest
    {
      var s :| s in rest;
      var diff := ChangedInScope(was, now, s);
      DiffOneMore(a, b, done, s);
      done := done + {s};
      rest := rest - {s};
      if diff != map[] {
        changed := changed[s := diff];
      }
    }
    assert Part(b, done) == b;
  }

  lemma DiffNothing(a: Scopes, b: Scopes)
    ensures DiffScopes(a, Part(b, {})) == map[] && DiffScopes(a, map[]) == map[]
  {
  }

  method ChangedInScope(was: ScopeMap?, now: ScopeMap, s: string) returns (diff: map<string, Json>)
    requires s in now.m
    ensures diff == Diff(Scope(ScopesOf(was), s), ScopesOf(now)[s])
  {
    var base := if was != null && s in was.m then was.m[s] else null;
    var ts;
    diff, ts := ChangedTelemetry(base, now.m[s]);
  }

  lemma DiffOneMore(a: Scopes, b: Scopes, done: set<string>, s: string)
    requires s in b && s !in done
    ensures var some, d := DiffScopes(a, Part(b, done)), Diff(Scope(a, s), b[s]);
      DiffScopes(a, Part(b, done + {s})) == if d == map[] then some else some[s := d]
  {
    var part, all := Part(b, done), Part(b, done + {s});
    assert forall t | t in all :: t == s || (t in part && all[t] == part[t]);
    assert forall t | t in part :: t in all && t != s;
  }

  // ---- what is remembered ----

  class LastMap {
    var m: map<EntityKey, Twin>

    constructor ()
      ensures m == map[]
    {
      m := map[];
    }
  }

  ghost function AttributeMaps(last: LastMap): set<ScopeMap>
    reads last
  {
    set k | k in last.m && last.m[k].attributes != null :: last.m[k].attributes
  }

  /** Every map reachable from what is remembered. */
  ghost function Held(last: LastMap): set<object>
    reads last, AttributeMaps(last)
  {
    set k, o | k in last.m && o in Maps(last.m[k]) :: o
  }

  /** The maps of different entities are disjoint, and no map is used twice in one entity. */
  ghost predicate Owned(last: LastMap)
    reads last, AttributeMaps(last)
  {
    && (forall k | k in last.m :: Separate(last.m[k]))
    && (forall j, k | j in last.m && k in last.m && j != k :: Maps(last.m[j]) !! Maps(last.m[k]))
  }

  ghost function LastOf(last: LastMap): Last
    reads last, AttributeMaps(last), Held(last)
  {
    map k | k in last.m :: assert Maps(last.m[k]) <= Held(last); StateOf(last.m[k])
  }

  /** `boundLastStates`: arbitrary entries go until the map is small enough, the one just written stays. */
  method BoundLastStates(last: LastMap, keep: EntityKey, max: nat)
    requires keep in last.m && max >= 1
    modifies last
    ensures keep in last.m && |last.m| <= max
    ensures forall k | k in last.m :: k in old(last.m) && last.m[k] == old(last.m)[k]
    ensures if |old(last.m)| <= max then last.m == old(last.m) else |last.m| == max
  {
    if |last.m| <= max {
      return;
    }
    var rest := last.m.Keys;
    while rest != {}
      invariant rest <= last.m.Keys && keep in last.m && last.m.Keys <= old(last.m).Keys
      invariant last.m.Keys == rest + {keep} && |last.m| > max
      invariant forall k | k in last.m :: last.m[k] == old(last.m)[k]
      decreases rest
    {
      var k :| k in rest;
      rest := rest - {k};
      if k == keep {
        continue;
      }
      last.m := last.m - {k};
      if |last.m| <= max {
        break;
      }
    }
  }

  function StoredTwin(m: map<EntityKey, Twin>, key: EntityKey): Twin { if key in m then m[key] else NO_TWIN }

  lemma StoredState(last: LastMap, key: EntityKey)
    ensures StateOf(StoredTwin(last.m, key)) == Stored(LastOf(last), key)
    ensures Maps(StoredTwin(last.m, key)) <= Held(last)
  {
  }

  ghost function MapsByKey(last: LastMap): map<EntityKey, set<object>>
    reads last, AttributeMaps(last)
  {
    map k | k in last.m :: Maps(last.m[k])
  }

  /** All maps of a state belong to `foreign`. */
  ghost predicate HeldBy(t: Twin, foreign: set<object>)
    reads foreign
  {
    && (t.telemetry == null || t.telemetry in foreign)
    && (t.attributes == null || (t.attributes in foreign && Inner(t.attributes) <= foreign))
  }

  /** The entries but one, in maps that are among `others`. */
  ghost predicate Intact(m: map<EntityKey, Twin>, key: EntityKey, states: Last, maps: map<EntityKey, set<object>>,
                         others: set<object>)
    reads others
  {
    forall k | k in m && k != key ::
      && k in states && k in maps && HeldBy(m[k], others)
      && StateOf(m[k]) == states[k] && Separate(m[k]) && Maps(m[k]) == maps[k]
  }

  lemma OthersAreIntact(last: LastMap, key: EntityKey, maps: map<EntityKey, set<object>>, others: set<object>)
    requires Owned(last) && maps == MapsByKey(last) && others == Union(maps - {key})
    ensures Intact(last.m, key, LastOf(last), maps, others) && others !! Maps(StoredTwin(last.m, key))
  {
    forall k, o | k in last.m && k != key && o in Maps(last.m[k])
      ensures o in others
    {
      assert k in maps - {key} && o in (maps - {key})[k];
    }
    forall o | o in others
      ensures o !in Maps(StoredTwin(last.m, key))
    {
      var k :| k in maps - {key} && o in maps[k];
      assert key in last.m ==> Maps(last.m[k]) !! Maps(last.m[key]);
    }
  }

  lemma IntactIsKept(m: map<EntityKey, Twin>, key: EntityKey, states: Last, maps: map<EntityKey, set<object>>,
                     others: set<object>, t: Twin)
    requires Intact(m, key, states, maps, others) && others !! Maps(t)
    ensures forall k | k in m && k != key :: k in states && k in maps && Kept(m[k], states[k], maps[k], t)
  {
    forall k | k in m && k != key
      ensures Kept(m[k], states[k], maps[k], t)
    {
      assert Maps(m[k]) <= others;
    }
  }

  /** An entry that is as it was, and has nothing in common with `t`. */
  ghost predicate Kept(entry: Twin, state: State, maps: set<object>, t: Twin)
    reads entry.telemetry, entry.attributes, Inner(entry.attributes), t.attributes
  {
    StateOf(entry) == state && Separate(entry) && Maps(entry) == maps && maps !! Maps(t)
  }

  /** A twin none of whose maps was written is as it was. */
  twostate lemma StateStays(t: Twin)
    requires t.telemetry != null ==> unchanged(t.telemetry)
    requires t.attributes != null ==> unchanged(t.attributes)
    requires forall o | o in old(Inner(t.attributes)) :: unchanged(o)
    ensures StateOf(t) == old(StateOf(t)) && Maps(t) == old(Maps(t)) && Separate(t) == old(Separate(t))
  {
  }

  lemma NoMapIsAMemory(t: Twin, last: LastMap)
    ensures last !in Maps(t)
  {
  }

  /** The entry of an event is written; the other ones are beside it. */
  method MergeBeside(m: map<EntityKey, Twin>, key: EntityKey, stored: Twin, next: Twin, ghost was: State,
                     ghost event: State, ghost states: Last, ghost maps: map<EntityKey, set<object>>,
                     ghost own: set<object>, ghost others: set<object>)
    returns (merged: Twin)
    requires Separate(stored) && own == Maps(stored) && own !! Maps(next) && others !! own
    requires Intact(m, key, states, maps, others) && was == StateOf(stored) && event == StateOf(next)
    modifies own
    ensures StateOf(merged) == Merge(was, event) && Separate(merged) && fresh(Maps(merged) - own)
    ensures forall k | k in m && k != key ::
      k in states && k in maps && Kept(m[k], states[k], maps[k], merged)
  {
    merged := MergeLastState(stored, next);
    IntactIsKept(m, key, states, maps, others, merged);
  }

  /** The fold of one event with the entry of its entity; no other entry is touched. */
  method MergeHeld(last: LastMap, key: EntityKey, next: Twin,
                   ghost states: Last, ghost maps: map<EntityKey, set<object>>, ghost event: State)
    returns (merged: Twin)
    requires Owned(last) && Held(last) !! Maps(next)
    requires states == LastOf(last) && maps == MapsByKey(last) && event == StateOf(next)
    modifies Maps(StoredTwin(last.m, key))
    ensures StateOf(merged) == Merge(Stored(states, key), event) && Separate(merged)
    ensures fresh(Maps(merged) - if key in maps then maps[key] else {}) && unchanged(last)
    ensures forall k | k in last.m && k != key :: Kept(last.m[k], states[k], maps[k], merged)
  {
    var stored := StoredTwin(last.m, key);
    StoredState(last, key);
    ghost var own, others := Maps(stored), Union(maps - {key});
    OthersAreIntact(last, key, maps, others);
    assert own == if key in maps then maps[key] else {};
    NoMapIsAMemory(stored, last);
    merged := MergeBeside(last.m, key, stored, next, Stored(states, key), event, states, maps, own, others);
  }

  ghost function Union(maps: map<EntityKey, set<object>>): set<object> { set k, o | k in maps && o in maps[k] :: o }

  ghost predicate Disjoint(maps: map<EntityKey, set<object>>) {
    forall j, k | j in maps && k in maps && j != k :: maps[j] !! maps[k]
  }

  lemma HeldByKey(last: LastMap)
    ensures Union(MapsByKey(last)) <= Held(last) && (Owned(last) ==> Disjoint(MapsByKey(last)))
  {
    var maps := MapsByKey(last);
    forall o | o in Union(maps)
      ensures o in Held(last)
    {
      var k :| k in maps && o in maps[k];
      assert o in Maps(last.m[k]);
    }
    if Owned(last) {
      forall j, k | j in maps && k in maps && j != k
        ensures maps[j] !! maps[k]
      {
        assert Maps(last.m[j]) !! Maps(last.m[k]);
      }
    }
  }

  /** The map with one entry written, from what is known of every entry. */
  ghost predicate Written(last: LastMap, key: EntityKey, states: Last, maps: map<EntityKey, set<object>>)
    reads last, AttributeMaps(last), Held(last)
  {
    && key in last.m && Separate(last.m[key]) && last.m.Keys == states.Keys + {key} && maps.Keys == states.Keys
    && forall k | k in last.m && k != key ::
         assert Maps(last.m[k]) <= Held(last); Kept(last.m[k], states[k], maps[k], last.m[key])
  }

  lemma WrittenIsOwned(last: LastMap, key: EntityKey, states: Last, maps: map<EntityKey, set<object>>)
    requires Written(last, key, states, maps) && Disjoint(maps)
    ensures Owned(last)
  {
    forall j, k | j in last.m && k in last.m && j != k
      ensures Maps(last.m[j]) !! Maps(last.m[k])
    {
      if j != key && k != key {
        assert maps[j] !! maps[k];
      }
    }
  }

  lemma WrittenStates(last: LastMap, key: EntityKey, states: Last, maps: map<EntityKey, set<object>>)
    requires Written(last, key, states, maps)
    ensures LastOf(last) == states[key := StateOf(last.m[key])]
  {
  }

  lemma WrittenMaps(last: LastMap, key: EntityKey, states: Last, maps: map<EntityKey, set<object>>)
    requires Written(last, key, states, maps)
    ensures Held(last) <= Maps(last.m[key]) + Union(maps)
  {
    forall o | o in Held(last)
      ensures o in Maps(last.m[key]) + Union(maps)
    {
      var k :| k in last.m && o in Maps(last.m[k]);
      assert k != key ==> o in maps[k];
    }
  }

  method WriteEntry(last: LastMap, key: EntityKey, t: Twin, ghost state: State, ghost own: set<object>,
                    ghost states: Last, ghost maps: map<EntityKey, set<object>>)
    requires Separate(t) && state == StateOf(t) && own == Maps(t)
    requires last.m.Keys == states.Keys == maps.Keys && Disjoint(maps)
    requires forall k | k in last.m && k != key :: Kept(last.m[k], states[k], maps[k], t)
    modifies last
    ensures Owned(last) && last.m == old(last.m)[key := t]
    ensures LastOf(last) == states[key := state]
    ensures Held(last) <= own + Union(maps)
  {
    last.m := last.m[key := t];
    StateStays(t);
    assert Written(last, key, states, maps);
    WrittenIsOwned(last, key, states, maps);
    WrittenStates(last, key, states, maps);
    WrittenMaps(last, key, states, maps);
  }

  /** One event folded into what is remembered. */
  method FoldInto(last: LastMap, key: EntityKey, next: Twin,
                  ghost states: Last, ghost maps: map<EntityKey, set<object>>, ghost event: State,
                    ghost held: set<object>)
    requires Owned(last) && Held(last) !! Maps(next) && held == Held(last)
    requires states == LastOf(last) && maps == MapsByKey(last) && event == StateOf(next)
    modifies last, Held(last)
    ensures Owned(last) && fresh(Held(last) - held)
    ensures key in last.m && LastOf(last) == states[key := Merge(Stored(states, key), event)]
  {
    HeldByKey(last);
    StoredState(last, key);
    var merged := MergeHeld(last, key, next, states, maps, event);
    WriteEntry(last, key, merged, Merge(Stored(states, key), event), Maps(merged), states, maps);
  }

  // ---- one change, and the loop over the channel ----

  ghost function ChangeOf(c: TwinChange): Change
    reads c.was.telemetry, c.was.attributes, Inner(c.was.attributes)
    reads c.now.telemetry, c.now.attributes, Inner(c.now.attributes)
  {
    Change(StateOf(c.was), StateOf(c.now))
  }

  ghost function Carriers(c: TwinChange): set<object>
    reads c.was.attributes, c.now.attributes
  {
    Maps(c.was) + Maps(c.now)
  }

  /** The differences of an event with what was last seen. */
  ghost predicate Emitted(last: Last, c: Change, telemetry: map<string, Json>, ts: int,
                          attributes: map<string, map<string, Json>>) {
    && telemetry == Diff(Base(last, c).telemetry, c.now.telemetry)
    && IsMaxTs(Base(last, c).telemetry, c.now.telemetry, ts)
    && attributes == DiffScopes(Base(last, c).attributes, c.now.attributes)
  }

  function KeyOfTwin(t: Twin): EntityKey { EntityKey(t.entityType, t.tenantId, t.entityId) }

  method Differences(last: LastMap, c: TwinChange, ghost states: Last, ghost event: Change)
    returns (telemetry: map<string, Json>, ts: int, attributes: map<string, map<string, Json>>)
    requires states == LastOf(last) && event == ChangeOf(c)
    ensures Emitted(states, event, telemetry, ts, attributes)
  {
    var seen := StoredTwin(last.m, KeyOfTwin(c.now));
    StoredState(last, KeyOfTwin(c.now));
    var was := if seen.entityId == "" then c.was else seen;
    ghost var base := Base(states, event);
    assert StateOf(was) == base;
    telemetry, ts := ChangedTelemetry(was.telemetry, c.now.telemetry);
    attributes := ChangedAttributes(was.attributes, c.now.attributes, base.attributes, event.now.attributes);
  }

  lemma KeysOfLast(last: LastMap)
    ensures LastOf(last).Keys == last.m.Keys && |LastOf(last)| == |last.m|
  {
    var states := LastOf(last);
    assert states.Keys == last.m.Keys;
    assert |states| == |states.Keys| && |last.m| == |last.m.Keys|;
  }

  /** What is said of every entry is said of any selection of them. */
  lemma FewerAreOwned(last: LastMap, m: map<EntityKey, Twin>, states: Last, maps: map<EntityKey, set<object>>,
                      max: nat)
    requires last.m.Keys <= m.Keys == states.Keys == maps.Keys && Disjoint(maps)
    requires if |m| <= max then last.m == m else |last.m| == max
    requires forall k | k in last.m ::
      Separate(last.m[k]) && Maps(last.m[k]) == maps[k] && StateOf(last.m[k]) == states[k]
    ensures Owned(last) && Bounds(states, LastOf(last), max) && Held(last) <= Union(maps)
  {
    forall j, k | j in last.m && k in last.m && j != k
      ensures Maps(last.m[j]) !! Maps(last.m[k])
    {
      assert maps[j] !! maps[k];
    }
    forall o | o in Held(last)
      ensures o in Union(maps)
    {
      var k :| k in last.m && o in Maps(last.m[k]);
      assert o in maps[k];
    }
    var left := LastOf(last);
    BoundedByKeys(states, left, m, last.m, max);
  }

  lemma BoundedByKeys(states: Last, left: Last, m: map<EntityKey, Twin>, m': map<EntityKey, Twin>, max: nat)
    requires states.Keys == m.Keys && left.Keys == m'.Keys && Forgets(states, left)
    requires if |m| <= max then m' == m else |m'| == max
    ensures Bounds(states, left, max)
  {
    assert |m| == |m.Keys| == |states.Keys| == |states|;
    assert |m'| == |m'.Keys| == |left.Keys| == |left|;
  }

  method Shrink(last: LastMap, keep: EntityKey, max: nat, ghost states: Last, ghost held: set<object>)
    requires Owned(last) && keep in last.m && max >= 1 && states == LastOf(last) && held == Held(last)
    modifies last
    ensures Owned(last) && Bounds(states, LastOf(last), max) && Held(last) <= held
    ensures keep in last.m && |last.m| <= max
  {
    ghost var m, maps := last.m, MapsByKey(last);
    HeldByKey(last);
    KeysOfLast(last);
    BoundLastStates(last, keep, max);
    forall k | k in last.m
      ensures Separate(last.m[k]) && Maps(last.m[k]) == maps[k] && StateOf(last.m[k]) == states[k]
    {
      assert last.m[k] == m[k];
      StateStays(m[k]);
    }
    FewerAreOwned(last, m, states, maps, max);
  }

  /** One event folded in, and the map bounded. */
  method FoldAndShrink(last: LastMap, key: EntityKey, next: Twin, max: nat, ghost states: Last, ghost event: State,
                       ghost held: set<object>)
    returns (ghost kept: set<object>)
    requires Owned(last) && Held(last) !! Maps(next) && max >= 1
    requires states == LastOf(last) && event == StateOf(next) && held == Held(last)
    modifies last, Held(last)
    ensures Owned(last) && kept == Held(last) && fresh(kept - held)
    ensures Bounds(states[key := Merge(Stored(states, key), event)], LastOf(last), max)
    ensures key in last.m && |last.m| <= max
  {
    FoldInto(last, key, next, states, MapsByKey(last), event, held);
    kept := Held(last);
    Shrink(last, key, max, LastOf(last), kept);
    kept := Held(last);
  }

  /** A memory none of whose maps was written is as it was. */
  twostate lemma MemoryStays(last: LastMap)
    requires unchanged(last)
    requires forall k | k in last.m :: last.m[k].telemetry != null ==> unchanged(last.m[k].telemetry)
    requires forall k | k in last.m :: last.m[k].attributes != null ==> unchanged(last.m[k].attributes)
    requires forall k, o | k in last.m && o in old(Inner(last.m[k].attributes)) :: unchanged(o)
    ensures Owned(last) == old(Owned(last)) && Held(last) == old(Held(last)) && LastOf(last) == old(LastOf(last))
  {
    forall k | k in last.m
      ensures StateOf(last.m[k]) == old(StateOf(last.m[k])) && Maps(last.m[k]) == old(Maps(last.m[k]))
      ensures Separate(last.m[k]) == old(Separate(last.m[k]))
    {
      StateStays(last.m[k]);
    }
  }

  /** Finding the differences touches nothing that is remembered, nor the event. */
  method Compare(last: LastMap, c: TwinChange, ghost states: Last, ghost event: Change, ghost held: set<object>)
    returns (telemetry: map<string, Json>, ts: int, attributes: map<string, map<string, Json>>)
    requires Owned(last) && states == LastOf(last) && event == ChangeOf(c) && held == Held(last)
    ensures Emitted(states, event, telemetry, ts, attributes)
    ensures Owned(last) && states == LastOf(last) && event.now == StateOf(c.now) && held == Held(last)
    ensures unchanged(last) && Maps(c.now) == old(Maps(c.now))
  {
    telemetry, ts, attributes := Differences(last, c, states, event);
    MemoryStays(last);
    StateStays(c.now);
  }

  /**
    `applyTwinChange`: the differences are those with what was last seen, the event is folded in, and
    the map is bounded. Only maps that are held are written; the event's own maps are not.
   */
  method ApplyTwinChange(last: LastMap, c: TwinChange, max: nat, ghost states: Last, ghost event: Change,
                         ghost held: set<object>)
    returns (telemetry: map<string, Json>, ts: int, attributes: map<string, map<string, Json>>)
    requires Owned(last) && Held(last) !! Carriers(c) && max >= 1
    requires states == LastOf(last) && event == ChangeOf(c) && held == Held(last)
    modifies last, Held(last)
    ensures Emitted(states, event, telemetry, ts, attributes)
    ensures Owned(last) && fresh(Held(last) - held)
    ensures Bounds(Fold(states, event), LastOf(last), max)
    ensures KeyOf(event.now) in last.m && |last.m| <= max
  {
    telemetry, ts, attributes := Compare(last, c, states, event, held);
    ghost var kept := FoldAndShrink(last, KeyOfTwin(c.now), c.now, max, states, event.now, held);
    assert fresh(kept - held);
  }

  // ---- the loop over the channel ----

  function At(view: Subscriber, slot: Slot): Option<Json> { if slot in view then Some(view[slot]) else None }

  function Sent(id: string, telemetry: map<string, Json>, attributes: map<string, map<string, Json>>,
                slot: Slot): Option<Json> {
    if slot.entityId != id then None
    else if slot.scope.None? then (if slot.key in telemetry then Some(telemetry[slot.key]) else None)
    else if slot.scope.value in attributes
      && slot.key in attributes[slot.scope.value] then Some(attributes[slot.scope.value][slot.key])
    else None
  }

  ghost predicate Overlays(view: Subscriber, after: Subscriber, id: string, telemetry: map<string, Json>,
                           attributes: map<string, map<string, Json>>) {
    forall slot :: At(after, slot) == if Sent(id, telemetry, attributes, slot).Some?
      then Sent(id, telemetry, attributes, slot) else At(view, slot)
  }

  /** `broadcastTelemetry`, at the subscriber. */
  method BroadcastTelemetry(view: Subscriber, id: string, values: map<string, Json>) returns (after: Subscriber)
    ensures Overlays(view, after, id, values, map[])
  {
    after := view + map k | k in values :: Slot(id, None, k) := values[k];
  }

  /** `broadcastAttributes`, at the subscriber. */
  method BroadcastAttributes(view: Subscriber, id: string, s: string, values: map<string, Json>)
    returns (after: Subscriber)
    ensures Overlays(view, after, id, map[], map[s := values])
  {
    after := view + map k | k in values :: Slot(id, Some(s), k) := values[k];
  }

  lemma OverlayOneMore(view: Subscriber, some: Subscriber, after: Subscriber, id: string,
                       telemetry: map<string, Json>, attributes: map<string, map<string, Json>>, rest: set<string>,
                         s: string)
    requires s in rest && rest <= attributes.Keys
    requires Overlays(view, some, id, telemetry, attributes - rest)
    requires Overlays(some, after, id, map[], map[s := attributes[s]])
    ensures Overlays(view, after, id, telemetry, attributes - (rest - {s}))
  {
    forall slot
      ensures At(after, slot) == if Sent(id, telemetry, attributes - (rest - {s}), slot).Some?
        then Sent(id, telemetry, attributes - (rest - {s}), slot) else At(view, slot)
    {
      assert At(some, slot) == if Sent(id, telemetry, attributes - rest, slot).Some?
        then Sent(id, telemetry, attributes - rest, slot) else At(view, slot);
    }
  }

  /** The broadcasts of one change: telemetry if there is any, then one per scope in any order. */
  method Broadcast(view: Subscriber, id: string, telemetry: map<string, Json>,
                   attributes: map<string, map<string, Json>>)
    returns (after: Subscriber)
    ensures Overlays(view, after, id, telemetry, attributes)
  {
    after := view;
    if |telemetry| > 0 {
      after := BroadcastTelemetry(view, id, telemetry);
    }
    var rest := attributes.Keys;
    assert attributes - rest == map[];
    while rest != {}
      invariant rest <= attributes.Keys && Overlays(view, after, id, telemetry, attributes - rest)
      decreases rest
    {
      var s :| s in rest;
      var next := BroadcastAttributes(after, id, s, attributes[s]);
      OverlayOneMore(view, after, next, id, telemetry, attributes, rest, s);
      after := next;
      rest := rest - {s};
    }
    assert attributes - rest == attributes;
  }

  /** What is sent for a slot is its new content, if it differs from the base. */
  lemma SentIsTheDifference(base: State, c: Change, slot: Slot)
    ensures Sent(c.now.entityId, Diff(base.telemetry, c.now.telemetry), DiffScopes(base.attributes, c.now.attributes),
      slot)
      == if slot.entityId == c.now.entityId && Carried(c.now, slot).Some? && Carried(base, slot) != Carried(c.now, slot)
         then Some(Carried(c.now, slot).value.value) else None
  {
    if slot.scope.Some? && slot.scope.value in c.now.attributes {
      var s := slot.scope.value;
      var d := Diff(Scope(base.attributes, s), c.now.attributes[s]);
      assert slot.key in d ==> d != map[];
    }
  }

  lemma SentIsPush(last: Last, c: Change, slot: Slot)
    ensures At(Push(last, c), slot)
      == Sent(c.now.entityId, Diff(Base(last, c).telemetry, c.now.telemetry),
              DiffScopes(Base(last, c).attributes, c.now.attributes), slot)
  {
    PushIsTheDifference(last, c, slot);
    SentIsTheDifference(Base(last, c), c, slot);
  }

  lemma OverlayIsSum(view: Subscriber, after: Subscriber, push: Subscriber, id: string, telemetry: map<string, Json>,
                     attributes: map<string, map<string, Json>>)
    requires Overlays(view, after, id, telemetry, attributes)
    requires forall slot :: At(push, slot) == Sent(id, telemetry, attributes, slot)
    ensures after == view + push
  {
    forall slot
      ensures At(after, slot) == At(view + push, slot)
    {
      assert At(push, slot) == Sent(id, telemetry, attributes, slot);
    }
    assert forall slot :: slot in after <==> At(after, slot).Some?;
    assert forall slot :: slot in view + push <==> At(view + push, slot).Some?;
  }

  lemma OverlayIsPush(last: Last, c: Change, telemetry: map<string, Json>, ts: int,
                      attributes: map<string, map<string, Json>>,
                      view: Subscriber, after: Subscriber)
    requires Emitted(last, c, telemetry, ts, attributes)
    requires Overlays(view, after, c.now.entityId, telemetry, attributes)
    ensures after == view + Push(last, c)
  {
    forall slot
      ensures At(Push(last, c), slot) == Sent(c.now.entityId, telemetry, attributes, slot)
    {
      SentIsPush(last, c, slot);
    }
    OverlayIsSum(view, after, Push(last, c), c.now.entityId, telemetry, attributes);
  }

  /** Sending touches nothing that is remembered. */
  method Send(last: LastMap, view: Subscriber, id: string, telemetry: map<string, Json>,
              attributes: map<string, map<string, Json>>,
              ghost states: Last, ghost held: set<object>)
    returns (after: Subscriber)
    requires Owned(last) && states == LastOf(last) && held == Held(last)
    ensures Overlays(view, after, id, telemetry, attributes)
    ensures Owned(last) && states == LastOf(last) && held == Held(last)
  {
    after := Broadcast(view, id, telemetry, attributes);
    assert forall k | k in last.m :: Maps(last.m[k]) == old(Maps(last.m[k]));
    assert Held(last) == held;
  }

  /** The events still to come, in maps that others hold. */
  ghost predicate Offered(cs: seq<TwinChange>, i: nat, events: seq<Change>, foreign: set<object>)
    reads foreign
  {
    |cs| == |events| && forall j | i <= j < |cs| ::
      HeldBy(cs[j].was, foreign) && HeldBy(cs[j].now, foreign) && ChangeOf(cs[j]) == events[j]
  }

  lemma NextOffered(cs: seq<TwinChange>, i: nat, events: seq<Change>, foreign: set<object>)
    requires Offered(cs, i, events, foreign) && i < |cs|
    ensures ChangeOf(cs[i]) == events[i] && Carriers(cs[i]) <= foreign && Offered(cs, i + 1, events, foreign)
  {
  }

  /** One event taken from the channel. `foreign` is what others hold; nothing of it is written. */
  method WatchOne(last: LastMap, c: TwinChange, max: nat, view: Subscriber,
                  ghost states: Last, ghost event: Change, ghost held: set<object>, ghost foreign: set<object>)
    returns (after: Subscriber, ghost states': Last, ghost held': set<object>)
    requires Owned(last) && max >= 1 && held !! foreign && Carriers(c) <= foreign
    requires states == LastOf(last) && event == ChangeOf(c) && held == Held(last)
    modifies last, Held(last)
    ensures Owned(last) && states' == LastOf(last) && held' == Held(last)
    ensures fresh(held' - held) && held' !! foreign
    ensures BoundedStep(Watch(states, view), event, Watch(states', after), max)
  {
    var telemetry, ts, attributes := ApplyTwinChange(last, c, max, states, event, held);
    states', held' := LastOf(last), Held(last);
    after := Send(last, view, c.now.entityId, telemetry, attributes, states', held');
    OverlayIsPush(states, event, telemetry, ts, attributes, view, after);
  }

  /** One event taken, and those still to come are as they were. */
  method WatchNext(last: LastMap, cs: seq<TwinChange>, i: nat, max: nat, view: Subscriber,
                   ghost states: Last, ghost events: seq<Change>, ghost held: set<object>, ghost foreign: set<object>)
    returns (after: Subscriber, ghost states': Last, ghost held': set<object>)
    requires Owned(last) && max >= 1 && held !! foreign && i < |cs| == |events|
    requires states == LastOf(last) && held == Held(last)
    requires last !in foreign && Offered(cs, i, events, foreign)
    modifies last, Held(last)
    ensures Owned(last) && states' == LastOf(last) && held' == Held(last)
    ensures fresh(held' - held) && held' !! foreign
    ensures BoundedStep(Watch(states, view), events[i], Watch(states', after), max)
    ensures Offered(cs, i + 1, events, foreign)
  {
    NextOffered(cs, i, events, foreign);
    after, states', held' := WatchOne(last, cs[i], max, view, states, events[i], held, foreign);
  }

  /** One round of the loop is one more step of the watch. */
  method WatchRound(last: LastMap, cs: seq<TwinChange>, i: nat, max: nat, view: Subscriber, ghost states: Last,
                    ghost events: seq<Change>, ghost held: set<object>, ghost foreign: set<object>,
                    ghost start: Watch, ghost ws: seq<Watch>)
    returns (after: Subscriber, ghost states': Last, ghost held': set<object>, ghost ws': seq<Watch>)
    requires Owned(last) && max >= 1 && held !! foreign && i < |cs| == |events|
    requires states == LastOf(last) && held == Held(last)
    requires last !in foreign && Offered(cs, i, events, foreign)
    requires RunsTo(ws, events, i, max, start, Watch(states, view))
    modifies last, Held(last)
    ensures Owned(last) && states' == LastOf(last) && held' == Held(last)
    ensures fresh(held' - held) && held' !! foreign
    ensures Offered(cs, i + 1, events, foreign)
    ensures RunsTo(ws', events, i + 1, max, start, Watch(states', after))
  {
    after, states', held' := WatchNext(last, cs, i, max, view, states, events, held, foreign);
    OneMoreStep(ws, events, i, max, start, Watch(states, view), Watch(states', after));
    ws' := ws + [Watch(states', after)];
  }

  /**
    `watchTwinStateChanges`, for the changes delivered until the channel closes: although the maps are
    written in place and entries are dropped on the way, it takes the steps of the watch on values, and no
    entry is dropped that there is room for. It is called again with the same `last` after a resubscription.
   */
  method WatchLoop(last: LastMap, cs: seq<TwinChange>, max: nat, view: Subscriber, ghost events: seq<Change>,
                   ghost foreign: set<object>)
    returns (after: Subscriber, ghost ws: seq<Watch>)
    requires Owned(last) && max >= 1 && |cs| == |events| && Held(last) !! foreign
    requires last !in foreign && Offered(cs, 0, events, foreign)
    modifies last, Held(last)
    ensures Owned(last) && fresh(Held(last) - old(Held(last))) && Held(last) !! foreign
    ensures IsBoundedRun(ws, events, max)
    ensures ws[0] == Watch(old(LastOf(last)), view) && ws[|events|] == Watch(LastOf(last), after)
  {
    after := view;
    ghost var states, held := LastOf(last), Held(last);
    ghost var start := Watch(states, view);
    ws := [start];
    NoStep(events, max, start);
    for i := 0 to |cs|
      invariant Owned(last) && states == LastOf(last) && held == Held(last)
      invariant fresh(held - old(Held(last))) && held !! foreign
      invariant Offered(cs, i, events, foreign)
      invariant RunsTo(ws, events, i, max, start, Watch(states, after))
    {
      after, states, held, ws := WatchRound(last, cs, i, max, after, states, events, held, foreign, start, ws);
    }
    assert events[..|cs|] == events;
  }

  /**
    What this means for the subscriber: what was true of it before is true after every further change. And
    as long as no more than `max` entities have had events, nothing is forgotten.
   */
  method WatchTwinStateChanges(last: LastMap, cs: seq<TwinChange>, max: nat, view: Subscriber,
                               ghost h: seq<Change>, ghost events: seq<Change>, ghost foreign: set<object>)
    returns (after: Subscriber)
    requires Owned(last) && max >= 1 && |cs| == |events| && Held(last) !! foreign
    requires last !in foreign && Offered(cs, 0, events, foreign)
    requires Following(h, Watch(LastOf(last), view)) && Identified(h + events) && AllTruthful(h + events)
    modifies last, Held(last)
    ensures Owned(last) && fresh(Held(last) - old(Held(last))) && Held(last) !! foreign
    ensures Following(h + events, Watch(LastOf(last), after))
    ensures cs != [] ==> |last.m| <= max
    ensures |old(LastOf(last)).Keys + Entities(events)| <= max ==> LastOf(last) == FoldAll(old(LastOf(last)), events)
  {
    ghost var ws;
    after, ws := WatchLoop(last, cs, max, view, events, foreign);
    assert events[..|events|] == events;
    BoundedRunsAreRuns(ws, events, max);
    RunFollows(h, ws, events, |events|);
    NothingIsForgotten(ws, events, max, |events|);
    FoldAllKeys(ws[0].last, events);
    KeysOfLast(last);
    if cs != [] {
      RunFits(ws, events, max, |events|);
    }
  }
}
