/**
  The materialised counts: after every applied intent the `alarm_count` of every asset is the number
  of uncleared alarms on the devices below it, in any relation graph, cyclic ones included.
 */
module AlarmCounts {
  import opened Wrappers
  import opened Reachability
  import opened AlarmTables
  import opened AlarmMaterializer

  /** Which tenant an entity belongs to. */
  type Owner = string -> string

  /** Relations stay within a tenant; devices and uncleared alarms carry the tenant of their device. */
  ghost predicate Tenancy(db: Db, owner: Owner) {
    && (forall e | e in db.edges :: owner(e.from.id) == owner(e.to.id))
    && (forall d | d in db.devices :: owner(d.id) == d.tenant)
    && (forall id | id in db.alarms && !db.alarms[id].cleared ::
          db.alarms[id].tenant == owner(db.alarms[id].originator))
  }

  /** The count an entity shows; one that was never written stands for zero. */
  function Shown(db: Db, id: string): nat { if id in db.counts then db.counts[id] else 0 }

  /** The count of every asset is the number of uncleared alarms of its tenant below it. */
  ghost predicate CountsRight(db: Db, owner: Owner) {
    forall asset: string :: Shown(db, asset) == CountUnder(db, Some(owner(asset)), asset)
  }

  // ---- reachability and ownership ----

  lemma {:induction false} OwnerAlongPath(edges: set<Edge>, owner: Owner, p: seq<Node>)
    requires Path(edges, p) && forall e | e in edges :: owner(e.from.id) == owner(e.to.id)
    ensures owner(p[0].id) == owner(p[|p| - 1].id)
  {
    if |p| > 1 {
      assert Edge(p[0], p[1]) in edges;
      assert forall i | 0 <= i < |p[1..]| - 1 :: Edge(p[1..][i], p[1..][i + 1]) == Edge(p[i + 1], p[i + 1 + 1]);
      OwnerAlongPath(edges, owner, p[1..]);
    }
  }

  lemma OwnerOfReached(edges: set<Edge>, owner: Owner, a: Node, b: Node)
    requires Reaches(edges, a, b) && forall e | e in edges :: owner(e.from.id) == owner(e.to.id)
    ensures owner(a.id) == owner(b.id)
  {
    var p :| PathFromTo(edges, p, a, b);
    OwnerAlongPath(edges, owner, p);
  }

  lemma ReachesAnother(edges: set<Edge>, a: Node, b: Node)
    requires Reaches(edges, a, b) && a != b
    ensures StrictlyReaches(edges, a, b)
  {
    var p :| PathFromTo(edges, p, a, b);
    var q := p[..|p| - 1];
    assert forall i | 0 <= i < |q| - 1 :: Edge(q[i], q[i + 1]) == Edge(p[i], p[i + 1]);
    assert PathFromTo(edges, q, a, p[|p| - 2]);
    assert Edge(p[|p| - 2], p[|p| - 2 + 1]) in edges;
  }

  /** An asset that reaches a device is among the ancestors the refresh walks up to. */
  lemma AssetIsAncestor(edges: set<Edge>, asset: string, device: string)
    requires Reaches(edges, Node(asset, ASSET), Node(device, DEVICE))
    ensures asset in AncestorIds(edges, device)
  {
    var a, d := Node(asset, ASSET), Node(device, DEVICE);
    ReachesAnother(edges, a, d);
    HasOutgoing(edges, a, d);
    var e :| e in edges && e.from == a;
    assert e.from.id == asset;
  }

  lemma AncestorOwner(edges: set<Edge>, owner: Owner, id: string, device: string)
    requires id in AncestorIds(edges, device) && forall e | e in edges :: owner(e.from.id) == owner(e.to.id)
    ensures owner(id) == owner(device)
  {
    var e :| e in edges && StrictlyReaches(edges, e.from, Node(device, DEVICE)) && e.from.id == id;
    var m :| Edge(m, Node(device, DEVICE)) in edges && Reaches(edges, e.from, m);
    OwnerOfReached(edges, owner, e.from, m);
    assert owner(Edge(m, Node(device, DEVICE)).from.id) == owner(device);
  }

  // ---- the refresh restores the counts ----

  /** Everything the counts of the assets that do not reach `device` depend on is the same. */
  ghost predicate SameExceptOn(db: Db, db': Db, device: string) {
    && db'.edges == db.edges && db'.counts == db.counts
    && (forall id | id in db.alarms && db.alarms[id].originator != device ::
          id in db'.alarms && db'.alarms[id] == db.alarms[id])
    && (forall id | id in db'.alarms && db'.alarms[id].originator != device ::
          id in db.alarms && db'.alarms[id] == db.alarms[id])
  }

  lemma UnreachedCountIsUnchanged(db: Db, db': Db, device: string, tenant: Option<string>, asset: string)
    requires SameExceptOn(db, db', device) && asset !in AncestorIds(db.edges, device)
    ensures CountUnder(db', tenant, asset) == CountUnder(db, tenant, asset)
  {
    forall id
      ensures id in Under(db', tenant, asset) <==> id in Under(db, tenant, asset)
    {
      if Reaches(db.edges, Node(asset, ASSET), Node(device, DEVICE)) {
        AssetIsAncestor(db.edges, asset, device);
        assert false;
      }
    }
    assert Under(db', tenant, asset) == Under(db, tenant, asset);
  }

  /** The counts are right after a recount of whichever tenant exactly if it finds as many alarms as it should. */
  lemma RecountIsRight(db: Db, db': Db, owner: Owner, tenant: Option<string>, device: string)
    requires CountsRight(db, owner) && SameExceptOn(db, db', device)
    ensures CountsRight(Refreshed(db', tenant, device), owner) <==>
      forall id | id in AncestorIds(db.edges, device) ::
        CountUnder(db', tenant, id) == CountUnder(db', Some(owner(id)), id)
  {
    var out := Refreshed(db', tenant, device);
    forall asset: string
      ensures CountUnder(out, Some(owner(asset)), asset) == CountUnder(db', Some(owner(asset)), asset)
      ensures Shown(out, asset) == if asset in AncestorIds(db.edges, device) then CountUnder(db', tenant, asset)
                                   else CountUnder(db', Some(owner(asset)), asset)
    {
      CountIgnoresCounts(db', out.counts, Some(owner(asset)), asset);
      if asset !in AncestorIds(db.edges, device) {
        UnreachedCountIsUnchanged(db, db', device, Some(owner(asset)), asset);
        assert Shown(db, asset) == CountUnder(db, Some(owner(asset)), asset);
      }
    }
  }

  /**
    However the alarms of one device have changed, recounting its ancestors makes all counts right
    again: the upward walk finds every asset whose count can have changed.
   */
  lemma RefreshRestores(db: Db, db': Db, owner: Owner, device: string)
    requires CountsRight(db, owner) && SameExceptOn(db, db', device)
    requires forall e | e in db.edges :: owner(e.from.id) == owner(e.to.id)
    ensures CountsRight(Refreshed(db', Some(owner(device)), device), owner)
  {
    forall id | id in AncestorIds(db.edges, device)
      ensures owner(id) == owner(device)
    {
      AncestorOwner(db.edges, owner, id, device);
    }
    RecountIsRight(db, db', owner, Some(owner(device)), device);
  }

  /** A row change that touches neither tenant, originator nor the cleared flag changes no count. */
  lemma OtherFieldsDoNotCount(db: Db, db': Db, owner: Owner)
    requires CountsRight(db, owner) && db'.edges == db.edges && db'.counts == db.counts
      && db'.alarms.Keys == db.alarms.Keys
    requires forall id | id in db.alarms :: var r, r' := db.alarms[id], db'.alarms[id];
      r'.tenant == r.tenant && r'.originator == r.originator && r'.cleared == r.cleared
    ensures CountsRight(db', owner)
  {
    forall asset: string
      ensures Shown(db', asset) == CountUnder(db', Some(owner(asset)), asset)
    {
      assert Under(db', Some(owner(asset)), asset) == Under(db, Some(owner(asset)), asset);
      assert Shown(db, asset) == CountUnder(db, Some(owner(asset)), asset);
    }
  }

  ghost predicate Good(db: Db, a: Active, owner: Owner) {
    Represents(db, a) && Tenancy(db, owner) && CountsRight(db, owner)
  }

  lemma ApplyKeepsTenancy(db: Db, owner: Owner, i: Intent, now: int, newId: string, found: Option<string>)
    requires Tenancy(db, owner) && (IsValid(i) ==> IsFound(db, i.device, i.typ, found)) && newId !in db.alarms
    requires i.tenant == owner(i.device)
    ensures Tenancy(Apply(db, i, now, newId, found).db, owner)
  {
  }

  lemma ApplyKeepsRightCounts(db: Db, owner: Owner, i: Intent, now: int, newId: string, found: Option<string>)
    requires Tenancy(db, owner) && CountsRight(db, owner)
    requires (IsValid(i) ==> IsFound(db, i.device, i.typ, found)) && newId !in db.alarms
    requires i.tenant == owner(i.device)
    ensures CountsRight(Apply(db, i, now, newId, found).db, owner)
  {
    if IsValid(i) {
      match found
      case None =>
        if i.action != CLEAR && Device(i.device, i.tenant) in db.devices {
          RefreshRestores(db, Insert(db, i, now, newId), owner, i.device);
        }
      case Some(id) =>
        if i.action == CLEAR {
          RefreshRestores(db, Cleared(db, id, now), owner, i.device);
        } else if SeverityRank(i.severity) > SeverityRank(db.alarms[id].severity) {
          RefreshRestores(db, Escalated(db, id, i.severity, now), owner, i.device);
        } else {
          OtherFieldsDoNotCount(db, Extended(db, id, now), owner);
        }
    }
  }

  /** One intent, sent for the tenant its device belongs to, leaves all counts right. */
  lemma ApplyKeepsCounts(db: Db, a: Active, owner: Owner, i: Intent, now: int, newId: string, found: Option<string>)
    requires Good(db, a, owner) && (IsValid(i) ==> IsFound(db, i.device, i.typ, found)) && newId !in db.alarms
    requires i.tenant == owner(i.device)
    ensures Good(Apply(db, i, now, newId, found).db, Advance(a, i, Device(i.device, i.tenant) in db.devices), owner)
  {
    ApplyAdvances(db, a, i, now, newId, found);
    ApplyKeepsTenancy(db, owner, i, now, newId, found);
    ApplyKeepsRightCounts(db, owner, i, now, newId, found);
  }

  // ---- by how much a count changes ----

  ghost predicate IsAbove(db: Db, asset: string, device: string) {
    Reaches(db.edges, Node(asset, ASSET), Node(device, DEVICE))
  }

  /** An alarm that is opened is one more on every asset above its device, and on no other. */
  lemma OpenedIsCounted(db: Db, a: Active, owner: Owner, i: Intent, now: int, newId: string, asset: string)
    requires Good(db, a, owner) && IsValid(i) && i.action == CREATE_OR_UPDATE && newId !in db.alarms
    requires IsFound(db, i.device, i.typ, None) && Device(i.device, i.tenant) in db.devices
    ensures Shown(Apply(db, i, now, newId, None).db, asset)
      == Shown(db, asset) + if IsAbove(db, asset, i.device) then 1 else 0
  {
    var db' := Apply(db, i, now, newId, None).db;
    assert owner(i.device) == i.tenant;
    ApplyKeepsRightCounts(db, owner, i, now, newId, None);
    var tenant := Some(owner(asset));
    assert Shown(db, asset) == CountUnder(db, tenant, asset) && Shown(db', asset) == CountUnder(db', tenant, asset);
    if IsAbove(db, asset, i.device) {
      OwnerOfReached(db.edges, owner, Node(asset, ASSET), Node(i.device, DEVICE));
    }
    OneMoreUnder(db, db', newId, tenant, asset);
  }

  /** A new uncleared row: who counts it, and who does not. */
  lemma OneMoreUnder(db: Db, db': Db, id: string, tenant: Option<string>, asset: string)
    requires id !in db.alarms && id in db'.alarms && db'.edges == db.edges
    requires db'.alarms == db.alarms[id := db'.alarms[id]] && !db'.alarms[id].cleared
    requires IsAbove(db, asset, db'.alarms[id].originator) ==> Admits(tenant, db'.alarms[id])
    ensures CountUnder(db', tenant, asset)
      == CountUnder(db, tenant, asset) + if IsAbove(db, asset, db'.alarms[id].originator) then 1 else 0
  {
    var was, now := Under(db, tenant, asset), Under(db', tenant, asset);
    UnderAt(db', tenant, asset, id);
    forall j | j != id
      ensures j in now <==> j in was
    {
      UnderAt(db, tenant, asset, j);
      UnderAt(db', tenant, asset, j);
    }
    OneMore(was, now, id);
  }

  lemma UnderAt(db: Db, tenant: Option<string>, asset: string, id: string)
    ensures id in Under(db, tenant, asset) <==>
      && id in db.alarms && Admits(tenant, db.alarms[id]) && !db.alarms[id].cleared
      && IsAbove(db, asset, db.alarms[id].originator)
  {
  }

  lemma OneMore<T>(was: set<T>, now: set<T>, x: T)
    requires x !in was && forall y | y != x :: y in now <==> y in was
    ensures |now| == |was| + if x in now then 1 else 0
  {
    assert now == was + if x in now then {x} else {};
  }

  /** An alarm that is cleared is one less there, and an intent that clears none changes no count. */
  lemma ClearedIsUncounted(db: Db, a: Active, owner: Owner, i: Intent, now: int, newId: string,
                           found: Option<string>, asset: string)
    requires Good(db, a, owner) && IsValid(i) && i.action == CLEAR && newId !in db.alarms
    requires IsFound(db, i.device, i.typ, found) && i.tenant == owner(i.device)
    ensures Shown(Apply(db, i, now, newId, found).db, asset)
      == Shown(db, asset) - if found.Some? && IsAbove(db, asset, i.device) then 1 else 0
  {
    if found.Some? {
      var id, db' := found.value, Apply(db, i, now, newId, found).db;
      ApplyKeepsRightCounts(db, owner, i, now, newId, found);
      var tenant := Some(owner(asset));
      assert Shown(db, asset) == CountUnder(db, tenant, asset) && Shown(db', asset) == CountUnder(db', tenant, asset);
      if IsAbove(db, asset, i.device) {
        OwnerOfReached(db.edges, owner, Node(asset, ASSET), Node(i.device, DEVICE));
        assert id in Under(db, tenant, asset);
      }
      assert Under(db', tenant, asset) == Under(db, tenant, asset) - {id};
    }
  }

  // ---- whole runs ----

  datatype Command = Command(intent: Intent, now: int, newId: string)

  ghost predicate Step(db: Db, c: Command, db': Db) {
    && c.newId !in db.alarms
    && exists found ::
         && (IsValid(c.intent) ==> IsFound(db, c.intent.device, c.intent.typ, found))
         && db' == Apply(db, c.intent, c.now, c.newId, found).db
  }

  /** The tables after each command of a serial run. */
  ghost predicate IsRun(dbs: seq<Db>, cs: seq<Command>) {
    |dbs| == |cs| + 1 && forall i | 0 <= i < |cs| :: Step(dbs[i], cs[i], dbs[i + 1])
  }

  function Deliveries(devices: set<Device>, cs: seq<Command>): seq<Delivery> {
    seq(|cs|, i requires 0 <= i < |cs| =>
      Delivery(cs[i].intent, Device(cs[i].intent.device, cs[i].intent.tenant) in devices))
  }

  lemma EmptyTablesAreGood(devices: set<Device>, edges: set<Edge>, owner: Owner)
    requires Tenancy(Db(map[], {}, map[], devices, edges), owner)
    ensures Good(Db(map[], {}, map[], devices, edges), map[], owner)
  {
    var db := Db(map[], {}, map[], devices, edges);
    forall asset: string
      ensures Shown(db, asset) == CountUnder(db, Some(owner(asset)), asset)
    {
      assert Under(db, Some(owner(asset)), asset) == {};
    }
  }

  lemma ApplyKeepsTheGraph(db: Db, c: Command, db': Db)
    requires Step(db, c, db')
    ensures db'.edges == db.edges && db'.devices == db.devices
  {
  }

  lemma {:induction false} GoodAt(dbs: seq<Db>, cs: seq<Command>, a: Active, owner: Owner, i: nat)
    requires IsRun(dbs, cs) && Good(dbs[0], a, owner) && i <= |cs|
    requires forall c | c in cs :: c.intent.tenant == owner(c.intent.device)
    ensures Good(dbs[i], AdvanceAll(a, Deliveries(dbs[0].devices, cs[..i])), owner)
    ensures dbs[i].devices == dbs[0].devices
    decreases i
  {
    if i > 0 {
      GoodAt(dbs, cs, a, owner, i - 1);
      var c, db := cs[i - 1], dbs[i - 1];
      assert c in cs && Step(db, c, dbs[i - 1 + 1]);
      var found :| (IsValid(c.intent) ==> IsFound(db, c.intent.device, c.intent.typ, found))
        && dbs[i] == Apply(db, c.intent, c.now, c.newId, found).db;
      var earlier := Deliveries(dbs[0].devices, cs[..i - 1]);
      var all := Deliveries(dbs[0].devices, cs[..i]);
      assert all[..|all| - 1] == earlier;
      ApplyKeepsTheGraph(db, c, dbs[i]);
      ApplyKeepsCounts(db, AdvanceAll(a, earlier), owner, c.intent, c.now, c.newId, found);
    }
  }

  /**
    Over every serial run from good tables, redeliveries included: at most one active alarm for each
    device and type, with the severities of the machine, and every asset count right.
   */
  lemma RunsAreGood(dbs: seq<Db>, cs: seq<Command>, a: Active, owner: Owner)
    requires IsRun(dbs, cs) && Good(dbs[0], a, owner)
    requires forall c | c in cs :: c.intent.tenant == owner(c.intent.device)
    ensures Good(dbs[|cs|], AdvanceAll(a, Deliveries(dbs[0].devices, cs)), owner)
  {
    GoodAt(dbs, cs, a, owner, |cs|);
    assert cs[..|cs|] == cs;
  }

  /** So over every serial run from empty tables. */
  lemma RunsFromEmptyTables(dbs: seq<Db>, cs: seq<Command>, owner: Owner)
    requires IsRun(dbs, cs) && dbs[0] == Db(map[], {}, map[], dbs[0].devices, dbs[0].edges) && Tenancy(dbs[0], owner)
    requires forall c | c in cs :: c.intent.tenant == owner(c.intent.device)
    ensures Good(dbs[|cs|], AdvanceAll(map[], Deliveries(dbs[0].devices, cs)), owner)
  {
    EmptyTablesAreGood(dbs[0].devices, dbs[0].edges, owner);
    RunsAreGood(dbs, cs, map[], owner);
  }

  // ---- intents for a foreign tenant ----

  predicate ClearsOrEscalates(db: Db, i: Intent, found: Option<string>) {
    IsValid(i) && found.Some? && found.value in db.alarms
    && (i.action == CLEAR || SeverityRank(i.severity) > SeverityRank(db.alarms[found.value].severity))
  }

  /** A recount for a foreign tenant finds nothing at all above a device. */
  lemma ForeignRecount(db: Db, db': Db, owner: Owner, tenant: string, device: string)
    requires CountsRight(db, owner) && SameExceptOn(db, db', device) && Tenancy(db', owner) && tenant != owner(device)
    ensures CountsRight(Refreshed(db', Some(tenant), device), owner) <==>
      forall id | id in AncestorIds(db.edges, device) :: Under(db', Some(owner(id)), id) == {}
  {
    forall id | id in AncestorIds(db.edges, device)
      ensures Under(db', Some(tenant), id) == {}
    {
      AncestorOwner(db.edges, owner, id, device);
      forall j | j in Under(db', Some(tenant), id)
        ensures false
      {
        OwnerOfReached(db'.edges, owner, Node(id, ASSET), Node(db'.alarms[j].originator, DEVICE));
      }
    }
    RecountIsRight(db, db', owner, Some(tenant), device);
    forall id
      ensures CountUnder(db', Some(owner(id)), id) == 0 <==> Under(db', Some(owner(id)), id) == {}
    {
    }
  }

  lemma ClearedIsNotCounted(db: Db, id: string, now: int)
    ensures forall tenant, asset :: Under(Cleared(db, id, now), tenant, asset) == Under(db, tenant, asset) - {id}
  {
  }

  lemma EscalatedIsCounted(db: Db, id: string, severity: string, now: int)
    ensures forall tenant, asset :: Under(Escalated(db, id, severity, now), tenant, asset) == Under(db, tenant, asset)
  {
  }

  lemma QuietIntent(db: Db, owner: Owner, i: Intent, now: int, newId: string, found: Option<string>)
    requires CountsRight(db, owner) && Tenancy(db, owner) && (IsValid(i) ==> IsFound(db, i.device, i.typ, found))
    requires i.tenant != owner(i.device) && !ClearsOrEscalates(db, i, found)
    ensures CountsRight(Apply(db, i, now, newId, found).db, owner)
  {
    if IsValid(i) && found.Some? {
      OtherFieldsDoNotCount(db, Extended(db, found.value, now), owner);
    }
  }

  lemma ForeignClear(db: Db, owner: Owner, i: Intent, now: int, id: string)
    requires CountsRight(db, owner) && Tenancy(db, owner) && IsFound(db, i.device, i.typ, Some(id))
      && i.tenant != owner(i.device)
    ensures CountsRight(Refreshed(Cleared(db, id, now), Some(i.tenant), i.device), owner) <==>
      forall asset | asset in AncestorIds(db.edges, i.device) :: Under(db, Some(owner(asset)), asset) <= {id}
  {
    ForeignRecount(db, Cleared(db, id, now), owner, i.tenant, i.device);
    ClearedIsNotCounted(db, id, now);
  }

  lemma ForeignEscalation(db: Db, owner: Owner, i: Intent, now: int, id: string)
    requires CountsRight(db, owner) && Tenancy(db, owner) && IsFound(db, i.device, i.typ, Some(id))
      && i.tenant != owner(i.device)
    ensures CountsRight(Refreshed(Escalated(db, id, i.severity, now), Some(i.tenant), i.device), owner) <==>
      forall asset | asset in AncestorIds(db.edges, i.device) :: Under(db, Some(owner(asset)), asset) <= {}
  {
    ForeignRecount(db, Escalated(db, id, i.severity, now), owner, i.tenant, i.device);
    EscalatedIsCounted(db, id, i.severity, now);
  }

  /**
    The tenant of an intent matters. Whatever the tenant: the counts stay right exactly if it is the
    device's, or nothing is cleared or escalated, or nothing that should be counted above the device
    is left: no alarm but the one that is cleared.
   */
  lemma CountsRightAfterAnyIntent(db: Db, a: Active, owner: Owner, i: Intent, now: int, newId: string,
                                  found: Option<string>)
    requires Good(db, a, owner) && (IsValid(i) ==> IsFound(db, i.device, i.typ, found)) && newId !in db.alarms
    ensures CountsRight(Apply(db, i, now, newId, found).db, owner) <==>
      || i.tenant == owner(i.device)
      || !ClearsOrEscalates(db, i, found)
      || forall id | id in AncestorIds(db.edges, i.device) ::
           Under(db, Some(owner(id)), id) <= if i.action == CLEAR then {found.value} else {}
  {
    if i.tenant == owner(i.device) {
      ApplyKeepsRightCounts(db, owner, i, now, newId, found);
    } else if !ClearsOrEscalates(db, i, found) {
      QuietIntent(db, owner, i, now, newId, found);
    } else if i.action == CLEAR {
      ForeignClear(db, owner, i, now, found.value);
    } else {
      ForeignEscalation(db, owner, i, now, found.value);
    }
  }

  /** Two warnings on one device below one asset, and a count that says so. */
  function TwoWarnings(tenant: string, device: string, asset: string): Db {
    Db(map["1" := NewRow(tenant, device, "x", "WARNING", 0), "2" := NewRow(tenant, device, "y", "WARNING", 0)], {},
       map[asset := 2],
       {Device(device, tenant)}, {Edge(Node(asset, ASSET), Node(device, DEVICE))})
  }

  lemma TwoWarningsAreGood(tenant: string, device: string, asset: string)
    ensures Good(TwoWarnings(tenant, device, asset), map[Key(device, "x") := "WARNING", Key(device, "y") := "WARNING"],
      _ => tenant)
    ensures Under(TwoWarnings(tenant, device, asset), Some(tenant), asset) == {"1", "2"}
  {
    var db := TwoWarnings(tenant, device, asset);
    var owner := (s: string) => tenant;
    ReachesItself(db.edges, Node(asset, ASSET));
    ReachesOneMore(db.edges, Node(asset, ASSET), Node(asset, ASSET), Node(device, DEVICE));
    assert Under(db, Some(tenant), asset) == {"1", "2"};
    forall s: string
      ensures Shown(db, s) == CountUnder(db, Some(tenant), s)
    {
      if s != asset {
        forall id
          ensures id !in Under(db, Some(tenant), s)
        {
          if Reaches(db.edges, Node(s, ASSET), Node(device, DEVICE)) {
            ReachesAnother(db.edges, Node(s, ASSET), Node(device, DEVICE));
            HasOutgoing(db.edges, Node(s, ASSET), Node(device, DEVICE));
          }
        }
        assert Under(db, Some(tenant), s) == {};
      }
    }
  }

  lemma SomethingIsLeft(tenant: string, device: string, asset: string)
    ensures var db := TwoWarnings(tenant, device, asset);
      asset in AncestorIds(db.edges, device) && "1" in Under(db, Some(tenant), asset)
        && "2" in Under(db, Some(tenant), asset)
  {
    var db := TwoWarnings(tenant, device, asset);
    TwoWarningsAreGood(tenant, device, asset);
    ReachesItself(db.edges, Node(asset, ASSET));
    ReachesOneMore(db.edges, Node(asset, ASSET), Node(asset, ASSET), Node(device, DEVICE));
    AssetIsAncestor(db.edges, asset, device);
  }

  /** On these tables a clear and an escalation of one of the alarms for another tenant leave a wrong count. */
  lemma ForeignTenantMiscounts(tenant: string, other: string, device: string, asset: string, now: int, newId: string,
                               i: Intent)
    requires tenant != other && other != "" && device != "" && newId !in {"1", "2"}
    requires i in [Intent(CLEAR, other, device, "x", ""), Intent(CREATE_OR_UPDATE, other, device, "x", "CRITICAL")]
    ensures var db, a := TwoWarnings(tenant, device, asset),
      map[Key(device, "x") := "WARNING", Key(device, "y") := "WARNING"];
      && Good(db, a, _ => tenant) && IsFound(db, device, "x", Some("1"))
      && !CountsRight(Apply(db, i, now, newId, Some("1")).db, _ => tenant)
  {
    var db, a := TwoWarnings(tenant, device, asset), map[Key(device, "x") := "WARNING", Key(device, "y") := "WARNING"];
    TwoWarningsAreGood(tenant, device, asset);
    SomethingIsLeft(tenant, device, asset);
    CountsRightAfterAnyIntent(db, a, _ => tenant, i, now, newId, Some("1"));
  }
}
