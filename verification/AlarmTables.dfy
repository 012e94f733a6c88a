/**
  The alarm tables and the repository over them: alarm rows, links, the `alarm_count` attribute of
  every entity, the live devices, and the `Contains` relations of the `COMMON` group.
 */
module AlarmTables {
  import opened Wrappers
  import opened Numbers
  import opened Reachability

  const ORIGINATOR_TYPE_DEVICE := 5
  const DEVICE := "DEVICE"
  const ASSET := "ASSET"

  datatype Row = Row(
    tenant: string,
    originator: string,
    originatorType: int,
    typ: string,
    severity: string,
    startTs: int,
    endTs: int,
    cleared: bool,
    clearTs: int)

  datatype Device = Device(id: string, tenant: string)

  datatype Link = Link(entity: string, alarm: string)

  datatype Db = Db(
    alarms: map<string, Row>,
    links: set<Link>,
    counts: map<string, nat>,
    devices: set<Device>,
    edges: set<Edge>)

  // ---- what the queries ask ----

  predicate IsActive(r: Row, device: string, typ: string) {
    r.originator == device && r.originatorType == ORIGINATOR_TYPE_DEVICE && r.typ == typ && !r.cleared
  }

  /** `FindActiveAlarm`: an active alarm with the latest start, or none when there is none. */
  ghost predicate IsFound(db: Db, device: string, typ: string, found: Option<string>) {
    match found
    case None => forall id | id in db.alarms :: !IsActive(db.alarms[id], device, typ)
    case Some(id) =>
      && id in db.alarms && IsActive(db.alarms[id], device, typ)
      && forall j | j in db.alarms && IsActive(db.alarms[j], device, typ) ::
           db.alarms[j].startTs <= db.alarms[id].startTs
  }

  ghost predicate StrictlyReaches(edges: set<Edge>, a: Node, b: Node) {
    exists m :: Edge(m, b) in edges && Reaches(edges, a, m)
  }

  /** The tenant a count is restricted to, if it is. */
  predicate Admits(tenant: Option<string>, r: Row) { tenant.None? || r.tenant == tenant.value }

  /** The alarms counted for an asset: uncleared ones of the tenant, on devices below it. */
  ghost function Under(db: Db, tenant: Option<string>, asset: string): set<string> {
    set id | id in db.alarms && Admits(tenant, db.alarms[id]) && !db.alarms[id].cleared
             && Reaches(db.edges, Node(asset, ASSET), Node(db.alarms[id].originator, DEVICE))
  }

  ghost function CountUnder(db: Db, tenant: Option<string>, asset: string): nat { |Under(db, tenant, asset)| }

  /** The identifiers of everything strictly above a device. */
  ghost function AncestorIds(edges: set<Edge>, device: string): set<string> {
    set e | e in edges && StrictlyReaches(edges, e.from, Node(device, DEVICE)) :: e.from.id
  }

  /** The counts after those of `ids` have been written anew. */
  ghost function Recounted(db: Db, tenant: Option<string>, ids: set<string>): map<string, nat> {
    map id | id in db.counts.Keys + ids :: if id in ids then CountUnder(db, tenant, id) else db.counts[id]
  }

  /** Each ancestor is recounted as an asset, nothing else is touched. */
  ghost function Refreshed(db: Db, tenant: Option<string>, device: string): Db {
    db.(counts := Recounted(db, tenant, AncestorIds(db.edges, device)))
  }

  function Extended(db: Db, id: string, endTs: int): Db {
    if id in db.alarms then db.(alarms := db.alarms[id := db.alarms[id].(endTs := endTs)]) else db
  }

  function Escalated(db: Db, id: string, severity: string, endTs: int): Db {
    if id in db.alarms then db.(alarms := db.alarms[id := db.alarms[id].(endTs := endTs, severity := severity)]) else db
  }

  function Cleared(db: Db, id: string, clearTs: int): Db {
    if id in db.alarms then
      var r := db.alarms[id];
      db.(alarms := db.alarms[id := r.(cleared := true, clearTs := clearTs, endTs := Max(r.endTs, clearTs))])
    else db
  }

  function NewRow(tenant: string, device: string, typ: string, severity: string, now: int): Row {
    Row(tenant, device, ORIGINATOR_TYPE_DEVICE, typ, severity, now, now, false, 0)
  }

  // ---- the repository ----

  class PostgresRepository {
    var alarms: map<string, Row>
    var links: set<Link>
    var counts: map<string, nat>
    var devices: set<Device>
    var edges: set<Edge>

    constructor (devices: set<Device>, edges: set<Edge>)
      ensures View() == Db(map[], {}, map[], devices, edges)
    {
      alarms, links, counts := map[], {}, map[];
      this.devices, this.edges := devices, edges;
    }

    function View(): Db
      reads this
    {
      Db(alarms, links, counts, devices, edges)
    }

    /** `ORDER BY start_ts DESC LIMIT 1` over the active rows. */
    method FindActiveAlarm(device: string, typ: string) returns (found: Option<string>)
      ensures IsFound(View(), device, typ, found)
    {
      found := None;
      var rest := alarms.Keys;
      while rest != {}
        invariant rest <= alarms.Keys
        invariant found.Some? ==> found.value in alarms && IsActive(alarms[found.value], device, typ)
        invariant forall j | j in alarms && j !in rest && IsActive(alarms[j], device, typ) ::
                    found.Some? && alarms[j].startTs <= alarms[found.value].startTs
        decreases rest
      {
        var id :| id in rest;
        rest := rest - {id};
        if IsActive(alarms[id], device, typ) && (found == None || alarms[id].startTs > alarms[found.value].startTs) {
          found := Some(id);
        }
      }
    }

    /** Inserts a row only for a live device of the tenant; otherwise the originator is missing. */
    method InsertAlarm(id: string, tenant: string, device: string, typ: string, severity: string, now: int)
      returns (ok: bool)
      requires id !in alarms
      modifies this`alarms
      ensures ok <==> Device(device, tenant) in devices
      ensures View() == if ok then old(View()).(alarms := old(alarms)[id := NewRow(tenant, device, typ, severity, now)])
        else old(View())
    {
      ok := Device(device, tenant) in devices;
      if ok {
        alarms := alarms[id := NewRow(tenant, device, typ, severity, now)];
      }
    }

    method LinkEntityAlarm(entity: string, id: string)
      modifies this`links
      ensures View() == old(View()).(links := old(links) + {Link(entity, id)})
    {
      links := links + {Link(entity, id)};
    }

    method ExtendAlarm(id: string, endTs: int)
      modifies this`alarms
      ensures View() == Extended(old(View()), id, endTs)
    {
      if id in alarms {
        alarms := alarms[id := alarms[id].(endTs := endTs)];
      }
    }

    method EscalateAlarm(id: string, severity: string, endTs: int)
      modifies this`alarms
      ensures View() == Escalated(old(View()), id, severity, endTs)
    {
      if id in alarms {
        alarms := alarms[id := alarms[id].(endTs := endTs, severity := severity)];
      }
    }

    method ClearAlarm(id: string, clearTs: int)
      modifies this`alarms
      ensures View() == Cleared(old(View()), id, clearTs)
    {
      if id in alarms {
        var r := alarms[id];
        alarms := alarms[id := r.(cleared := true, clearTs := clearTs, endTs := Max(r.endTs, clearTs))];
      }
    }

    /** Uncleared alarms, of the tenant if one is given, whose originator is among the descendants of type DEVICE. */
    method CountActive(tenant: Option<string>, asset: string) returns (n: nat)
      ensures n == CountUnder(View(), tenant, asset)
    {
      var start := Node(asset, ASSET);
      var below := RecursiveQuery(edges, {start});
      var ids := set id | id in alarms && Admits(tenant, alarms[id]) && !alarms[id].cleared
                          && Node(alarms[id].originator, DEVICE) in below;
      assert ids == Under(View(), tenant, asset) by {
        forall n: Node
          ensures n in below <==> Reaches(edges, start, n)
        {
          assert ReachedFrom(edges, {start}, n) <==> Reaches(edges, start, n);
        }
      }
      n := |ids|;
    }

    /** The identifiers of the walk up the relations, in some order, once for each type they have. */
    method Ancestors(device: string) returns (ids: seq<string>)
      ensures Ids(ids) == AncestorIds(edges, device)
    {
      var parents := set e | e in edges && e.to == Node(device, DEVICE) :: e.from;
      var rest := RecursiveQuery(Reversed(edges), parents);
      ghost var nodes := rest;
      AncestorsAreAbove(edges, device, parents, nodes);
      ids := [];
      while rest != {}
        invariant rest <= nodes
        invariant forall id :: id in ids <==> exists n :: n in nodes - rest && n.id == id
        decreases rest
      {
        var n :| n in rest;
        rest := rest - {n};
        ids := ids + [n.id];
      }
    }

    /** The walk, then one recount and upsert for each ancestor. */
    method RefreshAncestorAlarmCounts(tenant: string, device: string)
      modifies this`counts
      ensures View() == Refreshed(old(View()), Some(tenant), device)
    {
      var ids := Ancestors(device);
      ghost var db := View();
      for i := 0 to |ids|
        invariant View() == db.(counts := counts)
        invariant Upserted(db, Some(tenant), counts, ids[i..]) == Upserted(db, Some(tenant), db.counts, ids)
      {
        var count := CountActive(Some(tenant), ids[i]);
        CountIgnoresCounts(db, counts, Some(tenant), ids[i]);
        assert ids[i..][0] == ids[i] && ids[i..][1..] == ids[i + 1..];
        counts := counts[ids[i] := count];
      }
      assert ids[|ids|..] == [];
      UpsertedAll(db, Some(tenant), ids);
    }
  }

  ghost function Ids(ids: seq<string>): set<string> { set id | id in ids }

  /** The counts after one upsert for each of `ids`, in order. */
  ghost function Upserted(db: Db, tenant: Option<string>, counts: map<string, nat>, ids: seq<string>): map<string, nat>
    decreases |ids|
  {
    if ids == [] then counts else Upserted(db, tenant, counts[ids[0] := CountUnder(db, tenant, ids[0])], ids[1..])
  }

  lemma {:induction false} UpsertedIsRecounted(db: Db, tenant: Option<string>, done: set<string>, ids: seq<string>)
    ensures Upserted(db, tenant, Recounted(db, tenant, done), ids) == Recounted(db, tenant, done + Ids(ids))
    decreases |ids|
  {
    if ids == [] {
      assert done + Ids(ids) == done;
    } else {
      RecountOneMore(db, tenant, done, ids[0]);
      UpsertedIsRecounted(db, tenant, done + {ids[0]}, ids[1..]);
      assert done + Ids(ids) == (done + {ids[0]}) + Ids(ids[1..]);
    }
  }

  lemma UpsertedAll(db: Db, tenant: Option<string>, ids: seq<string>)
    ensures Upserted(db, tenant, db.counts, ids) == Recounted(db, tenant, Ids(ids))
  {
    assert Recounted(db, tenant, {}) == db.counts;
    UpsertedIsRecounted(db, tenant, {}, ids);
    assert {} + Ids(ids) == Ids(ids);
  }

  lemma RecountOneMore(db: Db, tenant: Option<string>, done: set<string>, id: string)
    ensures Recounted(db, tenant, done + {id}) == Recounted(db, tenant, done)[id := CountUnder(db, tenant, id)]
  {
  }

  lemma CountIgnoresCounts(db: Db, counts: map<string, nat>, tenant: Option<string>, asset: string)
    ensures CountUnder(db.(counts := counts), tenant, asset) == CountUnder(db, tenant, asset)
  {
    assert Under(db.(counts := counts), tenant, asset) == Under(db, tenant, asset);
  }

  /** The rows of the upward query are exactly the nodes strictly above the device. */
  lemma AncestorsAreAbove(edges: set<Edge>, device: string, parents: set<Node>, ancestors: set<Node>)
    requires parents == set e | e in edges && e.to == Node(device, DEVICE) :: e.from
    requires IsClosure(Reversed(edges), parents, ancestors)
    ensures forall n :: n in ancestors <==> StrictlyReaches(edges, n, Node(device, DEVICE))
    ensures AncestorIds(edges, device) == set n | n in ancestors :: n.id
  {
    var d := Node(device, DEVICE);
    forall n
      ensures n in ancestors <==> StrictlyReaches(edges, n, d)
    {
      if n in ancestors {
        assert ReachedFrom(Reversed(edges), parents, n);
        var m :| m in parents && Reaches(Reversed(edges), m, n);
        var e :| e in edges && e.to == d && e.from == m;
        assert e == Edge(m, d);
        ReversedReaches(edges, m, n);
      }
      if StrictlyReaches(edges, n, d) {
        var m :| Edge(m, d) in edges && Reaches(edges, n, m);
        assert Edge(m, d).from in parents;
        ReversedReaches(edges, m, n);
        assert ReachedFrom(Reversed(edges), parents, n);
      }
    }
    forall n | n in ancestors
      ensures n.id in AncestorIds(edges, device)
    {
      HasOutgoing(edges, n, d);
    }
  }

  lemma HasOutgoing(edges: set<Edge>, a: Node, b: Node)
    requires StrictlyReaches(edges, a, b)
    ensures exists e :: e in edges && e.from == a
  {
    var m :| Edge(m, b) in edges && Reaches(edges, a, m);
    var p :| PathFromTo(edges, p, a, m);
    if |p| == 1 {
      assert Edge(m, b).from == a;
    } else {
      assert Edge(p[0], p[1]) in edges;
      assert Edge(p[0], p[1]).from == a;
    }
  }
}
