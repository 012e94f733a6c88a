/**
  The second implementation of the alarm lifecycle, driven by flow decisions on the same tables. For
  live devices and non-empty severities it takes the same steps of the same machine.
 */
module FlowAlarms {
  import opened Wrappers
  import opened Reachability
  import opened AlarmTables
  import opened AlarmMaterializer
  import opened AlarmCounts

  datatype Decision = Decision(create: bool, clear: bool, typ: string, severity: string)

  /** `UpsertAlarm`, given what its lookup returned: no check of the device, a default severity. */
  ghost function WithAlarm(db: Db, tenant: string, device: string, d: Decision, now: int, newId: string,
                           found: Option<string>): Db
    requires IsFound(db, device, d.typ, found)
  {
    match found
    case Some(id) =>
      if d.severity != "" && SeverityRank(d.severity) > SeverityRank(db.alarms[id].severity)
      then Escalated(db, id, d.severity, now) else Extended(db, id, now)
    case None =>
      var severity := if d.severity != "" then d.severity else "WARNING";
      db.(alarms := db.alarms[newId := NewRow(tenant, device, d.typ, severity, now)],
          links := db.links + {Link(device, newId)})
  }

  /** `ClearAlarm` of this implementation leaves the end of the alarm alone. */
  function ClearedOnly(db: Db, id: string, clearTs: int): Db {
    if id in db.alarms then db.(alarms := db.alarms[id := db.alarms[id].(cleared := true, clearTs := clearTs)]) else db
  }

  /** `propagateAlarmCount`: the ancestors are recounted without regard to the tenant. */
  ghost function Propagated(db: Db, device: string): Db { Refreshed(db, None, device) }

  method UpsertAlarm(repo: PostgresRepository, tenant: string, device: string, d: Decision, now: int, newId: string)
    returns (alarmId: string, ghost found: Option<string>)
    requires newId !in repo.alarms
    modifies repo
    ensures IsFound(old(repo.View()), device, d.typ, found)
    ensures repo.View() == WithAlarm(old(repo.View()), tenant, device, d, now, newId, found)
    ensures alarmId == if found.Some? then found.value else newId
    ensures found == None ==>
      && repo.alarms == old(repo.alarms)[newId :=
           Row(tenant, device, 5, d.typ, if d.severity == "" then "WARNING" else d.severity, now, now, false, 0)]
      && repo.links == old(repo.links) + {Link(device, newId)}
    ensures found.Some? ==>
      var r := old(repo.alarms)[found.value];
      repo.alarms == old(repo.alarms)[found.value :=
        r.(endTs := now, severity := if Worse(d.severity, r.severity) then d.severity else r.severity)]
  {
    var existing := repo.FindActiveAlarm(device, d.typ);
    found := existing;
    if existing.Some? {
      var id := existing.value;
      RankIsTheOrder(d.severity, repo.alarms[id].severity);
      if d.severity != "" && SeverityRank(d.severity) > SeverityRank(repo.alarms[id].severity) {
        repo.EscalateAlarm(id, d.severity, now);
      } else {
        repo.ExtendAlarm(id, now);
      }
      return id, found;
    }
    var severity := "WARNING";
    if d.severity != "" {
      severity := d.severity;
    }
    repo.alarms := repo.alarms[newId := NewRow(tenant, device, d.typ, severity, now)];
    repo.LinkEntityAlarm(device, newId);
    return newId, found;
  }

  method ClearAlarm(repo: PostgresRepository, device: string, typ: string, now: int)
    returns (alarmId: string, ghost found: Option<string>)
    modifies repo
    ensures IsFound(old(repo.View()), device, typ, found)
    ensures repo.View() == if found.Some? then ClearedOnly(old(repo.View()), found.value, now) else old(repo.View())
    ensures alarmId == if found.Some? then found.value else ""
    ensures found.Some? ==> repo.alarms == old(repo.alarms)[alarmId :=
      old(repo.alarms)[alarmId].(cleared := true, clearTs := now)]
  {
    var existing := repo.FindActiveAlarm(device, typ);
    found := existing;
    if existing == None {
      return "", found;
    }
    var id := existing.value;
    repo.alarms := repo.alarms[id := repo.alarms[id].(cleared := true, clearTs := now)];
    return id, found;
  }

  method PropagateAlarmCount(repo: PostgresRepository, device: string)
    modifies repo
    ensures repo.View() == Propagated(old(repo.View()), device)
  {
    var ids := repo.Ancestors(device);
    ghost var db := repo.View();
    for i := 0 to |ids|
      invariant repo.View() == db.(counts := repo.counts)
      invariant Upserted(db, None, repo.counts, ids[i..]) == Upserted(db, None, db.counts, ids)
    {
      var count := repo.CountActive(None, ids[i]);
      CountIgnoresCounts(db, repo.counts, None, ids[i]);
      assert ids[i..][0] == ids[i] && ids[i..][1..] == ids[i + 1..];
      repo.counts := repo.counts[ids[i] := count];
    }
    assert ids[|ids|..] == [];
    UpsertedAll(db, None, ids);
  }

  // ---- the same machine ----

  /** What a decision asks for, as intents. */
  function CreateIntent(tenant: string, device: string, d: Decision): Intent {
    Intent(CREATE_OR_UPDATE, tenant, device, d.typ, d.severity)
  }

  /** The severity that counts: a new alarm without one is a WARNING. */
  function Effective(a: Active, k: Key, severity: string): string {
    if severity == "" && k !in a then "WARNING" else severity
  }

  /** Upserting is the step the materializer takes for a live device. */
  lemma UpsertAdvances(db: Db, a: Active, tenant: string, device: string, d: Decision, now: int, newId: string,
                       found: Option<string>)
    requires Represents(db, a) && IsFound(db, device, d.typ, found) && newId !in db.alarms
    ensures var k := Key(device, d.typ);
      Represents(WithAlarm(db, tenant, device, d, now, newId, found), Raise(a, k, Effective(a, k, d.severity), true))
  {
    var k, db' := Key(device, d.typ), WithAlarm(db, tenant, device, d, now, newId, found);
    LookupIsExact(db, a, k, found);
    if found.Some? {
      RowWritten(db, a, found.value, db'.alarms[found.value], db');
      if SeverityRank(d.severity) <= SeverityRank(a[k]) {
        assert a[k := a[k]] == a;
      }
    } else {
      RowWritten(db, a, newId, db'.alarms[newId], db');
    }
  }

  lemma ClearAdvances(db: Db, a: Active, device: string, typ: string, now: int, found: Option<string>)
    requires Represents(db, a) && IsFound(db, device, typ, found)
    ensures Represents(if found.Some? then ClearedOnly(db, found.value, now) else db, Lower(a, Key(device, typ)))
  {
    var k := Key(device, typ);
    LookupIsExact(db, a, k, found);
    if found.Some? {
      var db' := ClearedOnly(db, found.value, now);
      RowWritten(db, a, found.value, db'.alarms[found.value], db');
    } else {
      assert Lower(a, k) == a;
    }
  }

  lemma ActiveIsUnique(db: Db, a: Active, b: Active)
    requires Represents(db, a) && Represents(db, b)
    ensures a == b
  {
    forall k
      ensures k in a <==> k in b
      ensures k in a && k in b ==> a[k] == b[k]
    {
      if k in a {
        var id :| id in db.alarms && IsLive(db.alarms[id]) && KeyOf(db.alarms[id]) == k;
        assert b[KeyOf(db.alarms[id])] == a[k];
      }
      if k in b {
        var id :| id in db.alarms && IsLive(db.alarms[id]) && KeyOf(db.alarms[id]) == k;
        assert a[KeyOf(db.alarms[id])] == b[k];
      }
    }
  }

  /** The same active alarms with the same severities. */
  ghost predicate SameActive(x: Db, y: Db) {
    exists a :: Represents(x, a) && Represents(y, a)
  }

  /**
    On tables with the same active alarms, a create intent and the matching decision leave the same
    active alarms exactly when the device is live or its alarm is already active: the upsert does not
    look at the device.
   */
  lemma SameActiveAfterCreate(db1: Db, db2: Db, a: Active, tenant: string, device: string, d: Decision,
                              t1: int, id1: string, f1: Option<string>, t2: int, id2: string, f2: Option<string>)
    requires Represents(db1, a) && Represents(db2, a)
    requires IsFound(db1, device, d.typ, f1) && IsFound(db2, device, d.typ, f2) && id1 !in db1.alarms
      && id2 !in db2.alarms
    requires IsValid(CreateIntent(tenant, device, d))
    ensures var x := Apply(db1, CreateIntent(tenant, device, d), t1, id1, f1).db;
      var y := WithAlarm(db2, tenant, device, d, t2, id2, f2);
      SameActive(x, y) <==> Device(device, tenant) in db1.devices || Key(device, d.typ) in a
  {
    var x := Apply(db1, CreateIntent(tenant, device, d), t1, id1, f1).db;
    var y := WithAlarm(db2, tenant, device, d, t2, id2, f2);
    var live, k := Device(device, tenant) in db1.devices, Key(device, d.typ);
    ApplyAdvances(db1, a, CreateIntent(tenant, device, d), t1, id1, f1);
    UpsertAdvances(db2, a, tenant, device, d, t2, id2, f2);
    var ax, ay := Raise(a, k, d.severity, live), Raise(a, k, d.severity, true);
    assert Represents(x, ax) && Represents(y, ay);
    if SameActive(x, y) {
      var b :| Represents(x, b) && Represents(y, b);
      ActiveIsUnique(x, ax, b);
      ActiveIsUnique(y, ay, b);
    } else {
      assert ax != ay;
    }
  }

  lemma SameActiveAfterClear(db1: Db, db2: Db, a: Active, tenant: string, device: string, typ: string,
                             t1: int, id1: string, f1: Option<string>, t2: int, f2: Option<string>)
    requires Represents(db1, a) && Represents(db2, a)
    requires IsFound(db1, device, typ, f1) && IsFound(db2, device, typ, f2) && id1 !in db1.alarms
    requires IsValid(Intent(CLEAR, tenant, device, typ, ""))
    ensures var x := Apply(db1, Intent(CLEAR, tenant, device, typ, ""), t1, id1, f1).db;
      var y := if f2.Some? then ClearedOnly(db2, f2.value, t2) else db2;
      SameActive(x, y)
  {
    ApplyAdvances(db1, a, Intent(CLEAR, tenant, device, typ, ""), t1, id1, f1);
    ClearAdvances(db2, a, device, typ, t2, f2);
    AdvanceOfClear(a, tenant, device, typ);
  }

  lemma AdvanceOfClear(a: Active, tenant: string, device: string, typ: string)
    requires IsValid(Intent(CLEAR, tenant, device, typ, ""))
    ensures forall live :: Advance(a, Intent(CLEAR, tenant, device, typ, ""), live) == Lower(a, Key(device, typ))
  {
  }

  // ---- the same counts ----

  /** Where rows carry the tenant of their device, counting without the tenant finds the same alarms. */
  lemma TenantBlindCount(db: Db, owner: Owner, asset: string)
    requires Tenancy(db, owner)
    ensures Under(db, None, asset) == Under(db, Some(owner(asset)), asset)
  {
    forall id | id in Under(db, None, asset)
      ensures id in Under(db, Some(owner(asset)), asset)
    {
      OwnerOfReached(db.edges, owner, Node(asset, ASSET), Node(db.alarms[id].originator, DEVICE));
    }
  }

  /** So the propagation is the refresh of the materializer. */
  lemma PropagationIsRefresh(db: Db, owner: Owner, device: string)
    requires Tenancy(db, owner)
    ensures Propagated(db, device) == Refreshed(db, Some(owner(device)), device)
  {
    var ids := AncestorIds(db.edges, device);
    forall id | id in ids
      ensures CountUnder(db, None, id) == CountUnder(db, Some(owner(device)), id)
    {
      AncestorOwner(db.edges, owner, id, device);
      TenantBlindCount(db, owner, id);
    }
    assert Recounted(db, None, ids) == Recounted(db, Some(owner(device)), ids);
  }

  /** The create half of a decision, with its propagation. */
  ghost function AfterCreate(db: Db, tenant: string, device: string, d: Decision, now: int, newId: string,
                             found: Option<string>): Db
    requires d.create ==> IsFound(db, device, d.typ, found)
  {
    if d.create then Propagated(WithAlarm(db, tenant, device, d, now, newId, found), device) else db
  }

  ghost function WithoutAlarm(db: Db, found: Option<string>, now: int): Db {
    if found.Some? then ClearedOnly(db, found.value, now) else db
  }

  /** The clear half. */
  ghost function AfterClear(db: Db, device: string, d: Decision, now: int, found: Option<string>): Db {
    if d.clear then Propagated(WithoutAlarm(db, found, now), device) else db
  }

  /** One decision, given what its lookups returned. */
  ghost predicate DecisionStep(db: Db, tenant: string, device: string, d: Decision, now: int, newId: string,
                               clearNow: int,
                               f1: Option<string>, f2: Option<string>, db': Db) {
    (d.create ==> IsFound(db, device, d.typ, f1)) &&
    var mid := AfterCreate(db, tenant, device, d, now, newId, f1);
    (d.clear ==> IsFound(mid, device, d.typ, f2)) && db' == AfterClear(mid, device, d, clearNow, f2)
  }

  /** `ProcessAlarmDecision`: a create, a clear, or both, each followed by the propagation. */
  method ProcessAlarmDecision(repo: PostgresRepository, tenant: string, device: string, d: Decision, now: int,
                              newId: string, clearNow: int)
    returns (ghost f1: Option<string>, ghost f2: Option<string>)
    requires newId !in repo.alarms
    modifies repo
    ensures DecisionStep(old(repo.View()), tenant, device, d, now, newId, clearNow, f1, f2, repo.View())
  {
    f1, f2 := None, None;
    var id;
    if d.create {
      id, f1 := UpsertAlarm(repo, tenant, device, d, now, newId);
      PropagateAlarmCount(repo, device);
    }
    if d.clear {
      id, f2 := ClearAlarm(repo, device, d.typ, clearNow);
      PropagateAlarmCount(repo, device);
    }
  }

  // ---- what a decision keeps ----

  function ByCreate(a: Active, device: string, d: Decision): Active {
    var k := Key(device, d.typ);
    if d.create then Raise(a, k, Effective(a, k, d.severity), true) else a
  }

  function ByDecision(a: Active, device: string, d: Decision): Active {
    if d.clear then Lower(ByCreate(a, device, d), Key(device, d.typ)) else ByCreate(a, device, d)
  }

  /** A create or a clear, followed by its propagation, keeps tables and counts good. */
  lemma PropagationKeepsGood(db: Db, changed: Db, a: Active, owner: Owner, device: string)
    requires CountsRight(db, owner) && Tenancy(db, owner) && SameExceptOn(db, changed, device)
    requires Represents(changed, a) && Tenancy(changed, owner)
    ensures Good(Propagated(changed, device), a, owner)
  {
    PropagationIsRefresh(changed, owner, device);
    RefreshRestores(db, changed, owner, device);
    SameRows(changed, a, Propagated(changed, device));
  }

  lemma CreateKeepsGood(db: Db, a: Active, owner: Owner, tenant: string, device: string, d: Decision, now: int,
                        newId: string, found: Option<string>)
    requires Good(db, a, owner) && d.create && IsFound(db, device, d.typ, found) && newId !in db.alarms
    requires owner(device) == tenant || found.Some?
    ensures Good(AfterCreate(db, tenant, device, d, now, newId, found), ByCreate(a, device, d), owner)
  {
    UpsertAdvances(db, a, tenant, device, d, now, newId, found);
    UpsertStaysOnDevice(db, owner, tenant, device, d, now, newId, found);
    PropagationKeepsGood(db, WithAlarm(db, tenant, device, d, now, newId, found), ByCreate(a, device, d), owner,
                         device);
  }

  lemma UpsertStaysOnDevice(db: Db, owner: Owner, tenant: string, device: string, d: Decision, now: int, newId: string,
                            found: Option<string>)
    requires Tenancy(db, owner) && IsFound(db, device, d.typ, found) && newId !in db.alarms
    ensures var changed := WithAlarm(db, tenant, device, d, now, newId, found);
      SameExceptOn(db, changed, device) && (owner(device) == tenant || found.Some? ==> Tenancy(changed, owner))
  {
  }

  lemma ClearKeepsGood(db: Db, a: Active, owner: Owner, device: string, typ: string, now: int, found: Option<string>)
    requires Good(db, a, owner) && IsFound(db, device, typ, found)
    ensures Good(Propagated(WithoutAlarm(db, found, now), device), Lower(a, Key(device, typ)), owner)
  {
    ClearAdvances(db, a, device, typ, now, found);
    ClearStaysOnDevice(db, owner, device, typ, now, found);
    PropagationKeepsGood(db, WithoutAlarm(db, found, now), Lower(a, Key(device, typ)), owner, device);
  }

  lemma ClearStaysOnDevice(db: Db, owner: Owner, device: string, typ: string, now: int, found: Option<string>)
    requires Tenancy(db, owner) && IsFound(db, device, typ, found)
    ensures SameExceptOn(db, WithoutAlarm(db, found, now), device) && Tenancy(WithoutAlarm(db, found, now), owner)
  {
  }

  /**
    A decision for the device's own tenant, or one that opens no alarm, keeps rows, counts and machine
    good.
   */
  lemma DecisionKeepsGood(db: Db, a: Active, owner: Owner, tenant: string, device: string, d: Decision, now: int,
                          newId: string, clearNow: int,
                          f1: Option<string>, f2: Option<string>, db': Db)
    requires Good(db, a, owner) && newId !in db.alarms
      && DecisionStep(db, tenant, device, d, now, newId, clearNow, f1, f2, db')
    requires owner(device) == tenant || !d.create || f1.Some?
    ensures Good(db', ByDecision(a, device, d), owner) && db'.devices == db.devices
  {
    CreateHalfKeepsGood(db, a, owner, tenant, device, d, now, newId, f1);
    var mid := AfterCreate(db, tenant, device, d, now, newId, f1);
    ClearHalfKeepsGood(mid, ByCreate(a, device, d), owner, device, d, clearNow, f2);
  }

  lemma CreateHalfKeepsGood(db: Db, a: Active, owner: Owner, tenant: string, device: string, d: Decision, now: int,
                            newId: string, found: Option<string>)
    requires Good(db, a, owner) && newId !in db.alarms && (d.create ==> IsFound(db, device, d.typ, found))
    requires owner(device) == tenant || !d.create || found.Some?
    ensures Good(AfterCreate(db, tenant, device, d, now, newId, found), ByCreate(a, device, d), owner)
    ensures AfterCreate(db, tenant, device, d, now, newId, found).devices == db.devices
  {
    if d.create {
      CreateKeepsGood(db, a, owner, tenant, device, d, now, newId, found);
    }
  }

  lemma ClearHalfKeepsGood(db: Db, a: Active, owner: Owner, device: string, d: Decision, now: int,
                           found: Option<string>)
    requires Good(db, a, owner) && (d.clear ==> IsFound(db, device, d.typ, found))
    ensures Good(AfterClear(db, device, d, now, found), if d.clear then Lower(a, Key(device, d.typ)) else a, owner)
  {
    if d.clear {
      ClearKeepsGood(db, a, owner, device, d.typ, now, found);
    }
  }

  /** Whatever the tenant, the active alarms and severities are those of the machine. */
  lemma DecisionAdvances(db: Db, a: Active, tenant: string, device: string, d: Decision, now: int, newId: string,
                         clearNow: int,
                         f1: Option<string>, f2: Option<string>, db': Db)
    requires Represents(db, a) && newId !in db.alarms
      && DecisionStep(db, tenant, device, d, now, newId, clearNow, f1, f2, db')
    ensures Represents(db', ByDecision(a, device, d))
  {
    var mid := AfterCreate(db, tenant, device, d, now, newId, f1);
    if d.create {
      UpsertAdvances(db, a, tenant, device, d, now, newId, f1);
      SameRows(WithAlarm(db, tenant, device, d, now, newId, f1), ByCreate(a, device, d), mid);
    }
    if d.clear {
      ClearAdvances(mid, ByCreate(a, device, d), device, d.typ, clearNow, f2);
      SameRows(WithoutAlarm(mid, f2, clearNow), ByDecision(a, device, d), db');
    }
  }

  lemma ForeignAlarmIsCounted(db: Db, owner: Owner, tenant: string, device: string, d: Decision, now: int,
                              newId: string, id: string)
    requires Tenancy(db, owner) && IsFound(db, device, d.typ, None) && newId !in db.alarms && tenant != owner(device)
    ensures var changed := WithAlarm(db, tenant, device, d, now, newId, None);
      CountUnder(changed, None, id) == CountUnder(changed, Some(owner(id)), id)
      <==> !Reaches(db.edges, Node(id, ASSET), Node(device, DEVICE))
  {
    WithOneMore(db, tenant, device, d, now, newId);
    TenantBlindCount(db, owner, id);
    if Reaches(db.edges, Node(id, ASSET), Node(device, DEVICE)) {
      OwnerOfReached(db.edges, owner, Node(id, ASSET), Node(device, DEVICE));
    }
    OneMoreIsCounted(db, WithAlarm(db, tenant, device, d, now, newId, None), owner, tenant, device, newId, id);
  }

  lemma WithOneMore(db: Db, tenant: string, device: string, d: Decision, now: int, newId: string)
    requires IsFound(db, device, d.typ, None) && newId !in db.alarms
    ensures OneMore(db, WithAlarm(db, tenant, device, d, now, newId, None), tenant, device, newId)
  {
  }

  lemma OneMoreIsCounted(db: Db, changed: Db, owner: Owner, tenant: string, device: string, newId: string, id: string)
    requires OneMore(db, changed, tenant, device, newId)
      && CountUnder(db, None, id) == CountUnder(db, Some(owner(id)), id)
    requires Reaches(db.edges, Node(id, ASSET), Node(device, DEVICE)) ==> tenant != owner(id)
    ensures CountUnder(changed, None, id) == CountUnder(changed, Some(owner(id)), id)
      <==> !Reaches(db.edges, Node(id, ASSET), Node(device, DEVICE))
  {
    ForeignAlarmIsSeen(db, changed, tenant, device, newId, id);
    ForeignAlarmIsNotOwned(db, changed, owner, tenant, device, newId, id);
  }

  /** One more uncleared alarm of the device, of any tenant. */
  ghost predicate OneMore(db: Db, changed: Db, tenant: string, device: string, newId: string) {
    && newId !in db.alarms && changed.edges == db.edges && changed.alarms.Keys == db.alarms.Keys + {newId}
    && (forall id | id in db.alarms :: changed.alarms[id] == db.alarms[id])
    && changed.alarms[newId].originator == device && changed.alarms[newId].tenant == tenant
      && !changed.alarms[newId].cleared
  }

  lemma ForeignAlarmIsSeen(db: Db, changed: Db, tenant: string, device: string, newId: string, id: string)
    requires OneMore(db, changed, tenant, device, newId)
    ensures var reached := Reaches(db.edges, Node(id, ASSET), Node(device, DEVICE));
      && Under(changed, None, id) == Under(db, None, id) + (if reached then {newId} else {})
      && newId !in Under(db, None, id)
  {
  }

  lemma ForeignAlarmIsNotOwned(db: Db, changed: Db, owner: Owner, tenant: string, device: string, newId: string,
                               id: string)
    requires OneMore(db, changed, tenant, device, newId)
    requires Reaches(db.edges, Node(id, ASSET), Node(device, DEVICE)) ==> tenant != owner(id)
    ensures Under(changed, Some(owner(id)), id) == Under(db, Some(owner(id)), id)
  {
  }

  /**
    The create of a decision leaves the counts right exactly if its tenant is the device's, or it opens
    no alarm, or no asset is above the device: an alarm opened for a foreign tenant is counted by the
    propagation, but belongs to no count.
   */
  lemma CountsRightAfterAnyCreate(db: Db, a: Active, owner: Owner, tenant: string, device: string, d: Decision,
                                  now: int, newId: string, found: Option<string>)
    requires Good(db, a, owner) && newId !in db.alarms && (d.create ==> IsFound(db, device, d.typ, found))
    ensures CountsRight(AfterCreate(db, tenant, device, d, now, newId, found), owner) <==>
      || tenant == owner(device) || !d.create || found.Some?
      || forall asset :: !Reaches(db.edges, Node(asset, ASSET), Node(device, DEVICE))
  {
    if d.create {
      if tenant == owner(device) || found.Some? {
        CreateKeepsGood(db, a, owner, tenant, device, d, now, newId, found);
      } else {
        var changed := WithAlarm(db, tenant, device, d, now, newId, None);
        UpsertStaysOnDevice(db, owner, tenant, device, d, now, newId, None);
        RecountIsRight(db, changed, owner, None, device);
        forall id
          ensures CountUnder(changed, None, id) == CountUnder(changed, Some(owner(id)), id)
            <==> !Reaches(db.edges, Node(id, ASSET), Node(device, DEVICE))
          ensures Reaches(db.edges, Node(id, ASSET), Node(device, DEVICE)) ==> id in AncestorIds(db.edges, device)
        {
          ForeignAlarmIsCounted(db, owner, tenant, device, d, now, newId, id);
          if Reaches(db.edges, Node(id, ASSET), Node(device, DEVICE)) {
            AssetIsAncestor(db.edges, id, device);
          }
        }
      }
    }
  }

  // ---- both implementations on the same tables ----

  /** A message of the stream for the materializer, or a decision of a flow. */
  datatype Order =
    | Streamed(command: Command)
    | Decided(tenant: string, device: string, decision: Decision, now: int, newId: string, clearNow: int)

  ghost predicate OrderStep(db: Db, o: Order, db': Db) {
    match o
    case Streamed(c) => Step(db, c, db')
    case Decided(tenant, device, d, now, newId, clearNow) =>
      newId !in db.alarms && Taken(db, tenant, device, d, now, newId, clearNow, db')
  }

  ghost predicate Taken(db: Db, tenant: string, device: string, d: Decision, now: int, newId: string, clearNow: int,
                        db': Db) {
    exists f1, f2 :: DecisionStep(db, tenant, device, d, now, newId, clearNow, f1, f2, db')
  }

  ghost predicate IsMixedRun(dbs: seq<Db>, os: seq<Order>) {
    |dbs| == |os| + 1 && forall i | 0 <= i < |os| :: OrderStep(dbs[i], os[i], dbs[i + 1])
  }

  ghost predicate OwnTenant(o: Order, owner: Owner) {
    match o
    case Streamed(c) => c.intent.tenant == owner(c.intent.device)
    case Decided(tenant, device, _, _, _, _) => tenant == owner(device)
  }

  function ByOrder(a: Active, o: Order, devices: set<Device>): Active {
    match o
    case Streamed(c) => Advance(a, c.intent, Device(c.intent.device, c.intent.tenant) in devices)
    case Decided(_, device, d, _, _, _) => ByDecision(a, device, d)
  }

  function ByOrders(a: Active, os: seq<Order>, devices: set<Device>): Active {
    if os == [] then a else ByOrder(ByOrders(a, os[..|os| - 1], devices), os[|os| - 1], devices)
  }

  lemma IntentKeepsGood(db: Db, a: Active, owner: Owner, c: Command, db': Db)
    requires Good(db, a, owner) && Step(db, c, db') && c.intent.tenant == owner(c.intent.device)
    ensures Good(db', Advance(a, c.intent, Device(c.intent.device, c.intent.tenant) in db.devices), owner)
      && db'.devices == db.devices
  {
    var found :| (IsValid(c.intent) ==> IsFound(db, c.intent.device, c.intent.typ, found))
      && db' == Apply(db, c.intent, c.now, c.newId, found).db;
    ApplyKeepsTheGraph(db, c, db');
    ApplyKeepsCounts(db, a, owner, c.intent, c.now, c.newId, found);
  }

  lemma TakenKeepsGood(db: Db, a: Active, owner: Owner, device: string, d: Decision, now: int, newId: string,
                       clearNow: int, db': Db)
    requires Good(db, a, owner) && newId !in db.alarms && Taken(db, owner(device), device, d, now, newId, clearNow, db')
    ensures Good(db', ByDecision(a, device, d), owner) && db'.devices == db.devices
  {
    var f1, f2 :| DecisionStep(db, owner(device), device, d, now, newId, clearNow, f1, f2, db');
    DecisionKeepsGood(db, a, owner, owner(device), device, d, now, newId, clearNow, f1, f2, db');
  }

  lemma OrderKeepsGood(db: Db, a: Active, owner: Owner, o: Order, db': Db)
    requires Good(db, a, owner) && OrderStep(db, o, db') && OwnTenant(o, owner)
    ensures Good(db', ByOrder(a, o, db.devices), owner) && db'.devices == db.devices
  {
    match o
    case Streamed(c) => IntentKeepsGood(db, a, owner, c, db');
    case Decided(tenant, device, d, now, newId, clearNow) =>
      TakenKeepsGood(db, a, owner, device, d, now, newId, clearNow, db');
  }

  lemma {:induction false} MixedGoodAt(dbs: seq<Db>, os: seq<Order>, a: Active, owner: Owner, i: nat)
    requires IsMixedRun(dbs, os) && Good(dbs[0], a, owner) && i <= |os|
    requires forall o | o in os :: OwnTenant(o, owner)
    ensures Good(dbs[i], ByOrders(a, os[..i], dbs[0].devices), owner) && dbs[i].devices == dbs[0].devices
    decreases i
  {
    if i > 0 {
      MixedGoodAt(dbs, os, a, owner, i - 1);
      assert os[i - 1] in os && OrderStep(dbs[i - 1], os[i - 1], dbs[i - 1 + 1]);
      assert os[..i][..i - 1] == os[..i - 1];
      OrderKeepsGood(dbs[i - 1], ByOrders(a, os[..i - 1], dbs[0].devices), owner, os[i - 1], dbs[i]);
    }
  }

  /**
    The two implementations may take turns on the same tables: over every serial run of stream messages
    and decisions, rows, machine and counts stay good.
   */
  lemma MixedRunsAreGood(dbs: seq<Db>, os: seq<Order>, a: Active, owner: Owner)
    requires IsMixedRun(dbs, os) && Good(dbs[0], a, owner)
    requires forall o | o in os :: OwnTenant(o, owner)
    ensures Good(dbs[|os|], ByOrders(a, os, dbs[0].devices), owner)
  {
    MixedGoodAt(dbs, os, a, owner, |os|);
    assert os[..|os|] == os;
  }
}
