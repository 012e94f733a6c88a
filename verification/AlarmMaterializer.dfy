/**
  The alarm materializer: intents from the stream become alarm rows, and after every change that
  matters the `alarm_count` of the assets above the device is written anew.
 */
module AlarmMaterializer {
  import opened Wrappers
  import opened Numbers
  import opened Reachability
  import opened AlarmTables

  datatype Intent = Intent(action: string, tenant: string, device: string, typ: string, severity: string)

  const CREATE_OR_UPDATE := "create_or_update"
  const CLEAR := "clear"

  predicate IsValid(i: Intent) {
    && (i.action == CREATE_OR_UPDATE || i.action == CLEAR)
    && i.tenant != "" && i.device != "" && i.typ != ""
    && (i.action == CREATE_OR_UPDATE ==> i.severity != "")
  }

  function SeverityRank(severity: string): int {
    match severity
    case "CRITICAL" => 4
    case "MAJOR" => 3
    case "MINOR" => 2
    case "WARNING" => 1
    case "INDETERMINATE" => 0
    case _ => -1
  }

  /** The severities, each worse than those before it. */
  const SEVERITIES: seq<string> := ["INDETERMINATE", "WARNING", "MINOR", "MAJOR", "CRITICAL"]

  /** `s` is listed, and `t` is listed before it or not at all. */
  predicate Worse(s: string, t: string) {
    exists i | 0 <= i < |SEVERITIES| :: SEVERITIES[i] == s && t !in SEVERITIES[i..]
  }

  lemma RankIsThePlace(severity: string)
    ensures if severity in SEVERITIES then 0 <= SeverityRank(severity) < |SEVERITIES|
      && SEVERITIES[SeverityRank(severity)] == severity
      else SeverityRank(severity) == -1
    ensures forall i | 0 <= i < |SEVERITIES| :: SeverityRank(SEVERITIES[i]) == i
  {
  }

  lemma NotFrom(t: string, k: nat)
    requires k < |SEVERITIES|
    ensures t !in SEVERITIES[k..] <==> SeverityRank(t) < k
  {
    RankIsThePlace(t);
    var j := SeverityRank(t);
    if j >= k {
      assert SEVERITIES[k..][j - k] == t;
    } else if j >= 0 {
      assert forall l | k <= l < |SEVERITIES| :: SEVERITIES[l] != t;
    }
  }

  /** Ranks compare as the severities stand in the list. */
  lemma RankIsTheOrder(s: string, t: string)
    ensures SeverityRank(s) > SeverityRank(t) <==> Worse(s, t)
  {
    RankIsThePlace(s);
    forall k: nat | k < |SEVERITIES|
      ensures SEVERITIES[k] == s && t !in SEVERITIES[k..] <==> k == SeverityRank(s) && SeverityRank(t) < k
    {
      NotFrom(t, k);
    }
    RankIsThePlace(t);
    if SeverityRank(s) > SeverityRank(t) {
      assert SEVERITIES[SeverityRank(s)] == s;
    }
  }

  lemma WorseThanAll(next: string, severity: string, s: string)
    requires Worse(next, severity) && !Worse(s, severity)
    ensures Worse(next, s) && !Worse(s, next)
  {
    RankIsTheOrder(next, severity);
    RankIsTheOrder(s, severity);
    RankIsTheOrder(next, s);
    RankIsTheOrder(s, next);
  }

  lemma NotWorse(s: string)
    ensures !Worse(s, s)
  {
    RankIsTheOrder(s, s);
  }

  datatype Action = Rejected | NoOp | ClearedAlarm | EscalatedAlarm | ExtendedAlarm | CreatedAlarm

  datatype Applied = Applied(db: Db, action: Action, alarmId: string)

  function Insert(db: Db, i: Intent, now: int, newId: string): Db {
    db.(alarms := db.alarms[newId := NewRow(i.tenant, i.device, i.typ, i.severity, now)],
        links := db.links + {Link(i.device, newId)})
  }

  /** `ApplyIntent`, given what its lookup of the active alarm returned. */
  ghost function Apply(db: Db, i: Intent, now: int, newId: string, found: Option<string>): Applied
    requires IsValid(i) ==> IsFound(db, i.device, i.typ, found)
  {
    if !IsValid(i) then Applied(db, Rejected, "")
    else if i.action == CLEAR then
      match found
      case None => Applied(db, NoOp, "")
      case Some(id) => Applied(Refreshed(Cleared(db, id, now), Some(i.tenant), i.device), ClearedAlarm, id)
    else match found
      case Some(id) =>
        if SeverityRank(i.severity) > SeverityRank(db.alarms[id].severity) then
          Applied(Refreshed(Escalated(db, id, i.severity, now), Some(i.tenant), i.device), EscalatedAlarm, id)
        else
          Applied(Extended(db, id, now), ExtendedAlarm, id)
      case None =>
        if Device(i.device, i.tenant) !in db.devices then Applied(db, NoOp, "")
        else Applied(Refreshed(Insert(db, i, now, newId), Some(i.tenant), i.device), CreatedAlarm, newId)
  }

  method ApplyIntent(repo: PostgresRepository, i: Intent, now: int, newId: string)
    returns (action: Action, alarmId: string, ghost found: Option<string>)
    requires newId !in repo.alarms
    modifies repo
    ensures IsValid(i) ==> IsFound(old(repo.View()), i.device, i.typ, found)
    ensures Applied(repo.View(), action, alarmId) == Apply(old(repo.View()), i, now, newId, found)
    ensures action == Rejected <==>
      || i.action !in ["create_or_update", "clear"] || i.tenant == "" || i.device == "" || i.typ == ""
      || (i.action == "create_or_update" && i.severity == "")
    ensures match action
      case CreatedAlarm =>
        && repo.alarms == old(repo.alarms)[newId :=
             Row(i.tenant, i.device, 5, i.typ, i.severity, now, now, false, 0)]
        && repo.links == old(repo.links) + {Link(i.device, newId)}
      case ExtendedAlarm =>
        && found == Some(alarmId) && !Worse(i.severity, old(repo.alarms)[alarmId].severity)
        && repo.alarms == old(repo.alarms)[alarmId := old(repo.alarms)[alarmId].(endTs := now)]
      case EscalatedAlarm =>
        && found == Some(alarmId) && Worse(i.severity, old(repo.alarms)[alarmId].severity)
        && repo.alarms == old(repo.alarms)[alarmId :=
             old(repo.alarms)[alarmId].(endTs := now, severity := i.severity)]
      case ClearedAlarm =>
        && found == Some(alarmId)
        && repo.alarms == old(repo.alarms)[alarmId := old(repo.alarms)[alarmId].(
             endTs := Max(old(repo.alarms)[alarmId].endTs, now), cleared := true, clearTs := now)]
      case _ => repo.View() == old(repo.View())
  {
    if !IsValid(i) {
      return Rejected, "", None;
    }
    var active := repo.FindActiveAlarm(i.device, i.typ);
    found := active;
    if i.action == CLEAR {
      if active == None {
        return NoOp, "", found;
      }
      repo.ClearAlarm(active.value, now);
      repo.RefreshAncestorAlarmCounts(i.tenant, i.device);
      return ClearedAlarm, active.value, found;
    }
    if active.Some? {
      RankIsTheOrder(i.severity, repo.alarms[active.value].severity);
      if SeverityRank(i.severity) > SeverityRank(repo.alarms[active.value].severity) {
        repo.EscalateAlarm(active.value, i.severity, now);
        repo.RefreshAncestorAlarmCounts(i.tenant, i.device);
        return EscalatedAlarm, active.value, found;
      }
      repo.ExtendAlarm(active.value, now);
      return ExtendedAlarm, active.value, found;
    }
    var ok := repo.InsertAlarm(newId, i.tenant, i.device, i.typ, i.severity, now);
    if !ok {
      return NoOp, "", found;
    }
    repo.LinkEntityAlarm(i.device, newId);
    repo.RefreshAncestorAlarmCounts(i.tenant, i.device);
    return CreatedAlarm, newId, found;
  }

  // ---- the lifecycle, as a machine over (device, type) ----

  datatype Key = Key(device: string, typ: string)

  function KeyOf(r: Row): Key { Key(r.originator, r.typ) }

  predicate IsLive(r: Row) { r.originatorType == ORIGINATOR_TYPE_DEVICE && !r.cleared }

  /** Active alarms and their severities: at most one for each key. */
  type Active = map<Key, string>

  /** A create keeps the higher severity, opens an alarm for a live device, and never downgrades. */
  function Raise(a: Active, k: Key, severity: string, live: bool): Active {
    if k in a then if SeverityRank(severity) > SeverityRank(a[k]) then a[k := severity] else a
    else if live then a[k := severity] else a
  }

  function Lower(a: Active, k: Key): Active { a - {k} }

  function Advance(a: Active, i: Intent, live: bool): Active {
    if !IsValid(i) then a
    else if i.action == CLEAR then Lower(a, Key(i.device, i.typ))
    else Raise(a, Key(i.device, i.typ), i.severity, live)
  }

  /** No two live rows share a key, and `a` is exactly what the live rows say. */
  ghost predicate Represents(db: Db, a: Active) {
    && (forall id | id in db.alarms && IsLive(db.alarms[id]) ::
          KeyOf(db.alarms[id]) in a && a[KeyOf(db.alarms[id])] == db.alarms[id].severity)
    && (forall k | k in a :: exists id :: id in db.alarms && IsLive(db.alarms[id]) && KeyOf(db.alarms[id]) == k)
    && AtMostOne(db)
  }

  ghost predicate AtMostOne(db: Db) {
    forall i, j | i in db.alarms && j in db.alarms && IsLive(db.alarms[i]) && IsLive(db.alarms[j])
                  && KeyOf(db.alarms[i]) == KeyOf(db.alarms[j]) :: i == j
  }

  /** The lookup finds the alarm of the key exactly when there is one. */
  lemma LookupIsExact(db: Db, a: Active, k: Key, found: Option<string>)
    requires Represents(db, a) && IsFound(db, k.device, k.typ, found)
    ensures found.Some? <==> k in a
    ensures found.Some? ==>
      IsLive(db.alarms[found.value]) && KeyOf(db.alarms[found.value]) == k && a[k] == db.alarms[found.value].severity
  {
    if k in a {
      var id :| id in db.alarms && IsLive(db.alarms[id]) && KeyOf(db.alarms[id]) == k;
      assert IsActive(db.alarms[id], k.device, k.typ);
    }
  }

  /** Writing one row: what the representation of the result has to say about it. */
  lemma RowWritten(db: Db, a: Active, id: string, r: Row, db': Db)
    requires Represents(db, a) && r.originatorType == ORIGINATOR_TYPE_DEVICE
    requires db'.alarms == db.alarms[id := r]
    requires if id in db.alarms then IsLive(db.alarms[id]) && KeyOf(db.alarms[id]) == KeyOf(r) else KeyOf(r) !in a
    ensures Represents(db', if r.cleared then Lower(a, KeyOf(r)) else a[KeyOf(r) := r.severity])
  {
    var k := KeyOf(r);
    var a' := if r.cleared then Lower(a, k) else a[k := r.severity];
    forall l | l in a'
      ensures exists j :: j in db'.alarms && IsLive(db'.alarms[j]) && KeyOf(db'.alarms[j]) == l
    {
      if l == k {
        assert IsLive(db'.alarms[id]);
      } else {
        var j :| j in db.alarms && IsLive(db.alarms[j]) && KeyOf(db.alarms[j]) == l;
        assert j in db'.alarms && db'.alarms[j] == db.alarms[j];
      }
    }
    forall j | j in db'.alarms && IsLive(db'.alarms[j])
      ensures KeyOf(db'.alarms[j]) in a' && a'[KeyOf(db'.alarms[j])] == db'.alarms[j].severity
    {
      assert j != id ==> KeyOf(db.alarms[j]) != k;
    }
  }

  lemma SameRows(db: Db, a: Active, db': Db)
    requires Represents(db, a) && db'.alarms == db.alarms
    ensures Represents(db', a)
  {
  }

  /** `ApplyIntent` on the tables is one step of the machine, whatever it does to counts and times. */
  lemma ApplyAdvances(db: Db, a: Active, i: Intent, now: int, newId: string, found: Option<string>)
    requires Represents(db, a) && (IsValid(i) ==> IsFound(db, i.device, i.typ, found)) && newId !in db.alarms
    ensures Represents(Apply(db, i, now, newId, found).db, Advance(a, i, Device(i.device, i.tenant) in db.devices))
  {
    var k, db' := Key(i.device, i.typ), Apply(db, i, now, newId, found).db;
    if IsValid(i) {
      LookupIsExact(db, a, k, found);
      if found.Some? {
        RowWritten(db, a, found.value, db'.alarms[found.value], db');
        if i.action == CREATE_OR_UPDATE && SeverityRank(i.severity) <= SeverityRank(a[k]) {
          assert a[k := a[k]] == a;
        }
      } else if i.action == CLEAR {
        assert Lower(a, k) == a;
      } else if Device(i.device, i.tenant) in db.devices {
        RowWritten(db, a, newId, db'.alarms[newId], db');
      }
    }
  }

  /** A cleared alarm is history: no intent changes its row again. */
  lemma ClearedIsFinal(db: Db, i: Intent, now: int, newId: string, found: Option<string>, id: string)
    requires (IsValid(i) ==> IsFound(db, i.device, i.typ, found)) && newId !in db.alarms
    requires id in db.alarms && db.alarms[id].cleared
    ensures var db' := Apply(db, i, now, newId, found).db; id in db'.alarms && db'.alarms[id] == db.alarms[id]
  {
  }

  /** A create delivered again changes nothing but the end of the alarm it created or extended. */
  lemma RepeatedCreate(db: Db, a: Active, i: Intent, t1: int, id1: string, f1: Option<string>, t2: int, id2: string,
                       f2: Option<string>)
    requires Represents(db, a) && IsFound(db, i.device, i.typ, f1) && id1 !in db.alarms
    requires i.action == CREATE_OR_UPDATE
    requires var once := Apply(db, i, t1, id1, f1).db; IsFound(once, i.device, i.typ, f2) && id2 !in once.alarms
    ensures var once := Apply(db, i, t1, id1, f1);
      var twice := Apply(once.db, i, t2, id2, f2);
      if once.action == Rejected || once.action == NoOp then twice == once
      else
        && twice.action == ExtendedAlarm && twice.alarmId == once.alarmId
        && twice.db == Extended(once.db, once.alarmId, t2)
  {
    var once := Apply(db, i, t1, id1, f1);
    var k := Key(i.device, i.typ);
    ApplyAdvances(db, a, i, t1, id1, f1);
    if IsValid(i) {
      var live := Device(i.device, i.tenant) in db.devices;
      LookupIsExact(db, a, k, f1);
      LookupIsExact(once.db, Advance(a, i, live), k, f2);
      if once.action != NoOp {
        assert once.alarmId in once.db.alarms && IsLive(once.db.alarms[once.alarmId])
          && KeyOf(once.db.alarms[once.alarmId]) == k;
      }
    }
  }

  /** A clear delivered again does nothing. */
  lemma RepeatedClear(db: Db, a: Active, i: Intent, t1: int, id1: string, f1: Option<string>, t2: int, id2: string,
                      f2: Option<string>)
    requires Represents(db, a) && IsFound(db, i.device, i.typ, f1) && id1 !in db.alarms
    requires i.action == CLEAR
    requires var once := Apply(db, i, t1, id1, f1).db; IsFound(once, i.device, i.typ, f2) && id2 !in once.alarms
    ensures var once := Apply(db, i, t1, id1, f1).db; Apply(once, i, t2, id2, f2).db == once
  {
    if IsValid(i) {
      ApplyAdvances(db, a, i, t1, id1, f1);
      var once := Apply(db, i, t1, id1, f1).db;
      LookupIsExact(once, Lower(a, Key(i.device, i.typ)), Key(i.device, i.typ), f2);
    }
  }

  // ---- severity over a history ----

  /** One delivery: the intent, and whether its device was a live device of its tenant. */
  datatype Delivery = Delivery(intent: Intent, live: bool)

  function AdvanceAll(a: Active, ds: seq<Delivery>): Active {
    if ds == [] then a else
    var last := ds[|ds| - 1];
    Advance(AdvanceAll(a, ds[..|ds| - 1]), last.intent, last.live)
  }

  /** The severities a key has received since its present alarm was created; `None` when there is none. */
  function Episode(ds: seq<Delivery>, k: Key): Option<seq<string>> {
    if ds == [] then None else
    var before := Episode(ds[..|ds| - 1], k);
    var d := ds[|ds| - 1];
    if !IsValid(d.intent) || Key(d.intent.device, d.intent.typ) != k then before
    else if d.intent.action == CLEAR then None
    else match before
      case None => if d.live then Some([d.intent.severity]) else None
      case Some(received) => Some(received + [d.intent.severity])
  }

  /** The first of the elements that no other one is above. */
  ghost predicate IsTop<T(!new)>(above: (T, T) -> bool, xs: seq<T>, x: T) {
    && (exists i | 0 <= i < |xs| :: xs[i] == x && forall j | 0 <= j < i :: above(x, xs[j]))
    && forall y | y in xs :: !above(y, x)
  }

  lemma TopOfOne<T(!new)>(above: (T, T) -> bool, x: T)
    requires !above(x, x)
    ensures IsTop(above, [x], x)
  {
    assert [x][0] == x;
  }

  lemma TopOfMore<T(!new)>(above: (T, T) -> bool, xs: seq<T>, x: T, next: T)
    requires IsTop(above, xs, x) && !above(next, next)
    requires above(next, x) ==> forall y | y in xs :: above(next, y) && !above(y, next)
    ensures IsTop(above, xs + [next], if above(next, x) then next else x)
  {
    var more := xs + [next];
    if above(next, x) {
      assert more[|xs|] == next && forall j | 0 <= j < |xs| :: more[j] == xs[j] && xs[j] in xs;
    } else {
      var i :| 0 <= i < |xs| && xs[i] == x && forall j | 0 <= j < i :: above(x, xs[j]);
      assert more[i] == x && forall j | 0 <= j < i :: more[j] == xs[j];
    }
  }

  lemma WorstOfMore(received: seq<string>, severity: string, next: string)
    requires IsTop(Worse, received, severity)
    ensures IsTop(Worse, received + [next], if SeverityRank(next) > SeverityRank(severity) then next else severity)
  {
    RankIsTheOrder(next, severity);
    NotWorse(next);
    if Worse(next, severity) {
      forall y | y in received
        ensures Worse(next, y) && !Worse(y, next)
      {
        WorseThanAll(next, severity, y);
      }
    }
    TopOfMore(Worse, received, severity, next);
  }

  lemma WorstOfOne(severity: string)
    ensures IsTop(Worse, [severity], severity)
  {
    NotWorse(severity);
    TopOfOne(Worse, severity);
  }

  /** An active alarm has the severity received first among those that no received one is worse than. */
  lemma {:induction false} SeverityIsTheMaximum(ds: seq<Delivery>, k: Key)
    ensures var a := AdvanceAll(map[], ds);
      match Episode(ds, k)
      case None => k !in a
      case Some(received) => k in a && IsTop(Worse, received, a[k])
  {
    if ds != [] {
      var before, d := ds[..|ds| - 1], ds[|ds| - 1];
      var a, i := AdvanceAll(map[], before), d.intent;
      SeverityIsTheMaximum(before, k);
      if IsValid(i) && Key(i.device, i.typ) == k && i.action != CLEAR {
        if k in a {
          WorstOfMore(Episode(before, k).value, a[k], i.severity);
        } else if d.live {
          WorstOfOne(i.severity);
        }
      }
    }
  }
}
