/**
  The key dictionary: several processes, each with its own cache and its own lock, over one table of
  keys that only grows. Statements of different processes interleave in any way, and may fail.
 */
module KeyDictionary {
  import opened Wrappers

  type Rows = map<string, int>

  /** The table, and the next value of its sequence. A refused insert uses up a value too. */
  datatype Table = Table(rows: Rows, next: int)

  ghost predicate SoundTable(t: Table) {
    && t.next >= 1
    && (forall k | k in t.rows :: 1 <= t.rows[k] < t.next)
    && (forall j, k | j in t.rows && k in t.rows && t.rows[j] == t.rows[k] :: j == k)
  }

  ghost predicate Grows(a: Rows, b: Rows) { forall k | k in a :: k in b && b[k] == a[k] }

  /** `INSERT ... ON CONFLICT (key) DO NOTHING`. */
  function Inserted(t: Table, key: string): Table {
    Table(if key in t.rows then t.rows else t.rows[key := t.next], t.next + 1)
  }

  lemma InsertedIsSound(t: Table, key: string)
    requires SoundTable(t)
    ensures SoundTable(Inserted(t, key)) && Grows(t.rows, Inserted(t, key).rows) && key in Inserted(t, key).rows
  {
  }

  // ---- all processes together ----

  /** How a statement ends for its caller: well, failed, or failed although it took effect. */
  datatype Outcome = Done | Failed | FailedLate

  /** What the holder of a process's write lock is at. */
  datatype Phase = Unlocked | Inserting(key: string) | Selecting(key: string) | Storing(key: string, id: int)

  datatype Process = Process(cache: Rows, phase: Phase, loaded: Rows)

  datatype State = State(table: Table, processes: seq<Process>)

  datatype Action =
    | Lookup(key: string)
    | Miss(key: string)
    | Insert(outcome: Outcome)
    | Select(outcome: Outcome)
    | Store
    | LoadQuery
    | LoadRows(keys: set<string>)

  datatype Event = Event(process: nat, action: Action)

  /** The guards: the cache is read or filled only when no one holds the write lock. */
  predicate Enabled(s: State, e: Event) {
    e.process < |s.processes| &&
    var p := s.processes[e.process];
    match e.action
    case Lookup(key) => p.phase.Unlocked? && key in p.cache
    case Miss(key) => p.phase.Unlocked? && key !in p.cache
    case Insert(_) => p.phase.Inserting?
    case Select(_) => p.phase.Selecting?
    case Store => p.phase.Storing?
    case LoadQuery => true
    case LoadRows(keys) => p.phase.Unlocked? && keys <= p.loaded.Keys
  }

  function TableAfter(s: State, e: Event): Table
    requires Enabled(s, e)
  {
    if e.action.Insert? && !e.action.outcome.Failed? then Inserted(s.table, s.processes[e.process].phase.key)
      else s.table
  }

  function ProcessAfter(s: State, e: Event): Process
    requires Enabled(s, e)
  {
    var p := s.processes[e.process];
    match e.action
    case Lookup(_) => p
    case Miss(key) => p.(phase := Inserting(key))
    case Insert(outcome) =>
      p.(phase := if !outcome.Done? then Unlocked
                  else if p.phase.key in s.table.rows then Selecting(p.phase.key)
                  else Storing(p.phase.key, s.table.next))
    case Select(outcome) =>
      p.(phase := if outcome.Done?
        && p.phase.key in s.table.rows then Storing(p.phase.key, s.table.rows[p.phase.key]) else Unlocked)
    case Store => p.(cache := p.cache[p.phase.key := p.phase.id], phase := Unlocked)
    case LoadQuery => p.(loaded := s.table.rows)
    case LoadRows(keys) => p.(cache := p.cache + map k | k in keys :: p.loaded[k])
  }

  function Next(s: State, e: Event): State
    requires Enabled(s, e)
  {
    State(TableAfter(s, e), s.processes[e.process := ProcessAfter(s, e)])
  }

  datatype Answer = Answer(key: string, id: int)

  /** What a call returns at this step, if it returns and does not return -1. */
  function Answered(s: State, e: Event): Option<Answer>
    requires Enabled(s, e)
  {
    var p := s.processes[e.process];
    match e.action
    case Lookup(key) => Some(Answer(key, p.cache[key]))
    case Store => Some(Answer(p.phase.key, p.phase.id))
    case _ => None
  }

  ghost predicate SoundProcess(p: Process, rows: Rows) {
    && Grows(p.cache, rows) && Grows(p.loaded, rows)
    && (p.phase.Selecting? ==> p.phase.key in rows)
    && (p.phase.Storing? ==> p.phase.key in rows && rows[p.phase.key] == p.phase.id)
  }

  /** Ids are unique, and every cache is a part of the table. */
  ghost predicate Sound(s: State) {
    SoundTable(s.table) && forall i | 0 <= i < |s.processes| :: SoundProcess(s.processes[i], s.table.rows)
  }

  lemma SoundAsRowsGrow(p: Process, a: Rows, b: Rows)
    requires SoundProcess(p, a) && Grows(a, b)
    ensures SoundProcess(p, b)
  {
  }

  lemma StepIsSound(s: State, e: Event)
    requires Sound(s) && Enabled(s, e)
    ensures Sound(Next(s, e)) && Grows(s.table.rows, Next(s, e).table.rows)
  {
    var p, after := s.processes[e.process], Next(s, e);
    assert SoundProcess(p, s.table.rows);
    if e.action.Insert? {
      InsertedIsSound(s.table, p.phase.key);
    }
    forall i | 0 <= i < |after.processes|
      ensures SoundProcess(after.processes[i], after.table.rows)
    {
      SoundAsRowsGrow(s.processes[i], s.table.rows, after.table.rows);
    }
  }

  /** An answer is what the table says. */
  lemma AnswerIsTheRow(s: State, e: Event)
    requires Sound(s) && Enabled(s, e) && Answered(s, e).Some?
    ensures var a := Answered(s, e).value; a.key in s.table.rows && s.table.rows[a.key] == a.id
  {
    assert SoundProcess(s.processes[e.process], s.table.rows);
  }

  /** The second statement always finds the row, so only a failed statement makes a call return -1. */
  lemma SelectFindsTheRow(s: State, e: Event)
    requires Sound(s) && Enabled(s, e) && e.action == Select(Done)
    ensures Next(s, e).processes[e.process].phase.Storing?
  {
    assert SoundProcess(s.processes[e.process], s.table.rows);
  }

  ghost predicate IsRun(ss: seq<State>, es: seq<Event>) {
    && |ss| == |es| + 1 && Sound(ss[0])
    && forall i | 0 <= i < |es| :: Enabled(ss[i], es[i]) && ss[i + 1] == Next(ss[i], es[i])
  }

  lemma {:induction false} SoundAt(ss: seq<State>, es: seq<Event>, i: nat)
    requires IsRun(ss, es) && i <= |es|
    ensures Sound(ss[i])
    decreases i
  {
    if i > 0 {
      SoundAt(ss, es, i - 1);
      StepIsSound(ss[i - 1], es[i - 1]);
      assert ss[i - 1 + 1] == Next(ss[i - 1], es[i - 1]);
    }
  }

  lemma {:induction false} RowsGrow(ss: seq<State>, es: seq<Event>, i: nat, j: nat)
    requires IsRun(ss, es) && i <= j <= |es|
    ensures Grows(ss[i].table.rows, ss[j].table.rows)
    decreases j
  {
    if i < j {
      RowsGrow(ss, es, i, j - 1);
      SoundAt(ss, es, j - 1);
      StepIsSound(ss[j - 1], es[j - 1]);
      assert ss[j - 1 + 1] == Next(ss[j - 1], es[j - 1]);
    }
  }

  /**
    Over every interleaving: two answers, of any processes at any times, are for the same key exactly
    if they are the same id.
   */
  lemma AnswersAgree(ss: seq<State>, es: seq<Event>, i: nat, j: nat)
    requires IsRun(ss, es) && i <= j < |es|
    requires Answered(ss[i], es[i]).Some? && Answered(ss[j], es[j]).Some?
    ensures var a, b := Answered(ss[i], es[i]).value, Answered(ss[j], es[j]).value;
      (a.key == b.key <==> a.id == b.id) && a.id != -1
  {
    SoundAt(ss, es, i);
    SoundAt(ss, es, j);
    RowsGrow(ss, es, i, j);
    AnswerIsTheRow(ss[i], es[i]);
    AnswerIsTheRow(ss[j], es[j]);
  }

  /** Every cache is at all times a part of what the table is then, and ever after. */
  lemma CachesStayInTheTable(ss: seq<State>, es: seq<Event>, i: nat, j: nat, p: nat)
    requires IsRun(ss, es) && i <= j <= |es| && p < |ss[i].processes|
    ensures Grows(ss[i].processes[p].cache, ss[j].table.rows)
  {
    SoundAt(ss, es, i);
    assert SoundProcess(ss[i].processes[p], ss[i].table.rows);
    RowsGrow(ss, es, i, j);
  }

  // ---- the code of one process ----

  class KeyTable {
    var table: Table

    constructor ()
      ensures SoundTable(table) && table.rows == map[]
    {
      table := Table(map[], 1);
    }

    /** The insert, as one statement; it returns the new id unless the key was there. */
    method Insert(key: string) returns (id: Option<int>)
      requires SoundTable(table)
      modifies this
      ensures SoundTable(table) && table == Inserted(old(table), key)
      ensures id == if key in old(table.rows) then None else Some(table.rows[key])
    {
      InsertedIsSound(table, key);
      id := if key in table.rows then None else Some(table.next);
      table := Inserted(table, key);
    }

    /** Inserts of other processes, in any number. */
    method Others(keys: seq<string>)
      requires SoundTable(table)
      modifies this
      ensures SoundTable(table) && Grows(old(table.rows), table.rows)
    {
      for i := 0 to |keys|
        invariant SoundTable(table) && Grows(old(table.rows), table.rows)
      {
        var id := Insert(keys[i]);
      }
    }
  }

  class KeyDict {
    var cache: Rows

    constructor ()
      ensures cache == map[]
    {
      cache := map[];
    }

    /**
      `GetOrInsertKeyID`, with what other processes insert between its two statements, and with how the
      statements end. The cache stays a part of the table, and an id is -1 or the table's.
     */
    method GetOrInsertKeyId(key: string, pool: KeyTable, between: seq<string>, insert: Outcome, select: Outcome)
      returns (id: int)
      requires SoundTable(pool.table) && Grows(cache, pool.table.rows)
      modifies this, pool
      ensures SoundTable(pool.table) && Grows(old(pool.table.rows), pool.table.rows) && Grows(cache, pool.table.rows)
      ensures id != -1 ==> key in pool.table.rows && id == pool.table.rows[key] && cache == old(cache)[key := id]
      ensures id == -1 ==> cache == old(cache)
      ensures key in old(cache) || (insert.Done? && select.Done?) ==> id != -1
      ensures key in old(cache) ==> pool.table == old(pool.table)
    {
      if key in cache {
        assert cache == cache[key := cache[key]];
        return cache[key];
      }
      if insert.Failed? {
        return -1;
      }
      var inserted := pool.Insert(key);
      if insert.FailedLate? {
        return -1;
      }
      if inserted.Some? {
        id := inserted.value;
      } else {
        pool.Others(between);
        if !select.Done? || key !in pool.table.rows {
          return -1;
        }
        id := pool.table.rows[key];
      }
      cache := cache[key := id];
    }

    /** `LoadKeyDictionary`: rows seen by its query, those that scan, some time later. */
    method Load(seen: Rows, scanned: set<string>, ghost rows: Rows)
      requires Grows(cache, rows) && Grows(seen, rows)
      modifies this
      ensures Grows(cache, rows) && cache == old(cache) + (map k | k in seen && k in scanned :: seen[k])
    {
      var rest := seen.Keys * scanned;
      while rest != {}
        invariant rest <= seen.Keys * scanned && Grows(cache, rows)
        invariant cache.Keys == old(cache.Keys) + (seen.Keys * scanned - rest)
        invariant forall k | k in cache ::
                    cache[k] == if k in seen && k in scanned && k !in rest then seen[k] else old(cache)[k]
        decreases rest
      {
        var k :| k in rest;
        cache := cache[k := seen[k]];
        rest := rest - {k};
      }
    }
  }
}
