/**
 * The task store: a single `tasks` table keyed by id, with the five
 * operations createTask, getTasks, getTask, claimTask and completeTask, and
 * the process-wide connection handle that initDb and closeDb manage.
 *
 * The clock and the id generator are parameters: `now` is the value
 * `new Date().toISOString()` would give, `id` the value `randomUUID()` would.
 */
module TaskStore {
  import opened Types
  import opened TaskRows

  /** The failures the store reports instead of throwing. */
  datatype StoreError =
    | NotFound
    | NotPending(current: Status)
    | NotActive(current: Status)
    | DuplicateId

  datatype Result<+T> = Ok(value: T) | Err(error: StoreError)

  /** getTasks adds `WHERE status = ?` only for a present, non-empty status other than `"all"`. */
  predicate FiltersByStatus(status: Option<string>)
  {
    status.Some? && status.value != "" && status.value != "all"
  }

  /** Whether a row passes getTasks' status filter. */
  predicate Matches(t: Task, status: Option<string>)
  {
    !FiltersByStatus(status) || ParseStatus(status.value) == Some(t.status)
  }

  /** getTasks adds `LIMIT ?` only for a present, positive limit. */
  predicate Caps(limit: Option<int>)
  {
    limit.Some? && limit.value > 0
  }

  /** `ORDER BY created_at DESC`; rows created at the same instant may come in either order. */
  predicate NewestFirst(s: seq<Task>)
  {
    forall i, j :: 0 <= i < j < |s| ==> s[i].createdAt >= s[j].createdAt
  }

  predicate DistinctIds(s: seq<Task>)
  {
    forall i, j :: 0 <= i < j < |s| ==> s[i].id != s[j].id
  }

  /** A status word selects exactly the tasks in that status; no filter, `""` or `"all"` selects every task. */
  lemma StatusFilterExact(s: Status)
    ensures forall t :: Matches(t, Some(StatusName(s))) <==> t.status == s
    ensures forall t :: Matches(t, None) && Matches(t, Some("")) && Matches(t, Some("all"))
  {
    StatusNamesDistinct(s, s);
    StatusRoundTrip(s);
  }

  /** Where `t` goes in a newest-first sequence: after every strictly newer row. */
  function InsertionPoint(t: Task, s: seq<Task>): (k: nat)
    ensures k <= |s|
    ensures forall i :: 0 <= i < k ==> s[i].createdAt > t.createdAt
    ensures k < |s| ==> s[k].createdAt <= t.createdAt
  {
    if s == [] || s[0].createdAt <= t.createdAt then 0 else 1 + InsertionPoint(t, s[1..])
  }

  /** `s` with `t` placed at its insertion point. */
  function InsertNewestFirst(t: Task, s: seq<Task>): (r: seq<Task>)
    ensures |r| == |s| + 1
    ensures forall x :: x in r <==> x == t || x in s
    ensures multiset(r) == multiset(s) + multiset{t}
    ensures NewestFirst(s) ==> NewestFirst(r)
    ensures DistinctIds(s) && (forall i :: 0 <= i < |s| ==> s[i].id != t.id) ==> DistinctIds(r)
  {
    var k := InsertionPoint(t, s);
    var r := s[..k] + [t] + s[k..];
    InsertedAt(t, s, k, r);
    r
  }

  /** Facts about `s[..k] + [t] + s[k..]` at the insertion point `k`. */
  lemma InsertedAt(t: Task, s: seq<Task>, k: nat, r: seq<Task>)
    requires k == InsertionPoint(t, s) && r == s[..k] + [t] + s[k..]
    ensures |r| == |s| + 1
    ensures forall x :: x in r <==> x == t || x in s
    ensures multiset(r) == multiset(s) + multiset{t}
    ensures NewestFirst(s) ==> NewestFirst(r)
    ensures DistinctIds(s) && (forall i :: 0 <= i < |s| ==> s[i].id != t.id) ==> DistinctIds(r)
  {
    assert s == s[..k] + s[k..];
    assert Spliced(t, s, k, r);
    if NewestFirst(s) {
      InsertedOrder(t, s, k, r);
    }
    if DistinctIds(s) && (forall i :: 0 <= i < |s| ==> s[i].id != t.id) {
      InsertedDistinct(t, s, k, r);
    }
  }

  /** `r` is `s` with `t` placed at index `k`, stated index by index. */
  ghost predicate Spliced(t: Task, s: seq<Task>, k: nat, r: seq<Task>)
  {
    && k <= |s| && |r| == |s| + 1 && r[k] == t
    && (forall i :: 0 <= i < k ==> r[i] == s[i])
    && (forall i {:trigger r[i]} :: k < i < |r| ==> r[i] == s[i - 1])
  }

  lemma InsertedOrder(t: Task, s: seq<Task>, k: nat, r: seq<Task>)
    requires NewestFirst(s) && Spliced(t, s, k, r)
    requires forall i :: 0 <= i < k ==> s[i].createdAt > t.createdAt
    requires k < |s| ==> s[k].createdAt <= t.createdAt
    ensures NewestFirst(r)
  {
  }

  lemma InsertedDistinct(t: Task, s: seq<Task>, k: nat, r: seq<Task>)
    requires DistinctIds(s) && Spliced(t, s, k, r)
    requires forall i :: 0 <= i < |s| ==> s[i].id != t.id
    ensures DistinctIds(r)
  {
  }

  /** A sequence that never repeats an id drawn from `keys` has at most `|keys|` rows. */
  lemma {:induction false} DistinctWithin(s: seq<Task>, keys: set<string>)
    requires DistinctIds(s) && forall i :: 0 <= i < |s| ==> s[i].id in keys
    ensures |s| <= |keys|
  {
    if |s| > 0 {
      var p, last := s[..|s| - 1], s[|s| - 1];
      assert forall i :: 0 <= i < |p| ==> p[i] == s[i] && p[i].id != last.id;
      DistinctWithin(p, keys - {last.id});
    }
  }

  /** `LIMIT ?` applied to a newest-first sequence: keeps its first `limit` rows, which are the newest. */
  function Limit(s: seq<Task>, limit: Option<int>): (r: seq<Task>)
    requires NewestFirst(s) && DistinctIds(s)
    ensures NewestFirst(r) && DistinctIds(r)
    ensures |r| <= |s| && forall i :: 0 <= i < |r| ==> r[i] == s[i]
    ensures Caps(limit) ==> |r| <= limit.value
    ensures !Caps(limit) || |r| < limit.value ==> r == s
    ensures forall x, i :: x in s && x !in r && 0 <= i < |r| ==> x.createdAt <= r[i].createdAt
  {
    if Caps(limit) && limit.value < |s| then
      var r := s[..limit.value];
      assert forall x :: x in s && x !in r ==> exists j :: limit.value <= j < |s| && s[j] == x;
      r
    else
      s
  }

  /**
   * The loop state of getTasks' scan: `rows` holds, newest first and once
   * each, exactly the matching rows of `m` whose keys are no longer `remaining`.
   */
  ghost predicate Scanned(m: Table, status: Option<string>, remaining: set<string>, rows: seq<Task>)
  {
    && NewestFirst(rows) && DistinctIds(rows)
    && (forall i :: 0 <= i < |rows| ==>
          rows[i].id in m && rows[i].id !in remaining && m[rows[i].id] == rows[i] && Matches(rows[i], status))
    && (forall id :: id in m && id !in remaining && Matches(m[id], status) ==> m[id] in rows)
  }

  /** Scanning one more key keeps the scan state. */
  lemma ScanStep(m: Table, status: Option<string>, remaining: set<string>, rows: seq<Task>, id: string, rows': seq<Task>)
    requires ValidTable(m) && remaining <= m.Keys && id in remaining
    requires Scanned(m, status, remaining, rows)
    requires rows' == if Matches(m[id], status) then InsertNewestFirst(m[id], rows) else rows
    ensures Scanned(m, status, remaining - {id}, rows')
  {
  }

  class Store {
    var tasks: Table

    ghost predicate Valid()
      reads this
    {
      ValidTable(tasks)
    }

    /** initDb: `CREATE TABLE IF NOT EXISTS` over a file holding `existing` (empty for a new file). */
    constructor Open(existing: Table)
      requires ValidTable(existing)
      ensures Valid() && tasks == existing
    {
      tasks := existing;
    }

    /** getTask: the row with this primary key, or null. */
    function GetTask(id: string): (r: Option<Task>)
      reads this
      requires Valid()
      ensures r.None? <==> id !in tasks
      ensures r.Some? ==> r.value.id == id && r.value == tasks[id]
    {
      if id in tasks then Some(tasks[id]) else None
    }

    /**
     * createTask: insert a pending row under `id` and return the stored row.
     * An id already in the table violates the primary key and nothing is written.
     */
    method CreateTask(input: CreateTaskInput, id: string, now: Time) returns (r: Result<Task>)
      requires Valid()
      modifies this
      ensures Valid() && TableStep(old(tasks), tasks)
      ensures id in old(tasks) ==> r == Err(DuplicateId) && tasks == old(tasks)
      ensures id !in old(tasks) ==> r == Ok(NewTask(input, id, now)) && tasks == old(tasks)[id := r.value]
    {
      if id in tasks {
        return Err(DuplicateId);
      }
      tasks := tasks[id := NewTask(input, id, now)];
      var stored := GetTask(id);
      r := Ok(stored.value);
    }

    /**
     * getTasks: the rows passing the status filter, newest first, cut to
     * `limit` when it is positive. The result is read-only and never repeats a row.
     */
    method GetTasks(status: Option<string>, limit: Option<int>) returns (r: seq<Task>)
      requires Valid()
      ensures NewestFirst(r) && DistinctIds(r)
      ensures forall i :: 0 <= i < |r| ==> r[i].id in tasks && tasks[r[i].id] == r[i] && Matches(r[i], status)
      ensures Caps(limit) ==> |r| <= limit.value
      ensures !Caps(limit) || |r| < limit.value ==>
                forall id :: id in tasks && Matches(tasks[id], status) ==> tasks[id] in r
      ensures forall id, i :: id in tasks && Matches(tasks[id], status) && tasks[id] !in r && 0 <= i < |r| ==>
                tasks[id].createdAt <= r[i].createdAt
    {
      var remaining := tasks.Keys;
      var rows: seq<Task> := [];
      while remaining != {}
        invariant remaining <= tasks.Keys
        invariant Scanned(tasks, status, remaining, rows)
        decreases remaining
      {
        var id :| id in remaining;
        var rows' := if Matches(tasks[id], status) then InsertNewestFirst(tasks[id], rows) else rows;
        ScanStep(tasks, status, remaining, rows, id, rows');
        rows, remaining := rows', remaining - {id};
      }
      r := Limit(rows, limit);
    }

    /**
     * claimTask: `pending -> active`, stamping `claimed_at`. An unknown id or
     * a task in another status is refused and nothing is written.
     */
    method ClaimTask(id: string, now: Time) returns (r: Result<Task>)
      requires Valid()
      modifies this
      ensures Valid() && TableStep(old(tasks), tasks)
      ensures id !in old(tasks) ==> r == Err(NotFound) && tasks == old(tasks)
      ensures id in old(tasks) && old(tasks)[id].status != Pending ==>
                r == Err(NotPending(old(tasks)[id].status)) && tasks == old(tasks)
      ensures id in old(tasks) && old(tasks)[id].status == Pending ==>
                r == Ok(Claimed(old(tasks)[id], now)) && tasks == old(tasks)[id := r.value]
    {
      var task := GetTask(id);
      if task.None? {
        return Err(NotFound);
      }
      if task.value.status != Pending {
        return Err(NotPending(task.value.status));
      }
      tasks := tasks[id := Claimed(tasks[id], now)];
      var stored := GetTask(id);
      r := Ok(stored.value);
    }

    /**
     * completeTask: `active -> done`, stamping `completed_at` and recording the
     * result (an omitted or empty one as null). An unknown id or a task in
     * another status is refused and nothing is written.
     */
    method CompleteTask(id: string, now: Time, result: Option<string>) returns (r: Result<Task>)
      requires Valid()
      modifies this
      ensures Valid() && TableStep(old(tasks), tasks)
      ensures id !in old(tasks) ==> r == Err(NotFound) && tasks == old(tasks)
      ensures id in old(tasks) && old(tasks)[id].status != Active ==>
                r == Err(NotActive(old(tasks)[id].status)) && tasks == old(tasks)
      ensures id in old(tasks) && old(tasks)[id].status == Active ==>
                r == Ok(Completed(old(tasks)[id], now, result)) && tasks == old(tasks)[id := r.value]
    {
      var task := GetTask(id);
      if task.None? {
        return Err(NotFound);
      }
      if task.value.status != Active {
        return Err(NotActive(task.value.status));
      }
      tasks := tasks[id := Completed(tasks[id], now, result)];
      var stored := GetTask(id);
      r := Ok(stored.value);
    }
  }

  /** The module-level `db` handle: set by initDb, cleared by closeDb. */
  class Connection {
    var db: Store?

    ghost predicate Valid()
      reads this, db
    {
      db != null ==> db.Valid()
    }

    constructor ()
      ensures Valid() && db == null
    {
      db := null;
    }

    /** initDb: returns the open handle if there is one, otherwise opens the file holding `existing`. */
    method InitDb(existing: Table) returns (s: Store)
      requires Valid() && ValidTable(existing)
      modifies this
      ensures Valid() && db == s
      ensures old(db) != null ==> s == old(db) && s.tasks == old(db.tasks)
      ensures old(db) == null ==> fresh(s) && s.tasks == existing
    {
      if db != null {
        return db;
      }
      s := new Store.Open(existing);
      db := s;
    }

    /** closeDb: drops the handle; a later initDb opens a new one. */
    method CloseDb()
      modifies this
      ensures Valid() && db == null
    {
      db := null;
    }
  }
}
