/**
 * What the store writes into one row: the INSERT of createTask and the two
 * UPDATEs of claimTask and completeTask, with the bookkeeping invariant they
 * keep and the forward-only lifecycle they obey, for one row and for the
 * whole table over any history of operations.
 */
module TaskRows {
  import opened Types

  /** The table, keyed by its primary key `id`. */
  type Table = map<string, Task>

  /** `x || null`: an omitted or empty string is stored as NULL. */
  function NullIfEmpty(s: Option<string>): (r: Option<string>)
    ensures r.None? <==> s.None? || s == Some("")
    ensures r != Some("")
    ensures s != Some("") ==> r == s
  {
    if s == Some("") then None else s
  }

  /**
   * The timestamp columns follow the status: `claimed_at` is set exactly when
   * the task has left `pending`, `completed_at` exactly when it is `done`, and
   * a `result` exists only on a finished task.
   */
  ghost predicate Bookkeeping(t: Task)
  {
    && (t.claimedAt.Some? <==> t.status != Pending)
    && (t.completedAt.Some? <==> t.status == Done)
    && (t.result.Some? ==> t.status == Done)
  }

  /** Bookkeeping, and optional text is never stored as the empty string. */
  ghost predicate WellFormed(t: Task)
  {
    Bookkeeping(t) && t.description != Some("") && t.result != Some("")
  }

  /** The row that createTask inserts. */
  function NewTask(input: CreateTaskInput, id: string, now: Time): (t: Task)
    ensures t.id == id && t.title == input.title && t.createdAt == now
    ensures t.status == Pending
    ensures t.result.None? && t.claimedAt.None? && t.completedAt.None?
    ensures input.priority.None? ==> t.priority == Normal
    ensures input.priority.Some? ==> t.priority == input.priority.value
    ensures input.description.None? || input.description == Some("") ==> t.description.None?
    ensures input.description != Some("") ==> t.description == input.description
    ensures WellFormed(t)
  {
    var priority := match input.priority case Some(p) => p case None => Normal;
    Task(id, input.title, NullIfEmpty(input.description), priority, Pending, None, now, None, None)
  }

  /** The row after `SET status = 'active', claimed_at = now`. */
  function Claimed(t: Task, now: Time): (c: Task)
    ensures c.status == Active && c.claimedAt == Some(now)
    ensures c.(status := t.status, claimedAt := t.claimedAt) == t
    ensures t.status == Pending && WellFormed(t) ==> WellFormed(c)
  {
    t.(status := Active, claimedAt := Some(now))
  }

  /** The row after `SET status = 'done', completed_at = now, result = result || null`. */
  function Completed(t: Task, now: Time, result: Option<string>): (c: Task)
    ensures c.status == Done && c.completedAt == Some(now) && c.result == NullIfEmpty(result)
    ensures c.(status := t.status, completedAt := t.completedAt, result := t.result) == t
    ensures t.status == Active && WellFormed(t) ==> WellFormed(c)
  {
    t.(status := Done, completedAt := Some(now), result := NullIfEmpty(result))
  }

  /** The two legal transitions of the lifecycle `pending -> active -> done`. */
  predicate Transition(from: Status, to: Status)
  {
    (from == Pending && to == Active) || (from == Active && to == Done)
  }

  /** Position in the lifecycle. */
  function Rank(s: Status): nat
  {
    match s
    case Pending => 0
    case Active => 1
    case Done => 2
  }

  /** `u` is row `t` after one store operation: unchanged, claimed, or completed. */
  ghost predicate RowStep(t: Task, u: Task)
  {
    || u == t
    || (t.status == Pending && u.claimedAt.Some? && u == Claimed(t, u.claimedAt.value))
    || (t.status == Active && u.completedAt.Some? && u == Completed(t, u.completedAt.value, u.result))
  }

  /**
   * `u` is row `t` after any number of operations: the fields fixed at creation
   * are the same, the status has not moved back, a timestamp once set is kept,
   * and a finished task no longer changes.
   */
  ghost predicate RowEvolves(t: Task, u: Task)
  {
    && u.id == t.id && u.title == t.title && u.description == t.description
    && u.priority == t.priority && u.createdAt == t.createdAt
    && Rank(t.status) <= Rank(u.status)
    && (t.claimedAt.Some? ==> u.claimedAt == t.claimedAt)
    && (t.completedAt.Some? ==> u.completedAt == t.completedAt)
    && (t.status == Done ==> u == t)
  }

  /** One step keeps a row well formed, moves it along one legal transition at most, and never skips. */
  lemma RowStepForward(t: Task, u: Task)
    requires WellFormed(t) && RowStep(t, u)
    ensures WellFormed(u) && RowEvolves(t, u)
    ensures u.status == t.status || Transition(t.status, u.status)
    ensures u.status != t.status ==> Rank(u.status) == Rank(t.status) + 1
  {
  }

  lemma RowEvolvesTransitive(a: Task, b: Task, c: Task)
    requires RowEvolves(a, b) && RowEvolves(b, c)
    ensures RowEvolves(a, c)
  {
  }

  /** Every row is stored under its own id and is well formed. */
  ghost predicate ValidTable(m: Table)
  {
    forall id :: id in m ==> m[id].id == id && WellFormed(m[id])
  }

  /**
   * `m'` is table `m` after one store operation: no row disappears, every row
   * takes at most one step, and a new row is a well-formed pending task under
   * its own id.
   */
  ghost predicate TableStep(m: Table, m': Table)
  {
    && m.Keys <= m'.Keys
    && (forall id :: id in m ==> RowStep(m[id], m'[id]))
    && (forall id :: id in m' && id !in m ==> m'[id].id == id && m'[id].status == Pending && WellFormed(m'[id]))
  }

  ghost predicate TableEvolves(m: Table, m': Table)
  {
    m.Keys <= m'.Keys && forall id :: id in m ==> RowEvolves(m[id], m'[id])
  }

  /** A single step keeps the table valid and only moves its rows forward. */
  lemma TableStepForward(m: Table, m': Table)
    requires ValidTable(m) && TableStep(m, m')
    ensures ValidTable(m') && TableEvolves(m, m')
  {
  }

  lemma TableEvolvesTransitive(a: Table, b: Table, c: Table)
    requires TableEvolves(a, b) && TableEvolves(b, c)
    ensures TableEvolves(a, c)
  {
    forall id | id in a
      ensures RowEvolves(a[id], c[id])
    {
      RowEvolvesTransitive(a[id], b[id], c[id]);
    }
  }

  /**
   * Over any history of store operations starting from a valid table, every
   * state is valid and each later state is an evolution of each earlier one:
   * ids are never lost, statuses never move back, timestamps are set once.
   */
  lemma {:induction false} HistoryForwardOnly(h: seq<Table>)
    requires |h| > 0 && ValidTable(h[0])
    requires forall i :: 0 <= i < |h| - 1 ==> TableStep(h[i], h[i + 1])
    ensures forall i :: 0 <= i < |h| ==> ValidTable(h[i])
    ensures forall i, j :: 0 <= i <= j < |h| ==> TableEvolves(h[i], h[j])
  {
    var n := |h|;
    if n == 1 {
      assert TableEvolves(h[0], h[0]);
    } else {
      var p := h[..n - 1];
      assert forall i :: 0 <= i < |p| ==> p[i] == h[i];
      HistoryForwardOnly(p);
      assert ValidTable(h[n - 2]) by { assert p[n - 2] == h[n - 2]; }
      assert TableStep(h[n - 2], h[n - 1]);
      TableStepForward(h[n - 2], h[n - 1]);
      forall i, j | 0 <= i <= j < n
        ensures TableEvolves(h[i], h[j])
      {
        if j < n - 1 {
          assert p[i] == h[i] && p[j] == h[j];
        } else if i == n - 1 {
          assert TableEvolves(h[i], h[i]);
        } else {
          assert p[i] == h[i] && p[n - 2] == h[n - 2];
          TableEvolvesTransitive(h[i], h[n - 2], h[n - 1]);
        }
      }
    }
  }
}
