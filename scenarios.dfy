/**
 * Clients of the store replaying the scenarios of the repository's test
 * suite: each method starts from a new, empty table and states in its
 * postcondition what the test asserts, derived from the store's contracts.
 */
module Scenarios {
  import opened Types
  import opened TaskRows
  import opened TaskStore

  function Input(title: string): CreateTaskInput
  {
    CreateTaskInput(title, None, None)
  }

  /** Create, claim and complete one task. */
  method Lifecycle() returns (created: Result<Task>, claimed: Result<Task>, completed: Result<Task>)
    ensures created.Ok? && created.value.title == "Test task" && created.value.status == Pending
    ensures created.value.priority == Normal && created.value.description.None? && created.value.result.None?
    ensures created.value.claimedAt.None? && created.value.completedAt.None?
    ensures claimed.Ok? && claimed.value.id == created.value.id
    ensures claimed.value.status == Active && claimed.value.claimedAt.Some?
    ensures completed.Ok? && completed.value.id == created.value.id && completed.value.status == Done
    ensures completed.value.result == Some("Task finished successfully") && completed.value.completedAt.Some?
  {
    var store := new Store.Open(map[]);
    created := store.CreateTask(Input("Test task"), "t1", 1);
    claimed := store.ClaimTask("t1", 2);
    completed := store.CompleteTask("t1", 3, Some("Task finished successfully"));
  }

  /** A description and a priority given at creation are kept. */
  method CreateWithDetails() returns (created: Result<Task>)
    ensures created.Ok? && created.value.title == "High priority task" && created.value.status == Pending
    ensures created.value.description == Some("Important work") && created.value.priority == High
  {
    var store := new Store.Open(map[]);
    created := store.CreateTask(CreateTaskInput("High priority task", Some("Important work"), Some(High)), "t1", 1);
  }

  /** Completing without a result stores a null result. */
  method CompleteWithoutResult() returns (completed: Result<Task>)
    ensures completed.Ok? && completed.value.status == Done && completed.value.result.None?
  {
    var store := new Store.Open(map[]);
    var _ := store.CreateTask(Input("Test task"), "t1", 1);
    var _ := store.ClaimTask("t1", 2);
    completed := store.CompleteTask("t1", 3, None);
  }

  /** Claiming a task twice refuses the second claim, reporting the current status. */
  method ClaimTwice() returns (second: Result<Task>)
    ensures second == Err(NotPending(Active))
  {
    var store := new Store.Open(map[]);
    var _ := store.CreateTask(Input("Test task"), "t1", 1);
    var _ := store.ClaimTask("t1", 2);
    second := store.ClaimTask("t1", 3);
  }

  /** Completing a task that was never claimed is refused. */
  method CompleteUnclaimed() returns (completed: Result<Task>)
    ensures completed == Err(NotActive(Pending))
  {
    var store := new Store.Open(map[]);
    var _ := store.CreateTask(Input("Test task"), "t1", 1);
    completed := store.CompleteTask("t1", 2, None);
  }

  /** Claiming or completing an unknown id reports that it is not found. */
  method UnknownId() returns (claimed: Result<Task>, completed: Result<Task>)
    ensures claimed == Err(NotFound) && completed == Err(NotFound)
  {
    var store := new Store.Open(map[]);
    claimed := store.ClaimTask("non-existent-id", 1);
    completed := store.CompleteTask("non-existent-id", 2, None);
  }

  /** Looking up by id: the created task, or null for an unknown id. */
  method Lookup() returns (found: Option<Task>, missing: Option<Task>)
    ensures found.Some? && found.value.id == "t1" && found.value.title == "Test task"
    ensures missing.None?
  {
    var store := new Store.Open(map[]);
    var _ := store.CreateTask(Input("Test task"), "t1", 1);
    found := store.GetTask("t1");
    missing := store.GetTask("non-existent-id");
  }

  /** Two tasks created one after the other are listed newest first. */
  method ListNewestFirst() returns (listed: seq<Task>)
    ensures |listed| == 2 && listed[0].title == "B" && listed[1].title == "A"
  {
    var store := new Store.Open(map[]);
    var _ := store.CreateTask(Input("A"), "a", 1);
    var _ := store.CreateTask(Input("B"), "b", 2);
    var a, b := store.tasks["a"], store.tasks["b"];
    listed := store.GetTasks(None, None);
    assert a in listed && b in listed;
    DistinctWithin(listed, {"a", "b"});
    assert listed[0].createdAt >= listed[1].createdAt;
  }

  /** Filtering by `pending` and by `active` after the first of two tasks is claimed. */
  method FilterPendingActive() returns (pending: seq<Task>, active: seq<Task>)
    ensures |pending| == 1 && pending[0].id == "t2"
    ensures |active| == 1 && active[0].id == "t1"
  {
    var store := new Store.Open(map[]);
    var _ := store.CreateTask(Input("Task 1"), "t1", 1);
    var _ := store.CreateTask(Input("Task 2"), "t2", 2);
    var _ := store.ClaimTask("t1", 3);
    StatusFilterExact(Pending);
    StatusFilterExact(Active);
    pending := store.GetTasks(Some("pending"), None);
    DistinctWithin(pending, {"t2"});
    active := store.GetTasks(Some("active"), None);
    DistinctWithin(active, {"t1"});
  }

  /** Filtering by `done` after the first of two tasks is claimed and completed. */
  method FilterDone() returns (done: seq<Task>)
    ensures |done| == 1 && done[0].id == "t1"
  {
    var store := new Store.Open(map[]);
    var _ := store.CreateTask(Input("Task 1"), "t1", 1);
    var _ := store.CreateTask(Input("Task 2"), "t2", 2);
    var _ := store.ClaimTask("t1", 3);
    var _ := store.CompleteTask("t1", 4, None);
    StatusFilterExact(Done);
    done := store.GetTasks(Some("done"), None);
    DistinctWithin(done, {"t1"});
  }

  /** Listing without a filter or a limit returns every task. */
  method ListAll() returns (listed: seq<Task>)
    ensures |listed| == 3
  {
    var store := new Store.Open(map[]);
    var _ := store.CreateTask(Input("Task 1"), "t1", 1);
    var _ := store.CreateTask(Input("Task 2"), "t2", 2);
    var _ := store.CreateTask(Input("Task 3"), "t3", 3);
    var t1, t2, t3 := store.tasks["t1"], store.tasks["t2"], store.tasks["t3"];
    listed := store.GetTasks(None, None);
    assert t1 in listed && t2 in listed && t3 in listed;
    DistinctWithin(listed, {"t1", "t2", "t3"});
  }

  /** A positive limit caps a listing of three tasks at two. */
  method ListWithLimit() returns (listed: seq<Task>)
    ensures |listed| == 2
  {
    var store := new Store.Open(map[]);
    var _ := store.CreateTask(Input("Task 1"), "t1", 1);
    var _ := store.CreateTask(Input("Task 2"), "t2", 2);
    var _ := store.CreateTask(Input("Task 3"), "t3", 3);
    listed := store.GetTasks(Some("all"), Some(2));
  }

  /** initDb on an open connection hands back the handle it already holds. */
  method InitTwice() returns (first: Store, second: Store)
    ensures first == second && first.tasks == map[]
  {
    var connection := new Connection();
    first := connection.InitDb(map[]);
    second := connection.InitDb(map[]);
  }
}
