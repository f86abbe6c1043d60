# Dispatch task store, modelled in Dafny

Dispatch is a small durable task queue. Clients create tasks, list and filter
them, claim one to work on, and mark it complete with a result. All of this
goes through the **task store** (`src/db.ts`), which keeps one SQLite table
`tasks` holding rows of the entity described by `src/types.ts`. This project
models that store and proves the properties its operations promise:

- every task moves only forward along `pending -> active -> done`, one step at
  a time;
- each operation writes exactly one row, and only the columns it names;
- the typed failures are "not found", "not pending" and "not active", plus
  "duplicate id" for an insert under an id already in the table, and a failed
  call changes nothing;
- the bookkeeping columns follow the status. `claimed_at` is set exactly when
  the status is `active` or `done`. `completed_at` is set exactly when it is
  `done`. A `result` exists only on a `done` task.

Files:

- `types.dfy` (module `Types`) holds the datatypes `Status`, `Priority`,
  `Task` and `CreateTaskInput`. Nullable columns and optional arguments are
  `Option`. Timestamps are an abstract clock `Time = nat`; the source's
  ISO-8601 strings sort chronologically, so the order is the same. The
  datatypes give, by construction, the facts `src/types.ts` states: a status
  is exactly one of three values, so is a priority, and `id`, `title` and
  `created_at` are never null. The only nullable fields are `description`,
  `result`, `claimedAt` and `completedAt`. In `CreateTaskInput` only the
  title is required. `StatusName`/`ParseStatus` and
  `PriorityName`/`ParsePriority` give the text stored in the `status` and
  `priority` columns; the status filter of `getTasks` reads the given text
  with `ParseStatus`, so its exactness rests on the status round trip.
- `task_rows.dfy` (module `TaskRows`) models what the INSERT and the two
  UPDATEs write into one row (`NewTask`, `Claimed`, `Completed`). It defines
  the bookkeeping invariant (`Bookkeeping`, `WellFormed`, `ValidTable`) and
  the lifecycle relations. `RowStep` and `TableStep` describe one operation;
  `RowEvolves` and `TableEvolves` describe any number of them. The lemmas
  prove that every history of operations keeps the table valid and moves
  rows only forward.
- `task_store.dfy` (module `TaskStore`) holds the class `Store`. Its field
  `tasks: map<string, Task>` is the table keyed by its primary key. Its
  methods are `CreateTask`, `GetTasks`, `ClaimTask` and `CompleteTask`, and
  the read-only function `GetTask`. The class `Connection` is the
  module-level `db` handle that `initDb` and `closeDb` set and clear.
  `GetTasks` is a read-only method. It evaluates the SELECT by scanning the
  table, inserting each matching row newest first, and applying `LIMIT`.
  Its contract states the three obligations of the query: the matching rows
  (each once), newest first, and cut to the `limit` newest when the limit is
  positive.
- `scenarios.dfy` (module `Scenarios`) replays the store tests of
  `test/dispatch.test.js` (create, list, filter, limit, lookup, claim,
  complete and their failures) as client methods, plus the newest-first
  order and a repeated `initDb`. Each one starts from an empty
  store and proves, from the store's contracts alone, what the test asserts.

The clock and the id generator are parameters of the operations. `now`
stands for `new Date().toISOString()` and `id` for `randomUUID()`. An id that
is already in the table is the SQLite primary-key violation: the INSERT
throws and nothing is written. The model reports it as `DuplicateId` rather
than requiring a fresh id.

Behaviour of the code that the model follows as written:

- `createTask` does not check the title; only the MCP adapter rejects an empty
  one (`src/index.ts:119-121`). No `ValidationError` is modelled, and an empty
  title is stored.
- `x || null` in the source stores an omitted *or empty* description or result
  as null (`src/db.ts:54`, `src/db.ts:128`). `NullIfEmpty` models this.
- `claimTask` and `completeTask` read the status and then issue an
  unconditional UPDATE, so two concurrent claims of one task can both
  succeed. Each operation is modelled as one atomic step.
- `getTasks` compares the given status text with the column. Any other text,
  such as a misspelt status, matches nothing. An empty string or `"all"`
  applies no filter, because `status && status !== "all"` is false for both.

## Model

| member | source | states |
|---|---|---|
| Types.ParseStatus | src/types.ts:1 | reading the status text succeeds exactly on `pending`, `active`, `done`, and gives back the status whose name it is |
| Types.StatusRoundTrip | src/types.ts:1 | every status is read back from its own text |
| Types.StatusNamesDistinct | src/types.ts:1 | distinct statuses have distinct texts, none of which is empty or `all` |
| Types.ParsePriority | src/types.ts:3 | reading the priority text succeeds exactly on `low`, `normal`, `high`, and gives back the priority whose name it is |
| Types.PriorityRoundTrip | src/types.ts:3 | every priority is read back from its own text |
| TaskRows.NullIfEmpty | src/db.ts:54 | the null fallback of the INSERT and UPDATE gives null exactly for an omitted or empty string, never stores an empty string, and keeps every other value |
| TaskRows.NewTask | src/db.ts:47-54 | the inserted row is `pending` with null `result`, `claimed_at` and `completed_at`, has the given id, title and creation time, has priority `normal` when none is given and null description when none or an empty one is given, and is well formed |
| TaskRows.Claimed | src/db.ts:98-105 | the claim UPDATE sets status `active` and `claimed_at` to now, putting those two columns back gives the original row, and a well-formed pending row stays well formed |
| TaskRows.Completed | src/db.ts:121-128 | the complete UPDATE sets status `done`, `completed_at` to now and `result` to the given text or null, putting those three columns back gives the original row, and a well-formed active row stays well formed |
| TaskRows.RowStepForward | src/db.ts:94-126 | one operation keeps a row well formed, changes its status only along `pending -> active` or `active -> done` (never a skip), and keeps its creation fields and any set timestamp |
| TaskRows.RowEvolvesTransitive | src/db.ts:86-130 | forward evolution of a row composes |
| TaskRows.TableStepForward | src/db.ts:43-130 | one store operation keeps every row stored under its own id and well formed, and only moves rows forward |
| TaskRows.TableEvolvesTransitive | src/db.ts:43-130 | forward evolution of the table composes, row by row |
| TaskRows.HistoryForwardOnly | src/db.ts:43-130 | over any history of operations from a valid table, every state is valid, no id is lost, no status moves back, and `claimed_at`/`completed_at` are set once and kept |
| TaskStore.FiltersByStatus | src/db.ts:64 | the `WHERE` clause is added only for a present status text that is neither empty nor `all` |
| TaskStore.Matches | src/db.ts:64-67 | a row passes the filter when no filter applies, or when the given text reads, as a status, as the row's status |
| TaskStore.Caps | src/db.ts:71-74 | the `LIMIT` clause is added only for a present, positive limit |
| TaskStore.StatusFilterExact | src/db.ts:64-67 | filtering by a status's text selects exactly the tasks in that status; no filter, `""` and `"all"` select every task |
| TaskStore.InsertionPoint | src/db.ts:69 | the place for a row in a newest-first list: every earlier row is strictly newer and the row at the place is not newer |
| TaskStore.InsertNewestFirst | src/db.ts:69 | inserting a row adds exactly that row (the multiset of rows grows by it and nothing else), keeps newest-first order, and keeps ids distinct when the id is new |
| TaskStore.DistinctWithin | src/db.ts:77 | a listing that never repeats an id drawn from a key set has at most as many rows as the set |
| TaskStore.Limit | src/db.ts:71-74 | `LIMIT` keeps a prefix, at most `limit` rows when the limit is positive and everything otherwise, and no dropped row is newer than a kept one |
| TaskStore.Store.Open | src/db.ts:23-38 | opening the database gives a valid store over the rows already in the file |
| TaskStore.Store.GetTask | src/db.ts:80-84 | the lookup is null exactly when no row has that id, and otherwise is that row, whose id is the one asked for |
| TaskStore.Store.CreateTask | src/db.ts:43-57 | on a new id, adds exactly one row, the `NewTask` row, leaves every other row unchanged and returns the stored row; on an id already present, fails with `DuplicateId` and changes nothing |
| TaskStore.Store.GetTasks | src/db.ts:59-78 | returns only stored rows passing the status filter, each once, newest first; at most `limit` of them when the limit is positive; every matching row when the cap is not reached; no left-out matching row newer than a returned one |
| TaskStore.Store.ClaimTask | src/db.ts:86-107 | unknown id fails with `NotFound`, a non-pending task fails with `NotPending(current status)`, both changing nothing; otherwise the row becomes `Claimed(row, now)`, no other row changes, and the updated row is returned |
| TaskStore.Store.CompleteTask | src/db.ts:109-130 | unknown id fails with `NotFound`, a non-active task fails with `NotActive(current status)`, both changing nothing; otherwise the row becomes `Completed(row, now, result)`, no other row changes, and the updated row is returned |
| TaskStore.Connection.constructor | src/db.ts:8 | the process starts with no open handle |
| TaskStore.Connection.InitDb | src/db.ts:18-41 | with a handle open, returns that same handle with its rows untouched; otherwise opens a new store over the file's rows and keeps it as the handle |
| TaskStore.Connection.CloseDb | src/db.ts:132-137 | clears the handle |
| Scenarios.Lifecycle | test/dispatch.test.js:72-92 | create, claim and complete: `pending` with null fields and default priority, then `active` with `claimed_at`, then `done` with the result and `completed_at`, all the same id |
| Scenarios.CreateWithDetails | test/dispatch.test.js:59-70 | a task created with a title, description and priority is pending and stores all three |
| Scenarios.CompleteWithoutResult | test/dispatch.test.js:94-101 | completing without a result stores null |
| Scenarios.ClaimTwice | test/dispatch.test.js:170-178 | a second claim fails with `NotPending(active)` |
| Scenarios.CompleteUnclaimed | test/dispatch.test.js:180-187 | completing a pending task fails with `NotActive(pending)` |
| Scenarios.UnknownId | test/dispatch.test.js:189-201 | claim and complete of an unknown id fail with `NotFound` |
| Scenarios.Lookup | test/dispatch.test.js:154-166 | lookup finds a created task and gives null for an unknown id |
| Scenarios.ListNewestFirst | src/db.ts:69 | tasks A then B, listed without filter, come back as exactly `[B, A]` |
| Scenarios.FilterPendingActive | test/dispatch.test.js:114-132 | after claiming the first of two tasks, `pending` lists only the second and `active` only the first |
| Scenarios.FilterDone | test/dispatch.test.js:134-143 | after claiming and completing the first of two tasks, `done` lists only the first |
| Scenarios.ListAll | test/dispatch.test.js:105-112 | three tasks listed without a filter or limit give exactly three |
| Scenarios.ListWithLimit | test/dispatch.test.js:145-152 | three tasks listed with `"all"` and limit 2 give exactly two |
| Scenarios.InitTwice | src/db.ts:19-21 | a second `initDb` returns the handle the first one opened |

## Left out

- The MCP server (`src/index.ts`) is not modelled: tool registration, JSON schemas, JSON rendering, `McpError` wrapping and the stdio transport. The store is modelled as that adapter's callee. The adapter's empty-title check is not part of the store and is not modelled.
- `getDbPath` is not modelled: it resolves the home directory and creates a directory. Opening the file and the `CREATE TABLE` statement are reduced to `Store.Open` over the rows the file already holds.
- TaskStore.Store.Open and TaskStore.Connection.InitDb require the file's rows to be well formed (`ValidTable`): they are taken to be rows this store wrote. `initDb` itself opens a file with any rows; rows written by other programs are not modelled. Rows this store writes are well formed by `HistoryForwardOnly` from the empty table.
- The lazy `db || initDb()` at the head of each operation is not modelled: each operation is a method of an already open `Store`. Rows kept in the file from a closed handle to a later `initDb` are not modelled either; `InitDb` takes the file's rows as a parameter.
- Concurrency is not modelled. Each operation is one atomic step, so the lost-update race between two concurrent claims or completions cannot be expressed.
- The real clock and `randomUUID()` are parameters. The clock is not assumed to be monotonic, so orderings between `created_at`, `claimed_at` and `completed_at` of one task are not stated.
- Storage-layer failures (I/O errors, a corrupt file, a lost connection) are not modelled; only the primary-key violation on insert is.
- TaskStore.Store.GetTasks: rows with equal `created_at` may come in any order, as SQLite leaves their order unspecified. The method picks table keys nondeterministically, so it does not capture that repeating a query on unchanged data gives the same order.
- TaskStore.Store.GetTasks: `limit` is an integer. A fractional or NaN JavaScript number is not modelled.
- `Priority` holds only the three values of `TaskPriority`. The adapter casts an unchecked string, and SQLite would store any text in that column; that path is not modelled.
