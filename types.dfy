/**
 * The entity of the task store: a task, its status and priority, and the
 * input a caller gives to create one.
 *
 * Status and priority are stored as TEXT columns; StatusName/ParseStatus and
 * PriorityName/ParsePriority are that textual form, and their round-trip
 * lemmas say that each enumeration has exactly the three values the column
 * can hold.
 */
module Types {

  /** An explicit null: `None` is SQL NULL / an omitted optional argument. */
  datatype Option<+T> = None | Some(value: T)

  datatype Status = Pending | Active | Done

  datatype Priority = Low | Normal | High

  /** Timestamps are an abstract clock; the store's ISO-8601 strings sort chronologically. */
  type Time = nat

  /** One row of the `tasks` table. */
  datatype Task = Task(
    id: string,
    title: string,
    description: Option<string>,
    priority: Priority,
    status: Status,
    result: Option<string>,
    createdAt: Time,
    claimedAt: Option<Time>,
    completedAt: Option<Time>
  )

  /** What a caller supplies to create a task: title required, the rest optional. */
  datatype CreateTaskInput = CreateTaskInput(
    title: string,
    description: Option<string>,
    priority: Option<Priority>
  )

  /** The text stored in the `status` column. */
  function StatusName(s: Status): string
  {
    match s
    case Pending => "pending"
    case Active => "active"
    case Done => "done"
  }

  /** Reading the `status` column back: only the three names denote a status. */
  function ParseStatus(text: string): (r: Option<Status>)
    ensures r.Some? <==> text == "pending" || text == "active" || text == "done"
    ensures r.Some? ==> StatusName(r.value) == text
  {
    if text == "pending" then Some(Pending)
    else if text == "active" then Some(Active)
    else if text == "done" then Some(Done)
    else None
  }

  lemma StatusRoundTrip(s: Status)
    ensures ParseStatus(StatusName(s)) == Some(s)
  {
  }

  /** Distinct statuses have distinct names, and no name is the `"all"` filter word or empty. */
  lemma StatusNamesDistinct(s: Status, u: Status)
    ensures StatusName(s) == StatusName(u) <==> s == u
    ensures StatusName(s) != "all" && StatusName(s) != ""
  {
  }

  /** The text stored in the `priority` column. */
  function PriorityName(p: Priority): string
  {
    match p
    case Low => "low"
    case Normal => "normal"
    case High => "high"
  }

  function ParsePriority(text: string): (r: Option<Priority>)
    ensures r.Some? <==> text == "low" || text == "normal" || text == "high"
    ensures r.Some? ==> PriorityName(r.value) == text
  {
    if text == "low" then Some(Low)
    else if text == "normal" then Some(Normal)
    else if text == "high" then Some(High)
    else None
  }

  lemma PriorityRoundTrip(p: Priority)
    ensures ParsePriority(PriorityName(p)) == Some(p)
  {
  }
}
