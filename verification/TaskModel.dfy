/** A task, its status graph, and what an edit or a transition makes of one it has read. */
module TaskModel {
  import opened Collections

  // Identifiers and texts are only ever compared and copied, so numbers stand in for them.
  type TaskId = nat
  type UserId = nat
  type Time = nat
  type Text = nat

  datatype Status = Pending | InProgress | Done | Cancelled

  datatype Priority = Low | Medium | High

  datatype Task = Task(
    id: TaskId, user: UserId, title: Text, description: Text, status: Status, priority: Priority,
    createdAt: Time, updatedAt: Time, version: int)

  type Tasks = map<TaskId, Task>

  datatype Error = NotFound | AlreadyExists | Conflict | InvalidTransition | InvalidInput

  datatype Result<+T> = Ok(value: T) | Err(error: Error)

  function LegalTargets(from: Status): set<Status> {
    match from
    case Pending => {InProgress, Done, Cancelled}
    case InProgress => {Pending, Done, Cancelled}
    case Done => {Pending, InProgress}
    case Cancelled => {Pending}
  }

  /** A validated request to change a task. No priority means the task keeps its own. */
  datatype Op =
    | Edit(title: Text, description: Text, priority: Option<Priority>)
    | Move(target: Status)

  datatype Computed = Write(task: Task) | NothingToDo | Illegal

  /** What the service hands back to Update for op on a task it read. */
  function Compute(op: Op, read: Task, now: Time): Computed {
    match op
    case Edit(title, description, priority) =>
      Write(read.(title := title, description := description,
                  priority := if priority.Some? then priority.value else read.priority,
                  updatedAt := now))
    case Move(target) =>
      if read.status == target then NothingToDo
      else if target !in LegalTargets(read.status) then Illegal
      else Write(read.(status := target, updatedAt := now))
  }

  predicate Owned(store: Tasks, id: TaskId, user: UserId) {
    id in store && store[id].user == user
  }

  /** Why Update refuses task, if it does. */
  function Refusal(store: Tasks, task: Task): Option<Error> {
    if !Owned(store, task.id, task.user) then Some(NotFound)
    else if task.version != store[task.id].version then Some(Conflict)
    else None
  }

  /** The row Update stores: the caller's, but with the stored creation time and the next version. */
  function Replacement(stored: Task, task: Task): Task {
    task.(createdAt := stored.createdAt, version := stored.version + 1)
  }

  // ---------- Names ----------

  function StatusName(s: Status): string {
    match s
    case Pending => "pending"
    case InProgress => "in_progress"
    case Done => "done"
    case Cancelled => "cancelled"
  }

  function PriorityName(p: Priority): string {
    match p
    case Low => "low"
    case Medium => "medium"
    case High => "high"
  }

  function ParseStatus(raw: string): Option<Status> {
    if raw == "pending" then Some(Pending)
    else if raw == "in_progress" then Some(InProgress)
    else if raw == "done" then Some(Done)
    else if raw == "cancelled" then Some(Cancelled)
    else None
  }

  function ParsePriority(raw: string): Option<Priority> {
    if raw == "low" then Some(Low)
    else if raw == "medium" then Some(Medium)
    else if raw == "high" then Some(High)
    else None
  }
}
