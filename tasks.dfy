/** The task record of the tracker and the collection-wide invariants stated about it. */
module Tasks {

  datatype Option<T> = None | Some(value: T)

  /** The three priorities a task can carry (the form's `select` offers exactly these). */
  datatype Priority = Low | Medium | High

  /** A task as the store holds it. Timestamps are milliseconds since the epoch, the value a
      `Date` stands for. */
  datatype Task = Task(
    id: string,
    title: string,
    description: string,
    priority: Priority,
    completed: bool,
    createdAt: int,
    updatedAt: int)

  /** The fields the form hands to the store: everything except the id and the timestamps. */
  datatype TaskData = TaskData(title: string, description: string, priority: Priority, completed: bool)

  /** The ids present in a collection. */
  function Ids(tasks: seq<Task>): set<string>
  {
    set t | t in tasks :: t.id
  }

  /** No two positions of the collection hold the same id. */
  predicate UniqueIds(tasks: seq<Task>)
  {
    forall i, j :: 0 <= i < j < |tasks| ==> tasks[i].id != tasks[j].id
  }

  /** Every task was last updated no earlier than it was created. */
  predicate WellStamped(tasks: seq<Task>)
  {
    forall i :: 0 <= i < |tasks| ==> tasks[i].createdAt <= tasks[i].updatedAt
  }
}
