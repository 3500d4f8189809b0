/**
 The records of the persisted board store: a task map keyed by task id and
 an ordered list of columns, each listing the ids of its tasks in order.
 */
module StoreTypes {
  import opened Options

  type Id = string

  /** Milliseconds since the epoch, as captured by `new Date()`. */
  type Timestamp = int

  /**
   A task record. Every field is optional: the store builds entries by
   spreading `Partial<Task>` updates over the previous entry, and spreading
   over a missing entry (`undefined`) yields a record holding only the
   fields of the update. A task created by `addTask` has all five.
   */
  datatype Task = Task(
    id: Option<Id>,
    title: Option<string>,
    description: Option<string>,
    status: Option<Id>,
    createdAt: Option<Timestamp>)

  datatype Column = Column(id: Id, title: string, taskIds: seq<Id>)

  datatype Board = Board(tasks: map<Id, Task>, columns: seq<Column>)
}
