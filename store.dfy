/**
 The board store's actions (src/store/board.ts). Each action is the updater
 handed to the store's `set`: a function from the current board and the
 action's arguments to the next board. The fresh id (`generateId()`) and the
 creation time (`new Date()`) are parameters.
 */
module Store {
  import opened Options
  import opened Seqs
  import opened StoreTypes

  /** The three columns a store starts with, all empty. */
  const DefaultColumns: seq<Column> := [
    Column("todo", "To Do", []),
    Column("in-progress", "In Progress", []),
    Column("done", "Done", [])
  ]

  /** The board before any action: no tasks and the default columns. */
  const InitialBoard: Board := Board(map[], DefaultColumns)

  /** `columns.find(col => col.id === id)`: the first column with that id, if any. */
  function FindColumn(columns: seq<Column>, id: Id): (r: Option<Column>)
    ensures r.None? <==> forall i :: 0 <= i < |columns| ==> columns[i].id != id
    ensures r.Some? ==> r.value in columns && r.value.id == id
  {
    if columns == [] then None
    else if columns[0].id == id then Some(columns[0])
    else FindColumn(columns[1..], id)
  }

  /** The value of spreading `undefined`: a record without fields. */
  const NoFields: Task := Task(None, None, None, None, None)

  /** `tasks[id]`, which is `undefined` for a missing key: a record with no field present. */
  function Entry(tasks: map<Id, Task>, id: Id): (r: Task)
    ensures id in tasks ==> r == tasks[id]
    ensures id !in tasks ==> r.id.None? && r.title.None? && r.description.None? && r.status.None? && r.createdAt.None?
  {
    if id in tasks then tasks[id] else NoFields
  }

  /**
   One field of `{ ...base, ...updates }`: the result is one of the two
   values, it is present exactly when either is, and a present update wins.
   */
  function Override<T>(base: Option<T>, update: Option<T>): (r: Option<T>)
    ensures r == update || r == base
    ensures r.Some? <==> update.Some? || base.Some?
    ensures update.Some? ==> r == update
  {
    if update.Some? then update else base
  }

  /**
   `{ ...base, ...updates }` on task records: each field present in
   `updates` is taken from it, each absent one from `base`.
   */
  function Spread(base: Task, updates: Task): (r: Task)
    ensures updates.id.Some? ==> r.id == updates.id
    ensures updates.id.None? ==> r.id == base.id
    ensures updates.title.Some? ==> r.title == updates.title
    ensures updates.title.None? ==> r.title == base.title
    ensures updates.description.Some? ==> r.description == updates.description
    ensures updates.description.None? ==> r.description == base.description
    ensures updates.status.Some? ==> r.status == updates.status
    ensures updates.status.None? ==> r.status == base.status
    ensures updates.createdAt.Some? ==> r.createdAt == updates.createdAt
    ensures updates.createdAt.None? ==> r.createdAt == base.createdAt
  {
    Task(
      Override(base.id, updates.id),
      Override(base.title, updates.title),
      Override(base.description, updates.description),
      Override(base.status, updates.status),
      Override(base.createdAt, updates.createdAt))
  }

  /** Spreading a record with no fields over a task leaves the task as it was. */
  lemma SpreadNothing(t: Task)
    ensures Spread(t, NoFields) == t
  {
  }

  /** Spreading updates over a missing entry gives exactly the updates. */
  lemma SpreadOverMissing(tasks: map<Id, Task>, id: Id, updates: Task)
    requires id !in tasks
    ensures Spread(Entry(tasks, id), updates) == updates
  {
  }

  /** Two spreads in a row are one spread of the second updates over the first. */
  lemma SpreadTwice(base: Task, u: Task, v: Task)
    ensures Spread(Spread(base, u), v) == Spread(base, Spread(u, v))
  {
  }

  /** Spreading the same updates twice is spreading them once. */
  lemma SpreadIdempotent(base: Task, u: Task)
    ensures Spread(Spread(base, u), u) == Spread(base, u)
  {
  }

  /** Every field of the task is present. */
  predicate Complete(t: Task)
  {
    t.id.Some? && t.title.Some? && t.description.Some? && t.status.Some? && t.createdAt.Some?
  }

  /**
   addTask(columnId, title, description): when some column has id
   `columnId`, the new task is stored under `taskId` with status `columnId`
   and `taskId` goes to the tail of that column's list; otherwise the board
   is returned as it was.
   */
  function AddTask(b: Board, columnId: Id, title: string, description: string, taskId: Id, now: Timestamp): (r: Board)
    ensures FindColumn(b.columns, columnId).None? ==> r == b
    ensures FindColumn(b.columns, columnId).Some? ==>
      && taskId in r.tasks
      && r.tasks[taskId] == Task(Some(taskId), Some(title), Some(description), Some(columnId), Some(now))
      && Complete(r.tasks[taskId])
      && r.tasks.Keys == b.tasks.Keys + {taskId}
      && (forall k :: k in b.tasks && k != taskId ==> r.tasks[k] == b.tasks[k])
      && |r.columns| == |b.columns|
      && (forall i :: 0 <= i < |b.columns| ==>
            && r.columns[i].id == b.columns[i].id
            && r.columns[i].title == b.columns[i].title
            && (b.columns[i].id == columnId ==> r.columns[i].taskIds == b.columns[i].taskIds + [taskId])
            && (b.columns[i].id != columnId ==> r.columns[i] == b.columns[i]))
  {
    if FindColumn(b.columns, columnId).None? then b
    else
      var task := Task(Some(taskId), Some(title), Some(description), Some(columnId), Some(now));
      Board(
        b.tasks[taskId := task],
        seq(|b.columns|, i requires 0 <= i < |b.columns| =>
          var col := b.columns[i];
          if col.id == columnId then col.(taskIds := col.taskIds + [taskId]) else col))
  }

  /**
   updateTask(taskId, updates): the entry under `taskId` becomes the old
   entry with every field present in `updates` overriding it. The columns
   are never touched, even when `updates` carries a new status.
   */
  function UpdateTask(b: Board, taskId: Id, updates: Task): (r: Board)
    ensures r.columns == b.columns
    ensures r.tasks.Keys == b.tasks.Keys + {taskId}
    ensures forall k :: k in b.tasks && k != taskId ==> r.tasks[k] == b.tasks[k]
    ensures updates.title.Some? ==> r.tasks[taskId].title == updates.title
    ensures updates.title.None? ==> r.tasks[taskId].title == Entry(b.tasks, taskId).title
    ensures updates.description.Some? ==> r.tasks[taskId].description == updates.description
    ensures updates.description.None? ==> r.tasks[taskId].description == Entry(b.tasks, taskId).description
    ensures updates.status.Some? ==> r.tasks[taskId].status == updates.status
    ensures updates.status.None? ==> r.tasks[taskId].status == Entry(b.tasks, taskId).status
    ensures updates.id.Some? ==> r.tasks[taskId].id == updates.id
    ensures updates.id.None? ==> r.tasks[taskId].id == Entry(b.tasks, taskId).id
    ensures updates.createdAt.Some? ==> r.tasks[taskId].createdAt == updates.createdAt
    ensures updates.createdAt.None? ==> r.tasks[taskId].createdAt == Entry(b.tasks, taskId).createdAt
  {
    b.(tasks := b.tasks[taskId := Spread(Entry(b.tasks, taskId), updates)])
  }

  /**
   deleteTask(taskId): the entry is dropped from the map and every
   occurrence of `taskId` is filtered out of every column.
   */
  function DeleteTask(b: Board, taskId: Id): (r: Board)
    ensures r.tasks.Keys == b.tasks.Keys - {taskId}
    ensures forall k :: k in r.tasks ==> r.tasks[k] == b.tasks[k]
    ensures |r.columns| == |b.columns|
    ensures forall i :: 0 <= i < |b.columns| ==>
      && r.columns[i].id == b.columns[i].id
      && r.columns[i].title == b.columns[i].title
      && taskId !in r.columns[i].taskIds
      && (forall k :: k != taskId ==> (k in r.columns[i].taskIds <==> k in b.columns[i].taskIds))
      && multiset(r.columns[i].taskIds) == multiset(b.columns[i].taskIds)[taskId := 0]
  {
    Board(
      b.tasks - {taskId},
      seq(|b.columns|, i requires 0 <= i < |b.columns| =>
        b.columns[i].(taskIds := Without(b.columns[i].taskIds, taskId))))
  }

  /**
   The column list of moveTask: the source column loses every occurrence of
   `taskId`; otherwise the destination column gains it at the tail. A column
   that is both source and destination takes the source branch.
   */
  function MoveColumns(columns: seq<Column>, taskId: Id, src: Id, dst: Id): (r: seq<Column>)
    ensures |r| == |columns|
    ensures forall i :: 0 <= i < |columns| ==>
      && r[i].id == columns[i].id
      && r[i].title == columns[i].title
      && (columns[i].id == src ==> r[i].taskIds == Without(columns[i].taskIds, taskId))
      && (columns[i].id != src && columns[i].id == dst ==> r[i].taskIds == columns[i].taskIds + [taskId])
      && (columns[i].id != src && columns[i].id != dst ==> r[i] == columns[i])
  {
    seq(|columns|, i requires 0 <= i < |columns| =>
      var col := columns[i];
      if col.id == src then col.(taskIds := Without(col.taskIds, taskId))
      else if col.id == dst then col.(taskIds := col.taskIds + [taskId])
      else col)
  }

  /**
   moveTask(taskId, sourceColumnId, destinationColumnId): nothing happens
   unless both columns exist; then the columns are rewritten by MoveColumns
   and the entry under `taskId` gets `status` set to the destination.
   */
  function MoveTask(b: Board, taskId: Id, src: Id, dst: Id): (r: Board)
    ensures FindColumn(b.columns, src).None? || FindColumn(b.columns, dst).None? ==> r == b
    ensures FindColumn(b.columns, src).Some? && FindColumn(b.columns, dst).Some? ==>
      && r.columns == MoveColumns(b.columns, taskId, src, dst)
      && r.tasks.Keys == b.tasks.Keys + {taskId}
      && r.tasks[taskId].status == Some(dst)
      && r.tasks[taskId] == Entry(b.tasks, taskId).(status := Some(dst))
      && (forall k :: k in b.tasks && k != taskId ==> r.tasks[k] == b.tasks[k])
  {
    if FindColumn(b.columns, src).None? || FindColumn(b.columns, dst).None? then b
    else
      Board(
        b.tasks[taskId := Spread(Entry(b.tasks, taskId), NoFields.(status := Some(dst)))],
        MoveColumns(b.columns, taskId, src, dst))
  }

  /** addColumn(title): one empty column appended after all the others. */
  function AddColumn(b: Board, title: string, columnId: Id): (r: Board)
    ensures r.tasks == b.tasks
    ensures |r.columns| == |b.columns| + 1
    ensures r.columns[..|b.columns|] == b.columns
    ensures r.columns[|b.columns|] == Column(columnId, title, [])
  {
    b.(columns := b.columns + [Column(columnId, title, [])])
  }

  /** The test `col => col.id !== columnId`. */
  function IdIsNot(columnId: Id): Column -> bool
  {
    (c: Column) => c.id != columnId
  }

  /**
   deleteColumn(columnId): every column with that id is filtered out, the
   others keep their order and their task lists, and every task whose
   status is `columnId` is dropped from the map.
   */
  function DeleteColumn(b: Board, columnId: Id): (r: Board)
    ensures forall c :: c in r.columns <==> c in b.columns && c.id != columnId
    ensures IsSubsequence(r.columns, b.columns)
    ensures forall k :: k in r.tasks <==> k in b.tasks && b.tasks[k].status != Some(columnId)
    ensures forall k :: k in r.tasks ==> r.tasks[k] == b.tasks[k]
  {
    FilterIsSubsequence(IdIsNot(columnId), b.columns);
    Board(
      map k | k in b.tasks && b.tasks[k].status != Some(columnId) :: b.tasks[k],
      Filter(IdIsNot(columnId), b.columns))
  }

  /**
   deleteColumn keeps each column with another id exactly as many times as
   it occurred, and no copy of a column with the deleted id.
   */
  lemma DeleteColumnKeepsCounts(b: Board, columnId: Id)
    ensures forall c ::
      multiset(DeleteColumn(b, columnId).columns)[c] == (if c.id != columnId then multiset(b.columns)[c] else 0)
  {
    FilterMultiset(IdIsNot(columnId), b.columns);
  }
}
