/**
 The records of the component-local board: tasks and columns in maps keyed
 by id, and the display order of the columns as a list of column ids.
 */
module ViewTypes {
  type Id = string

  /** A task; here `status` holds a column title, not a column id. */
  datatype Task = Task(id: Id, title: string, description: string, status: string)

  datatype Column = Column(id: Id, title: string, taskIds: seq<Id>, color: string)

  datatype Board = Board(tasks: map<Id, Task>, columns: map<Id, Column>, columnOrder: seq<Id>)
}
