/**
 The board component's state (src/components/Board.tsx): the board held in
 `useState` and the flag that shows the "Add Column" form. Each handler
 computes the next board step by step and stores it, as `setBoard` does.
 Loading from and saving to local storage is not part of this model.
 */
module BoardComponent {
  import opened Options
  import opened Seqs
  import opened ViewTypes
  import opened BoardView

  class Component {
    var board: Board
    var newColumnFormOpen: bool

    /** A freshly mounted board: the initial board, with the form closed. */
    constructor ()
      ensures board == InitialBoard && !newColumnFormOpen
      ensures WellFormed(board) && ListedAreTasks(board) && StatusesMatchTitles(board)
    {
      board := InitialBoard;
      newColumnFormOpen := false;
      InitialBoardWellFormed();
    }

    /**
     onDragEnd: returns early without a destination or when the drop lands
     where it started; otherwise copies the task id lists, splices them and
     stores the rewritten columns under their own ids.
     */
    method OnDragEnd(r: DropResult)
      requires DropTargetsKnown(board, r)
      modifies this
      ensures board == DragEnd(old(board), r)
      ensures newColumnFormOpen == old(newColumnFormOpen)
      ensures old(WellFormed(board)) ==> WellFormed(board)
      ensures old(KeysMatch(board) && ListedAreTasks(board)) && (IsMove(r) ==> r.draggableId in old(board).tasks)
        ==> ListedAreTasks(board)
    {
      if WellFormed(board) {
        DragKeepsWellFormed(board, r);
      }
      if KeysMatch(board) && ListedAreTasks(board) && (IsMove(r) ==> r.draggableId in board.tasks) {
        DragKeepsTasksListed(board, r);
      }
      if r.destination.None? {
        return;
      }
      var destination := r.destination.value;
      if destination.droppableId == r.source.droppableId && destination.index == r.source.index {
        return;
      }
      var startColumn := board.columns[r.source.droppableId];
      var finishColumn := board.columns[destination.droppableId];
      if r.source.droppableId == destination.droppableId {
        var newTaskIds := startColumn.taskIds;
        newTaskIds := RemoveAt(newTaskIds, r.source.index);
        newTaskIds := InsertAt(newTaskIds, destination.index, r.draggableId);
        var newColumn := startColumn.(taskIds := newTaskIds);
        board := board.(columns := board.columns[newColumn.id := newColumn]);
        return;
      }
      var startTaskIds := startColumn.taskIds;
      startTaskIds := RemoveAt(startTaskIds, r.source.index);
      var newStart := startColumn.(taskIds := startTaskIds);
      var finishTaskIds := finishColumn.taskIds;
      finishTaskIds := InsertAt(finishTaskIds, destination.index, r.draggableId);
      var newFinish := finishColumn.(taskIds := finishTaskIds);
      board := board.(columns := board.columns[newStart.id := newStart][newFinish.id := newFinish]);
    }

    /** addTask: stores the task and appends its id to the named column. */
    method AddTask(columnId: Id, task: Task)
      requires columnId in board.columns
      modifies this
      ensures board == BoardView.AddTask(old(board), columnId, task)
      ensures newColumnFormOpen == old(newColumnFormOpen)
      ensures old(WellFormed(board)) ==> WellFormed(board)
      ensures old(ListedAreTasks(board)) ==> ListedAreTasks(board)
    {
      AddTaskKeepsWellFormed(board, columnId, task);
      var column := board.columns[columnId];
      var newTaskIds := column.taskIds + [task.id];
      board := board.(tasks := board.tasks[task.id := task], columns := board.columns[columnId := column.(taskIds := newTaskIds)]);
    }

    /** addColumn: appends an empty column whose id comes from the clock, and closes the form. */
    method AddColumn(title: string, now: nat)
      modifies this
      ensures board == BoardView.AddColumn(old(board), title, now)
      ensures !newColumnFormOpen
      ensures old(WellFormed(board)) && ColumnIdAt(now) !in old(board).columns ==> WellFormed(board)
    {
      var newColumnId := ColumnIdAt(now);
      if WellFormed(board) && newColumnId !in board.columns {
        AddColumnKeepsWellFormed(board, title, now);
      }
      var newColumn := Column(newColumnId, title, [], NewColumnColor);
      board := board.(columns := board.columns[newColumnId := newColumn], columnOrder := board.columnOrder + [newColumnId]);
      newColumnFormOpen := false;
    }

    /** addTaskToColumn: finds the column by the task's status, read as a title, and calls addTask. */
    method AddTaskToColumn(task: Task)
      requires CanAddToColumn(board, task)
      modifies this
      ensures board == BoardView.AddTaskToColumn(old(board), task)
      ensures newColumnFormOpen == old(newColumnFormOpen)
      ensures old(WellFormed(board) && ListedAreTasks(board) && StatusesMatchTitles(board)) && task.id !in old(board).tasks
        && (exists k :: k in old(board).columns && old(board).columns[k].title == task.status)
        ==> StatusesMatchTitles(board)
    {
      if WellFormed(board) && ListedAreTasks(board) && StatusesMatchTitles(board) && task.id !in board.tasks
        && (exists k :: k in board.columns && board.columns[k].title == task.status)
      {
        AddTaskToColumnKeepsInvariants(board, task);
      }
      var found := FindByTitle(board.columnOrder, board.columns, task.status);
      var key := if found.Some? then found.value else "";
      var column := board.columns[key];
      AddTask(column.id, task);
    }
  }
}
