/**
 The task details page's state (src/components/TaskDetails.tsx): the task
 being edited and the board it came from, both absent until a saved board
 is loaded. Saving and deleting hand back the board to write to local
 storage; the write itself and the navigation that follows are not part of
 this model.
 */
module TaskDetailsPage {
  import opened Options
  import opened Seqs
  import opened ViewTypes
  import opened BoardView
  import opened TaskDetails

  class Page {
    const taskId: Id
    var task: Option<Task>
    var board: Option<Board>

    /**
     The page once its loading effect has run: with a saved board, the board
     and the task stored under `taskId` (absent when there is none); without
     one, neither.
     */
    constructor (taskId: Id, saved: Option<Board>)
      ensures this.taskId == taskId && board == saved
      ensures task.Some? <==> saved.Some? && taskId in saved.value.tasks
      ensures task.Some? ==> task.value == saved.value.tasks[taskId]
    {
      this.taskId := taskId;
      board := saved;
      if saved.Some? && taskId in saved.value.tasks {
        task := Some(saved.value.tasks[taskId]);
      } else {
        task := None;
      }
    }

    /** handleChange: edits the named field of the task, if there is one. */
    method HandleChange(field: Field, value: string)
      modifies this
      ensures board == old(board)
      ensures task.Some? <==> old(task).Some?
      ensures task.Some? ==> task.value == ChangeField(old(task).value, field, value)
    {
      if task.Some? {
        task := Some(ChangeField(task.value, field, value));
      }
    }

    /** handleStatusChange: sets the task's status to the chosen column title, if there is a task. */
    method HandleStatusChange(value: string)
      modifies this
      ensures board == old(board)
      ensures task.Some? <==> old(task).Some?
      ensures task.Some? ==> task.value == ChangeStatus(old(task).value, value)
    {
      if task.Some? {
        task := Some(ChangeStatus(task.value, value));
      }
    }

    /** handleSave: the board with the edited task stored, or nothing when the task or the board is missing. */
    method HandleSave() returns (written: Option<Board>)
      ensures written.Some? <==> task.Some? && board.Some?
      ensures written.Some? ==> written.value == SaveTask(board.value, task.value)
    {
      if task.Some? && board.Some? {
        var b := board.value;
        written := Some(b.(tasks := b.tasks[task.value.id := task.value]));
      } else {
        written := None;
      }
    }

    /**
     handleDelete: copies the task map and deletes the task's key from the
     copy, filters the id out of every column, and hands back the result;
     nothing when the task or the board is missing.
     */
    method HandleDelete() returns (written: Option<Board>)
      ensures written.Some? <==> task.Some? && board.Some?
      ensures written.Some? ==> written.value == DeleteTask(board.value, task.value.id)
    {
      if task.Some? && board.Some? {
        var b := board.value;
        var id := task.value.id;
        var newTasks := b.tasks;
        newTasks := newTasks - {id};
        var newColumns := map k | k in b.columns :: b.columns[k].(taskIds := Without(b.columns[k].taskIds, id));
        written := Some(b.(tasks := newTasks, columns := newColumns));
      } else {
        written := None;
      }
    }
  }
}
