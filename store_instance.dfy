/**
 The store instance (`useBoardStore`): one board that every action replaces
 with the result of its updater. Persistence to local storage is not part
 of this model.
 */
module StoreInstance {
  import opened Options
  import opened StoreTypes
  import Store
  import opened StoreProperties

  class BoardStore {
    var state: Board

    /** The store before hydration: no tasks and the three default columns. */
    constructor ()
      ensures state == Store.InitialBoard
      ensures Consistent(state)
    {
      state := Store.InitialBoard;
      InitialBoardConsistent();
    }

    method AddTask(columnId: Id, title: string, description: string, taskId: Id, now: Timestamp)
      modifies this
      ensures state == Store.AddTask(old(state), columnId, title, description, taskId, now)
      ensures old(Consistent(state)) && taskId !in old(state).tasks ==> Consistent(state)
    {
      if Consistent(state) && taskId !in state.tasks {
        AddTaskKeepsConsistent(state, columnId, title, description, taskId, now);
      }
      state := Store.AddTask(state, columnId, title, description, taskId, now);
    }

    method UpdateTask(taskId: Id, updates: Task)
      modifies this
      ensures state == Store.UpdateTask(old(state), taskId, updates)
      ensures old(Consistent(state)) && taskId in old(state).tasks && updates.status.None? ==> Consistent(state)
    {
      if Consistent(state) && taskId in state.tasks && updates.status.None? {
        UpdateTaskKeepsConsistent(state, taskId, updates);
      }
      state := Store.UpdateTask(state, taskId, updates);
    }

    method DeleteTask(taskId: Id)
      modifies this
      ensures state == Store.DeleteTask(old(state), taskId)
      ensures old(Consistent(state)) ==> Consistent(state)
    {
      if Consistent(state) {
        DeleteTaskKeepsConsistent(state, taskId);
      }
      state := Store.DeleteTask(state, taskId);
    }

    method MoveTask(taskId: Id, sourceColumnId: Id, destinationColumnId: Id)
      modifies this
      ensures state == Store.MoveTask(old(state), taskId, sourceColumnId, destinationColumnId)
      ensures (&& old(Consistent(state))
               && taskId in old(state).tasks
               && old(state).tasks[taskId].status == Some(sourceColumnId)
               && sourceColumnId != destinationColumnId) ==> Consistent(state)
    {
      if Consistent(state) && taskId in state.tasks && state.tasks[taskId].status == Some(sourceColumnId)
        && sourceColumnId != destinationColumnId
      {
        MoveTaskKeepsConsistent(state, taskId, sourceColumnId, destinationColumnId);
      }
      state := Store.MoveTask(state, taskId, sourceColumnId, destinationColumnId);
    }

    method AddColumn(title: string, columnId: Id)
      modifies this
      ensures state == Store.AddColumn(old(state), title, columnId)
      ensures old(Consistent(state)) && Store.FindColumn(old(state).columns, columnId).None? ==> Consistent(state)
    {
      if Consistent(state) && Store.FindColumn(state.columns, columnId).None? {
        AddColumnKeepsConsistent(state, title, columnId);
      }
      state := Store.AddColumn(state, title, columnId);
    }

    method DeleteColumn(columnId: Id)
      modifies this
      ensures state == Store.DeleteColumn(old(state), columnId)
      ensures old(Consistent(state)) ==> Consistent(state)
    {
      if Consistent(state) {
        DeleteColumnKeepsConsistent(state, columnId);
      }
      state := Store.DeleteColumn(state, columnId);
    }
  }
}
