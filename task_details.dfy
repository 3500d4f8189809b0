/**
 The task details page (src/components/TaskDetails.tsx): edits to the task
 being viewed, and the boards that saving or deleting it writes back.
 */
module TaskDetails {
  import opened Options
  import opened Seqs
  import opened ViewTypes
  import opened BoardView

  /** The two text inputs of the form, by their `name` attribute. */
  datatype Field = Title | Description

  /** handleChange: the named field takes the typed value; nothing else changes. */
  function ChangeField(t: Task, field: Field, value: string): (r: Task)
    ensures r.id == t.id && r.status == t.status
    ensures field == Title ==> r.title == value && r.description == t.description
    ensures field == Description ==> r.description == value && r.title == t.title
  {
    match field
    case Title => t.(title := value)
    case Description => t.(description := value)
  }

  /** handleStatusChange: only `status` takes the chosen value. */
  function ChangeStatus(t: Task, value: string): (r: Task)
    ensures r.status == value
    ensures r.id == t.id && r.title == t.title && r.description == t.description
  {
    t.(status := value)
  }

  /** Changing the same field twice keeps only the second value. */
  lemma ChangeFieldLastWins(t: Task, field: Field, v1: string, v2: string)
    ensures ChangeField(ChangeField(t, field, v1), field, v2) == ChangeField(t, field, v2)
  {
  }

  /**
   The values the status select offers: the title of each column, in
   `columnOrder`. They are titles, not column ids.
   */
  function StatusOptions(b: Board): (options: seq<string>)
    requires forall i :: 0 <= i < |b.columnOrder| ==> b.columnOrder[i] in b.columns
    ensures |options| == |b.columnOrder|
    ensures forall i :: 0 <= i < |b.columnOrder| ==> options[i] == b.columns[b.columnOrder[i]].title
  {
    seq(|b.columnOrder|, i requires 0 <= i < |b.columnOrder| => b.columns[b.columnOrder[i]].title)
  }

  /**
   A status picked from the select always names some column of a well
   formed board, so the board's addTaskToColumn places a task with that
   status in a column of exactly that title.
   */
  lemma StatusOptionIsColumnTitle(b: Board, t: Task, i: nat)
    requires WellFormed(b) && i < |b.columnOrder|
    ensures CanAddToColumn(b, ChangeStatus(t, StatusOptions(b)[i]))
    ensures var key := TargetKey(b, StatusOptions(b)[i]);
      key in b.columns && b.columns[key].title == StatusOptions(b)[i]
  {
    var title := StatusOptions(b)[i];
    assert b.columnOrder[i] in b.columns && b.columns[b.columnOrder[i]].title == title;
    TargetKeyInWellFormed(b, title);
  }

  /**
   handleSave: the task is stored under its id; every other task, the
   columns and the column order are untouched, so a changed status does
   not move the id to another column.
   */
  function SaveTask(b: Board, task: Task): (r: Board)
    ensures r.tasks.Keys == b.tasks.Keys + {task.id} && r.tasks[task.id] == task
    ensures forall k :: k in b.tasks && k != task.id ==> r.tasks[k] == b.tasks[k]
    ensures r.columns == b.columns && r.columnOrder == b.columnOrder
  {
    b.(tasks := b.tasks[task.id := task])
  }

  /** Saving keeps the board well formed and every listed id a task. */
  lemma SaveTaskKeepsWellFormed(b: Board, task: Task)
    ensures WellFormed(b) ==> WellFormed(SaveTask(b, task))
    ensures ListedAreTasks(b) ==> ListedAreTasks(SaveTask(b, task))
  {
  }

  /**
   Saving a listed task with a status other than its column's title leaves
   the board with a task whose status is not the title of the column that
   lists it.
   */
  lemma SaveStatusNotRelocated(b: Board, task: Task, k: Id)
    requires k in b.columns && task.id in b.columns[k].taskIds
    requires task.status != b.columns[k].title
    ensures !StatusesMatchTitles(SaveTask(b, task))
  {
    var r := SaveTask(b, task);
    assert k in r.columns && task.id in r.columns[k].taskIds && task.id in r.tasks;
  }

  /**
   handleDelete: the task is removed from the map and its id is filtered
   out of every column; the other tasks, the set of column keys, each
   column's other fields and the column order stay as they were, and the
   other ids keep their order.
   */
  function DeleteTask(b: Board, taskId: Id): (r: Board)
    ensures r.tasks.Keys == b.tasks.Keys - {taskId}
    ensures forall k :: k in r.tasks ==> r.tasks[k] == b.tasks[k]
    ensures r.columns.Keys == b.columns.Keys && r.columnOrder == b.columnOrder
    ensures forall k :: k in b.columns ==>
      && r.columns[k].id == b.columns[k].id
      && r.columns[k].title == b.columns[k].title
      && r.columns[k].color == b.columns[k].color
      && taskId !in r.columns[k].taskIds
      && multiset(r.columns[k].taskIds) == multiset(b.columns[k].taskIds)[taskId := 0]
      && IsSubsequence(r.columns[k].taskIds, b.columns[k].taskIds)
  {
    var newTasks := b.tasks - {taskId};
    var newColumns := map k | k in b.columns :: b.columns[k].(taskIds := Without(b.columns[k].taskIds, taskId));
    assert forall k :: k in b.columns ==> IsSubsequence(newColumns[k].taskIds, b.columns[k].taskIds) by {
      forall k | k in b.columns ensures IsSubsequence(newColumns[k].taskIds, b.columns[k].taskIds) {
        FilterIsSubsequence(Unequal(taskId), b.columns[k].taskIds);
      }
    }
    b.(tasks := newTasks, columns := newColumns)
  }

  /** Deleting a task twice is the same as deleting it once. */
  lemma DeleteTaskIdempotent(b: Board, taskId: Id)
    ensures DeleteTask(DeleteTask(b, taskId), taskId) == DeleteTask(b, taskId)
  {
    var once := DeleteTask(b, taskId);
    var twice := DeleteTask(once, taskId);
    assert twice.columns == once.columns by {
      forall k | k in once.columns ensures twice.columns[k] == once.columns[k] {
        WithoutAbsent(once.columns[k].taskIds, taskId);
      }
    }
    assert twice.tasks == once.tasks;
  }

  /** Deleting after saving the same task leaves the same board as deleting it outright. */
  lemma DeleteAfterSave(b: Board, task: Task)
    ensures DeleteTask(SaveTask(b, task), task.id) == DeleteTask(b, task.id)
  {
  }

  /** Deleting keeps the board well formed, every listed id a task, and statuses matching titles. */
  lemma DeleteTaskKeepsInvariants(b: Board, taskId: Id)
    ensures WellFormed(b) ==> WellFormed(DeleteTask(b, taskId))
    ensures ListedAreTasks(b) ==> ListedAreTasks(DeleteTask(b, taskId))
    ensures StatusesMatchTitles(b) ==> StatusesMatchTitles(DeleteTask(b, taskId))
  {
    var r := DeleteTask(b, taskId);
    forall k, t | k in r.columns && t in r.columns[k].taskIds
      ensures t != taskId && t in b.columns[k].taskIds
    {
      assert multiset(r.columns[k].taskIds)[t] > 0;
    }
  }
}
