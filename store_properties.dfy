/**
 Properties of the store's actions: the board consistency invariant and which
 actions keep it, idempotence of deleteTask, the move round trip, and the
 scenario of a task created, moved and cascaded away with its column.
 */
module StoreProperties {
  import opened Options
  import opened Seqs
  import opened StoreTypes
  import opened Store

  /** No two columns share an id. */
  ghost predicate DistinctColumnIds(columns: seq<Column>)
  {
    forall i, j :: 0 <= i < j < |columns| ==> columns[i].id != columns[j].id
  }

  /** Some column lists `k`. */
  ghost predicate Listed(columns: seq<Column>, k: Id)
  {
    exists i :: 0 <= i < |columns| && k in columns[i].taskIds
  }

  /** No column lists an id twice. */
  ghost predicate ListsWithoutDuplicates(columns: seq<Column>)
  {
    forall i :: 0 <= i < |columns| ==> NoDuplicates(columns[i].taskIds)
  }

  /** Every listed id is a task whose status is the id of the column listing it. */
  ghost predicate ListedAreTasks(b: Board)
  {
    forall i, k :: 0 <= i < |b.columns| && k in b.columns[i].taskIds ==>
      k in b.tasks && b.tasks[k].status == Some(b.columns[i].id)
  }

  /** Every task is listed by some column. */
  ghost predicate TasksAreListed(b: Board)
  {
    forall k :: k in b.tasks ==> Listed(b.columns, k)
  }

  /**
   The board is consistent: column ids are distinct, no column lists an id
   twice, every listed id is a task whose status is the listing column's id
   (so no id is listed by two columns), and every task is listed.
   */
  ghost predicate Consistent(b: Board)
  {
    && DistinctColumnIds(b.columns)
    && ListsWithoutDuplicates(b.columns)
    && ListedAreTasks(b)
    && TasksAreListed(b)
  }

  /** In a consistent board a task id is listed by at most one column. */
  lemma ListedOnce(b: Board, k: Id, i: nat, j: nat)
    requires Consistent(b)
    requires i < |b.columns| && j < |b.columns|
    requires k in b.columns[i].taskIds && k in b.columns[j].taskIds
    ensures i == j
  {
    assert b.tasks[k].status == Some(b.columns[i].id) == Some(b.columns[j].id);
  }

  /** The store starts consistent. */
  lemma InitialBoardConsistent()
    ensures Consistent(InitialBoard)
  {
  }

  /** A column that the board has, found by index. */
  lemma ColumnIndex(columns: seq<Column>, id: Id) returns (i: nat)
    requires FindColumn(columns, id).Some?
    ensures i < |columns| && columns[i].id == id
  {
    i :| 0 <= i < |columns| && columns[i].id == id;
  }

  /** The list `ids + [x]` has no duplicates when `ids` has none and lacks `x`. */
  lemma AppendKeepsNoDuplicates(ids: seq<Id>, x: Id)
    requires NoDuplicates(ids) && x !in ids
    ensures NoDuplicates(ids + [x])
  {
    var r := ids + [x];
    forall p, q | 0 <= p < q < |r| ensures r[p] != r[q] {
      if q == |ids| {
        assert r[p] == ids[p];
      }
    }
  }

  /** addTask with an id that is not yet a task keeps the board consistent. */
  lemma AddTaskKeepsConsistent(b: Board, columnId: Id, title: string, description: string, taskId: Id, now: Timestamp)
    requires Consistent(b)
    requires taskId !in b.tasks
    ensures Consistent(AddTask(b, columnId, title, description, taskId, now))
  {
    if FindColumn(b.columns, columnId).Some? {
      AddTaskKeepsLists(b, columnId, title, description, taskId, now);
      AddTaskKeepsListing(b, columnId, title, description, taskId, now);
    }
  }

  /** The column lists after addTask: still without duplicates, still naming tasks of that column. */
  lemma AddTaskKeepsLists(b: Board, columnId: Id, title: string, description: string, taskId: Id, now: Timestamp)
    requires ListsWithoutDuplicates(b.columns) && ListedAreTasks(b)
    requires taskId !in b.tasks
    requires FindColumn(b.columns, columnId).Some?
    ensures ListsWithoutDuplicates(AddTask(b, columnId, title, description, taskId, now).columns)
    ensures ListedAreTasks(AddTask(b, columnId, title, description, taskId, now))
  {
    var r := AddTask(b, columnId, title, description, taskId, now);
    forall i | 0 <= i < |r.columns| ensures NoDuplicates(r.columns[i].taskIds) {
      if b.columns[i].id == columnId {
        assert taskId !in b.columns[i].taskIds;
        AppendKeepsNoDuplicates(b.columns[i].taskIds, taskId);
      }
    }
    forall i, k | 0 <= i < |r.columns| && k in r.columns[i].taskIds
      ensures k in r.tasks && r.tasks[k].status == Some(r.columns[i].id)
    {
      if k != taskId {
        assert k in b.columns[i].taskIds;
      }
    }
  }

  /** Every task is listed after addTask: the new one by its column, the others where they were. */
  lemma AddTaskKeepsListing(b: Board, columnId: Id, title: string, description: string, taskId: Id, now: Timestamp)
    requires TasksAreListed(b)
    requires FindColumn(b.columns, columnId).Some?
    ensures TasksAreListed(AddTask(b, columnId, title, description, taskId, now))
  {
    var r := AddTask(b, columnId, title, description, taskId, now);
    var d := ColumnIndex(b.columns, columnId);
    forall k | k in r.tasks ensures Listed(r.columns, k) {
      if k == taskId {
        assert k in r.columns[d].taskIds;
      } else {
        var i :| 0 <= i < |b.columns| && k in b.columns[i].taskIds;
        assert k in r.columns[i].taskIds;
      }
    }
  }

  /** updateTask keeps the board consistent when it changes neither the status nor a missing entry. */
  lemma UpdateTaskKeepsConsistent(b: Board, taskId: Id, updates: Task)
    requires Consistent(b)
    requires taskId in b.tasks
    requires updates.status.None? || updates.status == b.tasks[taskId].status
    ensures Consistent(UpdateTask(b, taskId, updates))
  {
  }

  /**
   updateTask does not relocate a task whose status it changes: the old
   column still lists it, so the board is no longer consistent.
   */
  lemma UpdateStatusBreaksConsistency(b: Board, taskId: Id, updates: Task)
    requires Consistent(b)
    requires taskId in b.tasks
    requires updates.status.Some? && updates.status != b.tasks[taskId].status
    ensures !Consistent(UpdateTask(b, taskId, updates))
  {
    var i :| 0 <= i < |b.columns| && taskId in b.columns[i].taskIds;
    var r := UpdateTask(b, taskId, updates);
    assert taskId in r.columns[i].taskIds && r.tasks[taskId].status != Some(r.columns[i].id);
  }

  /** deleteTask keeps the board consistent. */
  lemma DeleteTaskKeepsConsistent(b: Board, taskId: Id)
    requires Consistent(b)
    ensures Consistent(DeleteTask(b, taskId))
  {
    var r := DeleteTask(b, taskId);
    forall i | 0 <= i < |r.columns| ensures NoDuplicates(r.columns[i].taskIds) {
      FilterKeepsNoDuplicates(Unequal(taskId), b.columns[i].taskIds);
    }
    forall k | k in r.tasks ensures Listed(r.columns, k) {
      var i :| 0 <= i < |b.columns| && k in b.columns[i].taskIds;
      assert k in r.columns[i].taskIds;
    }
  }

  /** deleteTask afterwards: `taskId` is neither a task nor listed anywhere. */
  lemma DeleteTaskRemovesEverywhere(b: Board, taskId: Id)
    ensures taskId !in DeleteTask(b, taskId).tasks
    ensures !Listed(DeleteTask(b, taskId).columns, taskId)
  {
    var r := DeleteTask(b, taskId);
    forall i | 0 <= i < |r.columns| ensures taskId !in r.columns[i].taskIds {
    }
  }

  /** deleteTask keeps the other ids of every column in their relative order. */
  lemma DeleteTaskKeepsOrder(b: Board, taskId: Id)
    ensures forall i :: 0 <= i < |b.columns| ==>
      IsSubsequence(DeleteTask(b, taskId).columns[i].taskIds, b.columns[i].taskIds)
  {
    forall i | 0 <= i < |b.columns|
      ensures IsSubsequence(DeleteTask(b, taskId).columns[i].taskIds, b.columns[i].taskIds)
    {
      FilterIsSubsequence(Unequal(taskId), b.columns[i].taskIds);
    }
  }

  /** Deleting the same task twice is deleting it once. */
  lemma DeleteTaskIdempotent(b: Board, taskId: Id)
    ensures DeleteTask(DeleteTask(b, taskId), taskId) == DeleteTask(b, taskId)
  {
    var once := DeleteTask(b, taskId);
    var twice := DeleteTask(once, taskId);
    assert twice.tasks == once.tasks;
    assert |twice.columns| == |once.columns|;
    forall i | 0 <= i < |once.columns| ensures twice.columns[i] == once.columns[i] {
      assert taskId !in once.columns[i].taskIds;
    }
  }

  /**
   moveTask from a column to a different one keeps the board consistent
   when the task's status is the source column.
   */
  lemma MoveTaskKeepsConsistent(b: Board, taskId: Id, src: Id, dst: Id)
    requires Consistent(b)
    requires taskId in b.tasks && b.tasks[taskId].status == Some(src)
    requires src != dst
    ensures Consistent(MoveTask(b, taskId, src, dst))
  {
    if FindColumn(b.columns, src).Some? && FindColumn(b.columns, dst).Some? {
      MoveTaskKeepsLists(b, taskId, src, dst);
      MoveTaskKeepsListing(b, taskId, src, dst);
    }
  }

  /** The column lists after a move between different columns: no duplicates, listed ids are tasks of that column. */
  lemma MoveTaskKeepsLists(b: Board, taskId: Id, src: Id, dst: Id)
    requires ListsWithoutDuplicates(b.columns) && ListedAreTasks(b)
    requires taskId in b.tasks && b.tasks[taskId].status == Some(src)
    requires src != dst
    requires FindColumn(b.columns, src).Some? && FindColumn(b.columns, dst).Some?
    ensures ListsWithoutDuplicates(MoveTask(b, taskId, src, dst).columns)
    ensures ListedAreTasks(MoveTask(b, taskId, src, dst))
  {
    var r := MoveTask(b, taskId, src, dst);
    forall i | 0 <= i < |r.columns| ensures NoDuplicates(r.columns[i].taskIds) {
      if b.columns[i].id == src {
        FilterKeepsNoDuplicates(Unequal(taskId), b.columns[i].taskIds);
      } else if b.columns[i].id == dst {
        assert taskId !in b.columns[i].taskIds;
        AppendKeepsNoDuplicates(b.columns[i].taskIds, taskId);
      }
    }
    forall i, k | 0 <= i < |r.columns| && k in r.columns[i].taskIds
      ensures k in r.tasks && r.tasks[k].status == Some(r.columns[i].id)
    {
      if k != taskId {
        assert k in b.columns[i].taskIds;
      }
    }
  }

  /** Every task is listed after a move: the moved one by the destination, the others where they were. */
  lemma MoveTaskKeepsListing(b: Board, taskId: Id, src: Id, dst: Id)
    requires TasksAreListed(b)
    requires FindColumn(b.columns, src).Some? && FindColumn(b.columns, dst).Some?
    requires src != dst
    ensures TasksAreListed(MoveTask(b, taskId, src, dst))
  {
    var r := MoveTask(b, taskId, src, dst);
    var d := ColumnIndex(b.columns, dst);
    forall k | k in r.tasks ensures Listed(r.columns, k) {
      if k == taskId {
        assert k in r.columns[d].taskIds;
      } else {
        var i :| 0 <= i < |b.columns| && k in b.columns[i].taskIds;
        assert k in r.columns[i].taskIds;
      }
    }
  }

  /**
   moveTask with the same column as source and destination: the source
   branch wins, so the id is filtered out and never re-appended.
   */
  lemma MoveTaskWithinColumnDropsId(b: Board, taskId: Id, columnId: Id)
    requires FindColumn(b.columns, columnId).Some?
    ensures forall i :: 0 <= i < |b.columns| && b.columns[i].id == columnId ==>
      taskId !in MoveTask(b, taskId, columnId, columnId).columns[i].taskIds
    ensures MoveTask(b, taskId, columnId, columnId).tasks[taskId].status == Some(columnId)
  {
  }

  /** The column lists of a move from `a` to `c` followed by one from `c` back to `a`. */
  lemma MoveColumnsRoundTrip(columns: seq<Column>, taskId: Id, a: Id, c: Id)
    requires a != c
    ensures var r := MoveColumns(MoveColumns(columns, taskId, a, c), taskId, c, a);
      && |r| == |columns|
      && forall i :: 0 <= i < |columns| ==>
        && r[i].id == columns[i].id
        && (columns[i].id == a ==> r[i].taskIds == Without(columns[i].taskIds, taskId) + [taskId])
        && (columns[i].id == c ==> r[i].taskIds == Without(columns[i].taskIds, taskId))
        && (columns[i].id != a && columns[i].id != c ==> r[i] == columns[i])
  {
    var mid := MoveColumns(columns, taskId, a, c);
    forall i | 0 <= i < |columns| && columns[i].id == c
      ensures Without(mid[i].taskIds, taskId) == Without(columns[i].taskIds, taskId)
    {
      WithoutAppended(columns[i].taskIds, taskId);
    }
  }

  /**
   Moving a task from `a` to `c` and back puts it at the tail of `a`, and `c`
   ends up without it; every other column is as before.
   */
  lemma MoveRoundTrip(b: Board, taskId: Id, a: Id, c: Id)
    requires a != c
    requires FindColumn(b.columns, a).Some? && FindColumn(b.columns, c).Some?
    ensures var r := MoveTask(MoveTask(b, taskId, a, c), taskId, c, a);
      && r.columns == MoveColumns(MoveColumns(b.columns, taskId, a, c), taskId, c, a)
      && r.tasks[taskId].status == Some(a)
      && |r.columns| == |b.columns|
      && forall i :: 0 <= i < |b.columns| ==>
        && r.columns[i].id == b.columns[i].id
        && (b.columns[i].id == a ==> r.columns[i].taskIds == Without(b.columns[i].taskIds, taskId) + [taskId])
        && (b.columns[i].id == c ==> r.columns[i].taskIds == Without(b.columns[i].taskIds, taskId))
        && (b.columns[i].id != a && b.columns[i].id != c ==> r.columns[i] == b.columns[i])
  {
    var mid := MoveTask(b, taskId, a, c);
    var ia := ColumnIndex(b.columns, a);
    var ic := ColumnIndex(b.columns, c);
    assert FindColumn(mid.columns, c).Some? by { assert mid.columns[ic].id == c; }
    assert FindColumn(mid.columns, a).Some? by { assert mid.columns[ia].id == a; }
    MoveColumnsRoundTrip(b.columns, taskId, a, c);
  }

  /** addColumn with an id no column has keeps the board consistent. */
  lemma AddColumnKeepsConsistent(b: Board, title: string, columnId: Id)
    requires Consistent(b)
    requires FindColumn(b.columns, columnId).None?
    ensures Consistent(AddColumn(b, title, columnId))
  {
    var r := AddColumn(b, title, columnId);
    forall k | k in r.tasks ensures Listed(r.columns, k) {
      var i :| 0 <= i < |b.columns| && k in b.columns[i].taskIds;
      assert r.columns[i] == b.columns[i];
    }
  }

  /** deleteColumn keeps the board consistent: the cascade removes exactly the tasks the column listed. */
  lemma DeleteColumnKeepsConsistent(b: Board, columnId: Id)
    requires Consistent(b)
    ensures Consistent(DeleteColumn(b, columnId))
  {
    DistinctIdsFiltered(IdIsNot(columnId), b.columns);
    DeleteColumnKeepsLists(b, columnId);
    DeleteColumnKeepsListing(b, columnId);
  }

  /** The surviving columns are original ones, so their lists stay without duplicates and name surviving tasks. */
  lemma DeleteColumnKeepsLists(b: Board, columnId: Id)
    requires ListsWithoutDuplicates(b.columns) && ListedAreTasks(b)
    ensures ListsWithoutDuplicates(DeleteColumn(b, columnId).columns)
    ensures ListedAreTasks(DeleteColumn(b, columnId))
  {
    var r := DeleteColumn(b, columnId);
    forall i | 0 <= i < |r.columns| ensures NoDuplicates(r.columns[i].taskIds) {
      assert r.columns[i] in b.columns;
      var j :| 0 <= j < |b.columns| && b.columns[j] == r.columns[i];
    }
    forall i, k | 0 <= i < |r.columns| && k in r.columns[i].taskIds
      ensures k in r.tasks && r.tasks[k].status == Some(r.columns[i].id)
    {
      assert r.columns[i] in b.columns;
      var j :| 0 <= j < |b.columns| && b.columns[j] == r.columns[i];
      assert k in b.columns[j].taskIds;
    }
  }

  /** A task that survives deleteColumn was listed by a column that survives too. */
  lemma DeleteColumnKeepsListing(b: Board, columnId: Id)
    requires ListedAreTasks(b) && TasksAreListed(b)
    ensures TasksAreListed(DeleteColumn(b, columnId))
  {
    var r := DeleteColumn(b, columnId);
    forall k | k in r.tasks ensures Listed(r.columns, k) {
      var j :| 0 <= j < |b.columns| && k in b.columns[j].taskIds;
      assert b.columns[j] in r.columns;
      var i :| 0 <= i < |r.columns| && r.columns[i] == b.columns[j];
      assert k in r.columns[i].taskIds;
    }
  }

  /** Filtering columns keeps their ids distinct. */
  lemma {:induction false} DistinctIdsFiltered(keep: Column -> bool, columns: seq<Column>)
    requires DistinctColumnIds(columns)
    ensures DistinctColumnIds(Filter(keep, columns))
  {
    if columns != [] {
      var tail := columns[1..];
      assert DistinctColumnIds(tail) by {
        forall i, j | 0 <= i < j < |tail| ensures tail[i].id != tail[j].id {
          assert tail[i] == columns[i + 1] && tail[j] == columns[j + 1];
        }
      }
      DistinctIdsFiltered(keep, tail);
      var rest := Filter(keep, tail);
      forall c | c in rest ensures c.id != columns[0].id {
        assert c in tail;
        var j :| 0 <= j < |tail| && tail[j] == c;
        assert tail[j] == columns[j + 1];
      }
    }
  }

  /** After deleteColumn no task has the deleted column as its status. */
  lemma DeleteColumnCascades(b: Board, columnId: Id)
    ensures forall k :: k in DeleteColumn(b, columnId).tasks ==>
      DeleteColumn(b, columnId).tasks[k].status != Some(columnId)
    ensures forall c :: c in DeleteColumn(b, columnId).columns ==> c.id != columnId
  {
  }

  /** The task the walk-through creates. */
  function ScenarioTask(taskId: Id, now: Timestamp, status: Id): Task
  {
    Task(Some(taskId), Some("Write spec"), Some(""), Some(status), Some(now))
  }

  /** Walk-through, step one: a task added to "todo" of a fresh store is its only task and only entry of "todo". */
  lemma ScenarioAdd(taskId: Id, now: Timestamp)
    ensures AddTask(InitialBoard, "todo", "Write spec", "", taskId, now) == Board(
      map[taskId := ScenarioTask(taskId, now, "todo")],
      [Column("todo", "To Do", [taskId]), Column("in-progress", "In Progress", []), Column("done", "Done", [])])
  {
    var r := AddTask(InitialBoard, "todo", "Write spec", "", taskId, now);
    assert FindColumn(InitialBoard.columns, "todo").Some? by {
      assert InitialBoard.columns[0].id == "todo";
    }
    assert |r.columns| == 3;
    assert r.columns[0] == Column("todo", "To Do", [taskId]);
    assert r.columns[1] == Column("in-progress", "In Progress", []);
    assert r.columns[2] == Column("done", "Done", []);
  }

  /** The columns of walk-through step two: "todo" loses the task id and "in-progress" gains it. */
  lemma ScenarioMoveColumns(taskId: Id)
    ensures MoveColumns(
      [Column("todo", "To Do", [taskId]), Column("in-progress", "In Progress", []), Column("done", "Done", [])],
      taskId, "todo", "in-progress")
      == [Column("todo", "To Do", []), Column("in-progress", "In Progress", [taskId]), Column("done", "Done", [])]
  {
    var cols := [Column("todo", "To Do", [taskId]), Column("in-progress", "In Progress", []), Column("done", "Done", [])];
    var r := MoveColumns(cols, taskId, "todo", "in-progress");
    assert r[0] == Column("todo", "To Do", []) by {
      assert Without([taskId], taskId) == [];
    }
    assert r[1] == Column("in-progress", "In Progress", [taskId]);
    assert r[2] == Column("done", "Done", []);
  }

  /** Walk-through, step two: moving it to "in-progress" empties "todo" and updates the status. */
  lemma ScenarioMove(taskId: Id, now: Timestamp)
    ensures MoveTask(
      Board(
        map[taskId := ScenarioTask(taskId, now, "todo")],
        [Column("todo", "To Do", [taskId]), Column("in-progress", "In Progress", []), Column("done", "Done", [])]),
      taskId, "todo", "in-progress") == Board(
      map[taskId := ScenarioTask(taskId, now, "in-progress")],
      [Column("todo", "To Do", []), Column("in-progress", "In Progress", [taskId]), Column("done", "Done", [])])
  {
    var b := Board(
      map[taskId := ScenarioTask(taskId, now, "todo")],
      [Column("todo", "To Do", [taskId]), Column("in-progress", "In Progress", []), Column("done", "Done", [])]);
    assert FindColumn(b.columns, "todo").Some? && FindColumn(b.columns, "in-progress").Some? by {
      assert b.columns[0].id == "todo" && b.columns[1].id == "in-progress";
    }
    ScenarioMoveColumns(taskId);
    var r := MoveTask(b, taskId, "todo", "in-progress");
    assert r.tasks == map[taskId := ScenarioTask(taskId, now, "in-progress")];
  }

  /** The last three of the walk-through's four columns, filtered: "in-progress" goes, the other two stay. */
  lemma ScenarioTailFiltered(taskId: Id, reviewId: Id)
    requires reviewId != "in-progress"
    ensures Filter(IdIsNot("in-progress"), [
        Column("in-progress", "In Progress", [taskId]), Column("done", "Done", []), Column(reviewId, "Review", [])])
      == [Column("done", "Done", []), Column(reviewId, "Review", [])]
  {
    var doing, done, review := Column("in-progress", "In Progress", [taskId]),
      Column("done", "Done", []), Column(reviewId, "Review", []);
    var keep := IdIsNot("in-progress");
    assert Filter(keep, [review]) == [review] by {
      FilterCons(keep, review, []);
      assert [review] + [] == [review];
    }
    assert Filter(keep, [done, review]) == [done, review] by {
      FilterCons(keep, done, [review]);
      assert [done] + [review] == [done, review];
    }
    FilterCons(keep, doing, [done, review]);
    assert [doing] + [done, review] == [doing, done, review];
  }

  /** Deleting "in-progress" from the four columns of the walk-through leaves the other three in order. */
  lemma ScenarioColumnsFiltered(taskId: Id, reviewId: Id)
    requires reviewId != "in-progress"
    ensures Filter(IdIsNot("in-progress"), [
        Column("todo", "To Do", []), Column("in-progress", "In Progress", [taskId]),
        Column("done", "Done", []), Column(reviewId, "Review", [])])
      == [Column("todo", "To Do", []), Column("done", "Done", []), Column(reviewId, "Review", [])]
  {
    var todo, doing, done, review := Column("todo", "To Do", []), Column("in-progress", "In Progress", [taskId]),
      Column("done", "Done", []), Column(reviewId, "Review", []);
    ScenarioTailFiltered(taskId, reviewId);
    FilterCons(IdIsNot("in-progress"), todo, [doing, done, review]);
    assert [todo] + [doing, done, review] == [todo, doing, done, review];
  }

  /**
   Walk-through, step three: a "Review" column is appended as the fourth
   column, and deleting "in-progress" then takes the task with it.
   */
  lemma ScenarioDeleteColumn(taskId: Id, now: Timestamp, reviewId: Id)
    requires reviewId != "in-progress"
    ensures var b := AddColumn(
      Board(
        map[taskId := ScenarioTask(taskId, now, "in-progress")],
        [Column("todo", "To Do", []), Column("in-progress", "In Progress", [taskId]), Column("done", "Done", [])]),
      "Review", reviewId);
      && |b.columns| == 4
      && b.columns[3] == Column(reviewId, "Review", [])
      && DeleteColumn(b, "in-progress") == Board(
        map[],
        [Column("todo", "To Do", []), Column("done", "Done", []), Column(reviewId, "Review", [])])
  {
    var todo, doing, done, review := Column("todo", "To Do", []), Column("in-progress", "In Progress", [taskId]),
      Column("done", "Done", []), Column(reviewId, "Review", []);
    var b := AddColumn(Board(map[taskId := ScenarioTask(taskId, now, "in-progress")], [todo, doing, done]), "Review", reviewId);
    assert b.columns == [todo, doing, done, review];
    ScenarioColumnsFiltered(taskId, reviewId);
    assert DeleteColumn(b, "in-progress").tasks == map[];
  }
}
